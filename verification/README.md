# Portfolio contact form and project filter, in Dafny

This project models the two pieces of logic in a React portfolio site:

- **The contact page's form controller** (`src/pages/Contact/Contact.jsx`):
  - the validator `validateForm`, with its trim-based "required" checks, its two fixed regular expressions and the minimum message length;
  - the input handler `handleInputChange`;
  - the submit handler `handleSubmit`, together with the disabled inputs and button that keep it from being re-entered.
- **The projects page's technology filter** (`src/pages/Projects/Projects.jsx`):
  - the duplicate-free technology list `allTechnologies`;
  - the category buttons `categories`;
  - `filteredProjects`, the "Showing X of Y" counts and the "No projects found" branch;
  - the "Key Features" sum.

Modules:

- `Options`: the optional value.
- `Text`: `String.prototype.trim` and the `\s` class, as one whitespace set, and `length` in UTF-16 code units.
- `Patterns`: the email expression `^[^\s@]+@[^\s@]+\.[^\s@]+$` and the phone expression `^\(?([0-9]{3})\)?[-. ]?([0-9]{3})[-. ]?([0-9]{4})$`.
  - Each is written twice: as the language the expression denotes (`EmailPattern`, `PhonePattern`), and as the deterministic test the validator runs (`TestEmail`, `TestPhone`).
  - A lemma proves the two agree on every string.
- `ContactForm`: the five fields, `formData`, `formErrors`, the validator and the input update.
- `ContactSubmit`:
  - the component state and `handleSubmit`;
  - the page as a transition system over change, submit and send-settled events;
  - the invariant every reachable page satisfies.
- `ContactExamples`: concrete phone numbers, addresses and whole forms.
- `Projects`: flattening, `Set`-based deduplication, categories, filtering, selection clicks and the highlight sum.
- `ProjectsFixture`: the three projects the site ships with (`src/data/portfolio-data.js:62-108`) and what the page computes from them.

Behaviour as the code has it, which the model follows:

- `handleSubmit` has no guard against being called while a send is in flight. Only the `disabled={isSubmitting}` attributes on the five inputs and the button (`Contact.jsx:246-338`) keep events away. `ContactSubmit.Dispatch` models exactly that.
- A change to a field whose error is truthy sets that error to `''`. It does not delete it, so the key stays in `formErrors`. A falsy error is left as it is.
- A successful send does not touch `formErrors`. The invariant shows that by then every message in it is already `''`.
- `submitStatus` is reset to `''` at the start of every submit, including one that fails validation.
- The thank-you message reads `firstName` from the `formData` the handler closed over when it started, not from the form just reset.
- The email and phone expressions run on the untrimmed value; only the "required" checks trim.
- The message length is `trim().length`, counted in UTF-16 code units.
- The phone expression's parentheses are optional independently of each other, so `(6479716235` is accepted.

## Model

| member | source | states |
|---|---|---|
| Text.Trim | src/pages/Contact/Contact.jsx:51-73 | `trim()` returns a contiguous slice of its input with only whitespace cut from each end; the slice starts and ends with non-whitespace, and it is empty exactly when the input is all whitespace |
| Text.IsBlank | src/pages/Contact/Contact.jsx:51-71 | `!value.trim()` holds exactly when every character is whitespace |
| Text.Utf16Length | src/pages/Contact/Contact.jsx:73 | `length` lies between the number of code points and twice it; it equals the count when every code point is in the Basic Multilingual Plane, and exceeds it otherwise |
| Text.Utf16LengthOfChar | src/pages/Contact/Contact.jsx:73 | one code point has `length` 1 in the Basic Multilingual Plane and 2, a surrogate pair, above it |
| Text.Utf16LengthAppend | src/pages/Contact/Contact.jsx:73 | `length` is additive over concatenation, so with the one-code-point case it is the number of code points plus the number above the Basic Multilingual Plane |
| Patterns.TestEmailIsPattern | src/pages/Contact/Contact.jsx:61 | the validator's email test accepts a string exactly when the string is in the language of the email expression |
| Patterns.EmailHasOneAt | src/pages/Contact/Contact.jsx:61 | an accepted address contains no whitespace and exactly one '@', which is not its first character and is followed by at least three characters (a domain, a '.', a top-level part) |
| Patterns.EmailOfParts | src/pages/Contact/Contact.jsx:61 | any three non-empty runs without whitespace or '@', joined as local@domain.tld, are accepted |
| Patterns.TestPhoneIsPattern | src/pages/Contact/Contact.jsx:67 | the validator's phone test accepts a string exactly when the string is in the language of the phone expression |
| Patterns.PhoneLayoutIsScanned | src/pages/Contact/Contact.jsx:67 | the phone expression is unambiguous: a match determines which optional parenthesis and separators it uses |
| Patterns.PhoneHasTenDigits | src/pages/Contact/Contact.jsx:67 | an accepted phone number holds exactly ten digits and between ten and fourteen characters |
| ContactForm.FieldError | src/pages/Contact/Contact.jsx:51-75 | a field gets its "required" message exactly when its value is all whitespace; any other message it gets is that field's format or length message |
| ContactForm.FieldErrorMeetsRule | src/pages/Contact/Contact.jsx:51-75 | a field's check reports nothing exactly when the value is non-blank and meets the field's rule: the email expression, the phone expression, or at least ten code units once trimmed |
| ContactForm.MessageNeedsTenCodeUnits | src/pages/Contact/Contact.jsx:71-75 | a non-blank message gets the length message exactly when its trimmed length is below ten, and no entry otherwise |
| ContactForm.EmailIsNotTrimmed | src/pages/Contact/Contact.jsx:59-63 | a non-blank email with whitespace at either end gets the format message, because the expression runs on the untrimmed value |
| ContactForm.Validate | src/pages/Contact/Contact.jsx:47-78 | every field is checked; a field has its "required" message exactly when its value is blank, and any other message is its format or length message |
| ContactForm.ValidateReportsFailures | src/pages/Contact/Contact.jsx:47-77 | a field is a key of the result exactly when its value fails its rule, whatever the other fields hold |
| ContactForm.ValidateEmptyIffAllPass | src/pages/Contact/Contact.jsx:47-88 | the result is empty, so the submit proceeds, exactly when each of the five checks passes |
| ContactForm.ValidateAllBlank | src/pages/Contact/Contact.jsx:51-75 | an all-blank form gets all five "required" messages and no others |
| ContactForm.ValidateEmptyForm | src/pages/Contact/Contact.jsx:17-23 | the form as first rendered fails with the five "required" messages |
| ContactForm.InputChange | src/pages/Contact/Contact.jsx:30-44 | only the named field changes; its error, if present, becomes `''` and keeps its key; every other error entry is unchanged |
| ContactSubmit.ChangeInput | src/pages/Contact/Contact.jsx:30-44 | on the component state, an input change updates only `formData` and `formErrors`, as `InputChange` does, and leaves the in-flight flag and the status alone |
| ContactSubmit.ThankYouMessage | src/pages/Contact/Contact.jsx:114 | the message passed in the navigation state after a successful send contains the first name |
| ContactSubmit.BeginSubmit | src/pages/Contact/Contact.jsx:82-92 | the status is cleared; the handler goes on to the send exactly when validation reports nothing; otherwise the errors are replaced wholesale and the in-flight flag is cleared again |
| ContactSubmit.FinishSubmit | src/pages/Contact/Contact.jsx:94-123 | a resolved send sets "success", resets the form and asks to navigate to "/" with a message naming the captured first name; a throw sets "error" and keeps the form; either way the in-flight flag ends false and the errors are untouched |
| ContactSubmit.HandleSubmit | src/pages/Contact/Contact.jsx:81-124 | the three outcomes of one submission, validation failure, resolved send and thrown send, each with its effect on all four pieces of state and on navigation |
| ContactSubmit.HandleSubmitIgnoresFlags | src/pages/Contact/Contact.jsx:81-92 | the handler's result does not depend on the in-flight flag or the previous status: it has no guard against re-entry |
| ContactSubmit.Dispatch | src/pages/Contact/Contact.jsx:231-338 | on an idle page a change runs `handleInputChange` and a submit runs `handleSubmit` up to its `await`, leaving that call in flight exactly when validation passed; while a send is in flight, change and submit events have no effect; a settling send finishes the call in flight, and only it navigates, with the thank-you message for that call's first name |
| ContactSubmit.SubmitThenSettleIsHandleSubmit | src/pages/Contact/Contact.jsx:81-124 | on an idle page, a submit followed by the send settling ends in the state and navigation of one uninterrupted `handleSubmit` call |
| ContactSubmit.DispatchKeepsInv | src/pages/Contact/Contact.jsx:30-124 | every event keeps the page invariant: in-flight flag and pending send agree, a pending send carries the current valid form, and every shown error is the one the validator gives for the current value |
| ContactSubmit.NoErrorShownWhileSubmitting | src/pages/Contact/Contact.jsx:244-331 | on any page reached from the first render, while a send is in flight, every entry of `formErrors` is the empty message, so no error is displayed |
| ContactSubmit.RunKeepsInv | src/pages/Contact/Contact.jsx:81-124 | over any run of events the invariant holds, and navigations plus pending sends never outnumber submits plus the pending send at the start |
| ContactSubmit.ReachableFromInitial | src/pages/Contact/Contact.jsx:17-27 | from the first render, every reachable page satisfies the invariant and there are no more thank-you navigations than submits |
| ContactExamples.UnbalancedParenthesisAccepted | src/pages/Contact/Contact.jsx:67 | `(6479716235` is accepted: the parentheses are independent |
| ContactExamples.MalformedPhonesRejected | src/pages/Contact/Contact.jsx:67 | `12345`, `647--971-6235` and `+1 647-971-6235` are rejected |
| ContactExamples.JaneIsValid | src/pages/Contact/Contact.jsx:47-78 | a correctly filled-in form validates with no errors |
| ContactExamples.SloppyErrors | src/pages/Contact/Contact.jsx:47-78 | a form with a bad email, phone and message gets all three messages in one result and none for the names |
| ContactExamples.JaneSubmits | src/pages/Contact/Contact.jsx:81-124 | submitting that form with a resolved send resets it, sets "success" and navigates to "/" with a message containing "Jane" |
| Projects.FlatTechnologies | src/pages/Projects/Projects.jsx:15 | the flattened list holds exactly the technologies some project lists |
| Projects.Dedupe | src/pages/Projects/Projects.jsx:15 | spreading a `Set` gives a duplicate-free list of exactly the input's values, no longer than the input |
| Projects.AllTechnologies | src/pages/Projects/Projects.jsx:15 | `allTechnologies` is duplicate-free and holds exactly the technologies some project lists |
| Projects.DedupeKeepsFirstOrder | src/pages/Projects/Projects.jsx:15 | the values come in the order of their first occurrence across the projects |
| Projects.AllTechnologiesIsFirstOccurrenceOrder | src/pages/Projects/Projects.jsx:15 | `allTechnologies` is the only duplicate-free list of the used technologies ordered by first occurrence |
| Projects.Categories | src/pages/Projects/Projects.jsx:16 | `'all'` followed by `allTechnologies`, one longer than it, holding exactly `'all'` and the used technologies |
| Projects.CategoriesAreDistinct | src/pages/Projects/Projects.jsx:16-46 | the buttons' keys are distinct exactly when no project lists a technology named `'all'` |
| Projects.FilterByTechnology | src/pages/Projects/Projects.jsx:21 | the filter keeps exactly the projects that list the technology, and is no longer than the input |
| Projects.FilterIsSelection | src/pages/Projects/Projects.jsx:21 | the filter is the order-preserving subsequence at the increasing positions of the projects that list the technology |
| Projects.FilteredProjects | src/pages/Projects/Projects.jsx:19-21 | `'all'` gives the projects unchanged; any other selection gives exactly the projects listing it; never more than all projects |
| Projects.ShowingCounts | src/pages/Projects/Projects.jsx:55 | the shown count is the number of filtered projects and the total the number of projects; the shown count never exceeds the total, equals it for `'all'`, and is zero exactly when the grid is empty |
| Projects.NoProjectsExactlyWhenUnused | src/pages/Projects/Projects.jsx:64 | with a technology selected, "No projects found" appears exactly when no project lists it |
| Projects.CategoryIsNeverEmpty | src/pages/Projects/Projects.jsx:15-21 | every category offered as a button selects at least one project when there is any project |
| Projects.Select | src/pages/Projects/Projects.jsx:44-188 | a click on a rendered category button selects that category; "Show All Projects", rendered only in the "No projects found" branch, selects `'all'`; otherwise the selection stays as it was, so it is always the previous one, `'all'` or a technology |
| Projects.SelectionStaysACategory | src/pages/Projects/Projects.jsx:12-190 | through any clicks the selection stays a category, and "No projects found" shows exactly when there are no projects |
| Projects.NoProjectsOnlyWhenNoneExist | src/pages/Projects/Projects.jsx:177-190 | from the initial `'all'`, the "No projects found" branch is reachable only with an empty project list |
| Projects.HighlightCountAppend | src/pages/Projects/Projects.jsx:210 | the highlight count of two lists of projects is the sum of their counts |
| Projects.HighlightCountIsAllHighlights | src/pages/Projects/Projects.jsx:210 | the highlight count is the number of highlights of all projects put together |
| Projects.KeyFeatures | src/pages/Projects/Projects.jsx:210 | the left fold `reduce` computes the highlight count, the total number of highlights |
| ProjectsFixture.PortfolioFilterExpress | src/data/portfolio-data.js:62-108 | on the shipped data, "Express" selects the first two projects and shows "2 of 3" |
| ProjectsFixture.PortfolioKeyFeatures | src/data/portfolio-data.js:62-108 | on the shipped data, "Key Features" is 12 |

## Left out

- JSX markup, CSS classes, the animation delay per card, the success and error banners, and the other pages and components. They are presentation with nothing to compute.
- Time. The send's 2000 ms wait becomes the step from `BeginSubmit` to `FinishSubmit`. The second 2000 ms wait before navigating is collapsed: the navigation is returned when the send settles.
- The router. `navigate` becomes a returned `Navigation` value. Nothing in the site reads the navigation state, so the thank-you message it carries is never displayed.
- React's state batching and stale closures. `handleInputChange` reads `formErrors` from the render it was created in; the model reads the current state. The two agree whenever each event is followed by a render.
- The send outcome. The simulated send in the code never throws. The thrown outcome is kept as a parameter because the handler has a `catch` branch for it.
- `e.preventDefault()` and `noValidate` affect only the browser.
- Browser sanitisation of `type="email"` input values. The browser strips line breaks and leading and trailing ASCII whitespace before `handleInputChange` sees the value, so on the page `ContactForm.EmailIsNotTrimmed` applies only to other whitespace such as U+00A0. The model's change events carry arbitrary strings, which covers every value the page can deliver.
- Unicode version and lone surrogates.
  - The whitespace set is the ECMAScript WhiteSpace and LineTerminator code points as of current Unicode.
  - A Dafny `char` is a Unicode scalar value, so strings holding a lone surrogate are not representable.
  - On scalar values the two expressions' classes behave as they do on UTF-16 code units, since no class in them treats a surrogate half differently from the whole code point.
- Project fields the page only displays (`description`, `image`, `demoLink`, `githubLink`), and the "Total Projects", "Technologies Used" and "100%" statistics, which are `projects.length`, `allTechnologies.length` and a constant.
- ProjectsFixture.PortfolioHasReduxButton: states membership of one technology rather than the full eleven-entry list of the shipped data, because comparing whole lists of string literals was too costly to prove.

