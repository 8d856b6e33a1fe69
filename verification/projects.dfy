/**
 * The projects page: the technology list built from all projects, the
 * category buttons, the filter they drive, the "Showing X of Y" counts and
 * the "Key Features" statistic.
 */
module Projects {

  /** A portfolio project, reduced to the fields the page computes with. */
  datatype Project = Project(id: int, title: string, technologies: seq<string>, highlights: seq<string>)

  /** The category that selects every project; the initial selection. */
  const AllCategory: string := "all"

  predicate NoDuplicates<T(==)>(xs: seq<T>)
  {
    forall i, j | 0 <= i < j < |xs| :: xs[i] != xs[j]
  }

  /** Some project lists `t` among its technologies. */
  predicate UsedBy(ps: seq<Project>, t: string)
  {
    exists p | p in ps :: t in p.technologies
  }

  /** `projects.flatMap(project => project.technologies)` */
  function FlatTechnologies(ps: seq<Project>): (r: seq<string>)
    ensures forall t :: t in r <==> UsedBy(ps, t)
  {
    if |ps| == 0 then []
    else
      var init := ps[..|ps| - 1];
      var r := FlatTechnologies(init) + ps[|ps| - 1].technologies;
      assert forall p :: p in ps <==> p in init || p == ps[|ps| - 1] by {
        assert ps == init + [ps[|ps| - 1]];
      }
      r
  }

  /** Index of the first occurrence of `x` in `xs`. */
  function FirstIndex(xs: seq<string>, x: string): (i: nat)
    requires x in xs
    ensures i < |xs| && xs[i] == x
    ensures forall k | 0 <= k < i :: xs[k] != x
  {
    if xs[0] == x then 0 else 1 + FirstIndex(xs[1..], x)
  }

  /** `[...new Set(xs)]`: the values of `xs` in the order a `Set` sees them
      first, each once. Inserting a value already present leaves a `Set`
      and its iteration order unchanged. */
  function Dedupe(xs: seq<string>): (r: seq<string>)
    ensures NoDuplicates(r)
    ensures forall x :: x in r <==> x in xs
    ensures |r| <= |xs|
  {
    if |xs| == 0 then []
    else
      var init := xs[..|xs| - 1];
      var last := xs[|xs| - 1];
      assert xs == init + [last];
      var r := Dedupe(init);
      if last in r then r else r + [last]
  }

  /** `allTechnologies` */
  function AllTechnologies(ps: seq<Project>): (r: seq<string>)
    ensures NoDuplicates(r)
    ensures forall t :: t in r <==> UsedBy(ps, t)
  {
    Dedupe(FlatTechnologies(ps))
  }

  /** `categories`: `'all'` followed by every technology. */
  function Categories(ps: seq<Project>): (r: seq<string>)
    ensures |r| == |AllTechnologies(ps)| + 1
    ensures r[0] == AllCategory && r[1..] == AllTechnologies(ps)
    ensures forall c :: c in r <==> c == AllCategory || UsedBy(ps, c)
  {
    var techs := AllTechnologies(ps);
    var r := [AllCategory] + techs;
    assert r[1..] == techs;
    r
  }

  /** The category buttons have distinct keys unless some project lists a
      technology literally named `'all'`. */
  lemma CategoriesAreDistinct(ps: seq<Project>)
    ensures NoDuplicates(Categories(ps)) <==> !UsedBy(ps, AllCategory)
  {
    var r := Categories(ps);
    var techs := AllTechnologies(ps);
    if UsedBy(ps, AllCategory) {
      var j :| 0 <= j < |techs| && techs[j] == AllCategory;
      assert r[0] == r[j + 1];
    } else {
      forall i, j | 0 <= i < j < |r| ensures r[i] != r[j] {
        assert r[j] == techs[j - 1];
        if i > 0 {
          assert r[i] == techs[i - 1];
        }
      }
    }
  }

  // ---------------------------------------------------------------------------
  // The order of the technology list
  // ---------------------------------------------------------------------------

  /** The first occurrence of a value in a prefix is its first occurrence in
      the whole sequence. */
  lemma FirstIndexInPrefix(xs: seq<string>, n: nat, y: string)
    requires n <= |xs| && y in xs[..n]
    ensures FirstIndex(xs, y) == FirstIndex(xs[..n], y)
  {
    var i := FirstIndex(xs[..n], y);
    var j := FirstIndex(xs, y);
    assert xs[i] == y;
  }

  /** `allTechnologies` keeps each value where it first appears: its values
      are listed by increasing first occurrence in the flattened list. */
  lemma {:induction false} DedupeKeepsFirstOrder(xs: seq<string>)
    ensures forall i, j | 0 <= i < j < |Dedupe(xs)| ::
      FirstIndex(xs, Dedupe(xs)[i]) < FirstIndex(xs, Dedupe(xs)[j])
    decreases |xs|
  {
    if |xs| > 0 {
      var n := |xs| - 1;
      var init := xs[..n];
      var r := Dedupe(init);
      DedupeKeepsFirstOrder(init);
      assert init == xs[..n];
      forall y | y in r ensures FirstIndex(xs, y) == FirstIndex(init, y) < n {
        FirstIndexInPrefix(xs, n, y);
      }
      if xs[n] !in r {
        assert forall k | 0 <= k < n :: xs[k] != xs[n] by {
          forall k | 0 <= k < n ensures xs[k] != xs[n] {
            assert xs[k] == init[k];
          }
        }
      }
    }
  }

  /** In a list ordered by first occurrence, the head comes first. */
  lemma HeadOccursFirst(xs: seq<string>, a: seq<string>, x: string)
    requires forall y | y in a :: y in xs
    requires forall i, j | 0 <= i < j < |a| :: FirstIndex(xs, a[i]) < FirstIndex(xs, a[j])
    requires x in a
    ensures FirstIndex(xs, a[0]) <= FirstIndex(xs, x)
  {
    var i :| 0 <= i < |a| && a[i] == x;
    assert i == 0 || FirstIndex(xs, a[0]) < FirstIndex(xs, a[i]);
  }

  /** Two duplicate-free lists with the same values, both ordered by first
      occurrence in `xs`, are the same list. */
  lemma {:induction false} FirstOrderIsUnique(xs: seq<string>, a: seq<string>, b: seq<string>)
    requires NoDuplicates(a) && NoDuplicates(b)
    requires forall x :: x in a <==> x in b
    requires forall x | x in a :: x in xs
    requires forall i, j | 0 <= i < j < |a| :: FirstIndex(xs, a[i]) < FirstIndex(xs, a[j])
    requires forall i, j | 0 <= i < j < |b| :: FirstIndex(xs, b[i]) < FirstIndex(xs, b[j])
    ensures a == b
    decreases |a|
  {
    assert |b| > 0 ==> b[0] in b;
    if |a| > 0 {
      assert a[0] in a && b[0] in b;
      HeadOccursFirst(xs, a, b[0]);
      HeadOccursFirst(xs, b, a[0]);
      assert a[0] == xs[FirstIndex(xs, a[0])] == b[0];
      forall x ensures x in a[1..] <==> x in b[1..] {
        assert x in a[1..] <==> x in a && x != a[0];
        assert x in b[1..] <==> x in b && x != b[0];
      }
      FirstOrderIsUnique(xs, a[1..], b[1..]);
      assert a == [a[0]] + a[1..] && b == [b[0]] + b[1..];
    }
  }

  /** A reference definition of `allTechnologies`: it is the only
      duplicate-free list of the used technologies ordered by first
      occurrence across the projects in sequence. */
  lemma AllTechnologiesIsFirstOccurrenceOrder(ps: seq<Project>, s: seq<string>)
    requires NoDuplicates(s)
    requires forall t :: t in s <==> UsedBy(ps, t)
    requires forall i, j | 0 <= i < j < |s| ::
      FirstIndex(FlatTechnologies(ps), s[i]) < FirstIndex(FlatTechnologies(ps), s[j])
    ensures s == AllTechnologies(ps)
  {
    var flat := FlatTechnologies(ps);
    DedupeKeepsFirstOrder(flat);
    FirstOrderIsUnique(flat, s, Dedupe(flat));
  }

  // ---------------------------------------------------------------------------
  // Filtering
  // ---------------------------------------------------------------------------

  /** `projects.filter(project => project.technologies.includes(t))` */
  function FilterByTechnology(ps: seq<Project>, t: string): (r: seq<Project>)
    ensures |r| <= |ps|
    ensures forall p | p in r :: p in ps && t in p.technologies
    ensures forall p | p in ps && t in p.technologies :: p in r
  {
    if |ps| == 0 then []
    else
      var init := ps[..|ps| - 1];
      var last := ps[|ps| - 1];
      assert ps == init + [last];
      var r := FilterByTechnology(init, t);
      if t in last.technologies then r + [last] else r
  }

  /** `filteredProjects` */
  function FilteredProjects(ps: seq<Project>, selected: string): (r: seq<Project>)
    ensures selected == AllCategory ==> r == ps
    ensures |r| <= |ps|
    ensures selected != AllCategory ==> forall p :: p in r <==> p in ps && selected in p.technologies
  {
    if selected == AllCategory then ps else FilterByTechnology(ps, selected)
  }

  /** The positions, in increasing order, of the projects that list `t`. */
  function SelectedIndices(ps: seq<Project>, t: string): (idx: seq<nat>)
    ensures forall k | 0 <= k < |idx| :: idx[k] < |ps| && t in ps[idx[k]].technologies
    ensures forall k, l | 0 <= k < l < |idx| :: idx[k] < idx[l]
    ensures forall i | 0 <= i < |ps| && t in ps[i].technologies :: i in idx
  {
    if |ps| == 0 then []
    else
      var n := |ps| - 1;
      var idx := SelectedIndices(ps[..n], t);
      if t in ps[n].technologies then idx + [n] else idx
  }

  /** The filter keeps exactly the projects at the selected positions, in
      their original order: an order-preserving subsequence. */
  lemma {:induction false} FilterIsSelection(ps: seq<Project>, t: string)
    ensures |FilterByTechnology(ps, t)| == |SelectedIndices(ps, t)|
    ensures forall k | 0 <= k < |SelectedIndices(ps, t)| ::
      FilterByTechnology(ps, t)[k] == ps[SelectedIndices(ps, t)[k]]
    decreases |ps|
  {
    if |ps| > 0 {
      var n := |ps| - 1;
      var pre := ps[..n];
      assert ps == pre + [ps[n]];
      FilterByTechnologySnoc(pre, ps[n], t);
      FilterIsSelection(pre, t);
      var r, idx := FilterByTechnology(ps, t), SelectedIndices(ps, t);
      forall k | 0 <= k < |idx| ensures r[k] == ps[idx[k]] {
        if k < |SelectedIndices(pre, t)| {
          assert idx[k] == SelectedIndices(pre, t)[k];
        }
      }
    }
  }

  /** With a technology selected, "No projects found" is shown exactly when
      no project uses it. */
  lemma NoProjectsExactlyWhenUnused(ps: seq<Project>, selected: string)
    requires selected != AllCategory
    ensures |FilteredProjects(ps, selected)| == 0 <==> !UsedBy(ps, selected)
  {
    var r := FilteredProjects(ps, selected);
    assert |r| > 0 ==> r[0] in r;
    if UsedBy(ps, selected) {
      var p :| p in ps && selected in p.technologies;
      assert p in r;
    }
  }

  /** Every category a button offers selects at least one project, as long
      as there is any project at all. */
  lemma CategoryIsNeverEmpty(ps: seq<Project>, selected: string)
    requires selected in Categories(ps) && |ps| > 0
    ensures |FilteredProjects(ps, selected)| > 0
  {
    if selected != AllCategory {
      NoProjectsExactlyWhenUnused(ps, selected);
    }
  }

  /** "Showing X of Y projects": the shown and the total count. */
  function ShowingCounts(ps: seq<Project>, selected: string): (r: (nat, nat))
    ensures r.0 == |FilteredProjects(ps, selected)| && r.1 == |ps|
    ensures r.0 <= r.1
    ensures selected == AllCategory ==> r.0 == r.1
    ensures r.0 == 0 <==> |FilteredProjects(ps, selected)| == 0
  {
    (|FilteredProjects(ps, selected)|, |ps|)
  }

  // ---------------------------------------------------------------------------
  // The selection as a transition system
  // ---------------------------------------------------------------------------

  /** A click on a category button, or on "Show All Projects". */
  datatype Click = CategoryButton(category: string) | ShowAllButton

  /** The grid shows "No projects found" rather than cards. */
  predicate NoProjectsShown(ps: seq<Project>, selected: string)
  {
    |FilteredProjects(ps, selected)| == 0
  }

  /** `setSelectedCategory` through a click. Only rendered buttons can be
      clicked: one per category, and "Show All Projects" only in the
      "No projects found" branch; any other click changes nothing. */
  function Select(ps: seq<Project>, selected: string, c: Click): (r: string)
    ensures r == selected || r == AllCategory || r in AllTechnologies(ps)
    ensures c.CategoryButton? && c.category in Categories(ps) ==> r == c.category
    ensures c.ShowAllButton? && NoProjectsShown(ps, selected) ==> r == AllCategory
    ensures c.CategoryButton? && c.category !in Categories(ps) ==> r == selected
    ensures c.ShowAllButton? && !NoProjectsShown(ps, selected) ==> r == selected
  {
    match c
    case CategoryButton(category) =>
      if category in Categories(ps) then category else selected
    case ShowAllButton =>
      if NoProjectsShown(ps, selected) then AllCategory else selected
  }

  function SelectAll(ps: seq<Project>, selected: string, clicks: seq<Click>): string
    decreases |clicks|
  {
    if |clicks| == 0 then selected else SelectAll(ps, Select(ps, selected, clicks[0]), clicks[1..])
  }

  /** Starting from `'all'`, the selection is always one of the categories,
      so "No projects found" is shown only when there are no projects. */
  lemma {:induction false} SelectionStaysACategory(ps: seq<Project>, selected: string, clicks: seq<Click>)
    requires selected in Categories(ps)
    ensures SelectAll(ps, selected, clicks) in Categories(ps)
    ensures NoProjectsShown(ps, SelectAll(ps, selected, clicks)) <==> |ps| == 0
    decreases |clicks|
  {
    if |clicks| == 0 {
      if |ps| > 0 {
        CategoryIsNeverEmpty(ps, selected);
      }
    } else {
      SelectionStaysACategory(ps, Select(ps, selected, clicks[0]), clicks[1..]);
    }
  }

  lemma NoProjectsOnlyWhenNoneExist(ps: seq<Project>, clicks: seq<Click>)
    ensures NoProjectsShown(ps, SelectAll(ps, AllCategory, clicks)) <==> |ps| == 0
  {
    SelectionStaysACategory(ps, AllCategory, clicks);
  }

  // ---------------------------------------------------------------------------
  // "Key Features"
  // ---------------------------------------------------------------------------

  /** Number of highlights over all projects. */
  function HighlightCount(ps: seq<Project>): nat
  {
    if |ps| == 0 then 0 else HighlightCount(ps[..|ps| - 1]) + |ps[|ps| - 1].highlights|
  }

  /** All highlights of all projects, in order. */
  function AllHighlights(ps: seq<Project>): seq<string>
  {
    if |ps| == 0 then [] else AllHighlights(ps[..|ps| - 1]) + ps[|ps| - 1].highlights
  }

  /** The count splits over concatenation. */
  lemma {:induction false} HighlightCountAppend(a: seq<Project>, b: seq<Project>)
    ensures HighlightCount(a + b) == HighlightCount(a) + HighlightCount(b)
    decreases |b|
  {
    if |b| > 0 {
      var n := |b| - 1;
      assert (a + b)[..|a + b| - 1] == a + b[..n];
      assert (a + b)[|a + b| - 1] == b[n];
      HighlightCountAppend(a, b[..n]);
    } else {
      assert a + b == a;
    }
  }

  /** The statistic counts every highlight of every project once. */
  lemma {:induction false} HighlightCountIsAllHighlights(ps: seq<Project>)
    ensures HighlightCount(ps) == |AllHighlights(ps)|
    decreases |ps|
  {
    if |ps| > 0 {
      HighlightCountIsAllHighlights(ps[..|ps| - 1]);
    }
  }

  /** `projects.reduce((total, project) => total + project.highlights.length, 0)` */
  method KeyFeatures(ps: seq<Project>) returns (total: nat)
    ensures total == HighlightCount(ps)
    ensures total == |AllHighlights(ps)|
  {
    total := 0;
    for i := 0 to |ps|
      invariant total == HighlightCount(ps[..i])
    {
      assert ps[..i + 1][..i] == ps[..i];
      total := total + |ps[i].highlights|;
    }
    assert ps[..|ps|] == ps;
    HighlightCountIsAllHighlights(ps);
  }

  // ---------------------------------------------------------------------------
  // One more project, one more value
  // ---------------------------------------------------------------------------

  lemma FlatTechnologiesSnoc(ps: seq<Project>, p: Project)
    ensures FlatTechnologies(ps + [p]) == FlatTechnologies(ps) + p.technologies
  {
    assert (ps + [p])[..|ps|] == ps;
  }

  lemma FilterByTechnologySnoc(ps: seq<Project>, p: Project, t: string)
    ensures FilterByTechnology(ps + [p], t) == if t in p.technologies then FilterByTechnology(ps, t) + [p] else FilterByTechnology(ps, t)
  {
    assert (ps + [p])[..|ps|] == ps;
  }

  lemma HighlightCountSnoc(ps: seq<Project>, p: Project)
    ensures HighlightCount(ps + [p]) == HighlightCount(ps) + |p.highlights|
  {
    assert (ps + [p])[..|ps|] == ps;
  }
}
