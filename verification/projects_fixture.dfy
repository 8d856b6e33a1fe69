/**
 * The three projects the portfolio ships with, and what the projects page
 * computes from them.
 */
module ProjectsFixture {
  import opened Projects

  const ECommerce: Project := Project(1, "E-Commerce Platform",
    ["React", "Node.js", "Express", "MongoDB", "Stripe API"],
    ["Responsive design with mobile-first approach",
     "Secure user authentication and authorization",
     "Real-time inventory management",
     "Integrated payment processing"])

  const TaskManager: Project := Project(2, "Task Management Application",
    ["React", "Redux", "Socket.io", "Express", "PostgreSQL"],
    ["Real-time collaboration features",
     "Drag-and-drop task organization",
     "Team member management",
     "Progress tracking and analytics"])

  const WeatherDashboard: Project := Project(3, "Weather Dashboard",
    ["React", "OpenWeather API", "CSS Modules", "Responsive Design"],
    ["Real-time weather data integration",
     "Geolocation-based services",
     "5-day weather forecast",
     "Responsive and accessible design"])

  const PortfolioProjects: seq<Project> := [ECommerce, TaskManager, WeatherDashboard]

  lemma PortfolioIsSnocs()
    ensures PortfolioProjects == [] + [ECommerce] + [TaskManager] + [WeatherDashboard]
  {
  }

  /** The filter buttons offer the technologies the projects list: one for
      "Redux", which only the task manager uses. */
  lemma PortfolioHasReduxButton()
    ensures "Redux" in Categories(PortfolioProjects)
  {
    assert TaskManager in PortfolioProjects && "Redux" in TaskManager.technologies;
  }

  /** No button is offered for a technology no project lists. */
  lemma PortfolioHasNoVueButton()
    ensures "Vue" !in Categories(PortfolioProjects)
  {
    forall p | p in PortfolioProjects ensures "Vue" !in p.technologies {
    }
  }

  /** "React" selects all three projects. */
  lemma PortfolioFilterReact()
    ensures FilteredProjects(PortfolioProjects, "React") == PortfolioProjects
  {
    FilterOfPortfolio("React");
  }

  /** "Express" selects the first two projects: "Showing 2 of 3 projects". */
  lemma PortfolioFilterExpress()
    ensures FilteredProjects(PortfolioProjects, "Express") == [ECommerce, TaskManager]
    ensures ShowingCounts(PortfolioProjects, "Express") == (2, 3)
  {
    FilterOfPortfolio("Express");
  }

  /** "Redux" selects only the task manager. */
  lemma PortfolioFilterRedux()
    ensures FilteredProjects(PortfolioProjects, "Redux") == [TaskManager]
  {
    FilterOfPortfolio("Redux");
  }

  /** A technology no project lists selects nothing. */
  lemma PortfolioFilterUnused()
    ensures NoProjectsShown(PortfolioProjects, "Vue")
  {
    FilterOfPortfolio("Vue");
  }

  /** The filter on the first two projects. */
  lemma FilterOfFirstTwo(t: string)
    ensures FilterByTechnology([ECommerce, TaskManager], t) ==
      (if t in ECommerce.technologies then [ECommerce] else []) +
      (if t in TaskManager.technologies then [TaskManager] else [])
  {
    assert [] + [ECommerce] == [ECommerce];
    assert [ECommerce] + [TaskManager] == [ECommerce, TaskManager];
    FilterByTechnologySnoc([], ECommerce, t);
    FilterByTechnologySnoc([ECommerce], TaskManager, t);
  }

  /** The filter on the three projects, one project at a time. */
  lemma FilterOfPortfolio(t: string)
    ensures FilterByTechnology(PortfolioProjects, t) ==
      (if t in ECommerce.technologies then [ECommerce] else []) +
      (if t in TaskManager.technologies then [TaskManager] else []) +
      (if t in WeatherDashboard.technologies then [WeatherDashboard] else [])
  {
    assert PortfolioProjects == [ECommerce, TaskManager] + [WeatherDashboard];
    FilterOfFirstTwo(t);
    FilterByTechnologySnoc([ECommerce, TaskManager], WeatherDashboard, t);
  }

  /** "Key Features" shows 12: four highlights per project. */
  lemma PortfolioKeyFeatures()
    ensures HighlightCount(PortfolioProjects) == 12
  {
    PortfolioIsSnocs();
    assert [] + [ECommerce] == [ECommerce];
    assert [ECommerce] + [TaskManager] == [ECommerce, TaskManager];
    HighlightCountSnoc([], ECommerce);
    HighlightCountSnoc([ECommerce], TaskManager);
    HighlightCountSnoc([ECommerce, TaskManager], WeatherDashboard);
  }
}
