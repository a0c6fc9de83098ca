/**
 * The admin projects page: the list of projects it loads from the projects
 * endpoint, and how deleting and toggling the published and featured flags
 * change that list once the server has answered.
 */
module AdminProjects {
  import opened Wrappers
  import opened Json
  import opened Http
  import opened AdminList
  import ProjectsApi

  type ProjectView = ProjectsApi.ProjectView

  function IdOf(v: ProjectView): string
  {
    v.project.id
  }

  /** `{ ...project, published: b }`. */
  function PublishedAs(b: bool): ProjectView -> ProjectView
  {
    (v: ProjectView) => v.(project := v.project.(published := b))
  }

  /** `{ ...project, featured: b }`. */
  function FeaturedAs(b: bool): ProjectView -> ProjectView
  {
    (v: ProjectView) => v.(project := v.project.(featured := b))
  }

  /**
   * A toggle sets the flag to the opposite of the value the page showed, so
   * the same click answered twice leaves the list as one answer does.
   */
  lemma ToggleTwice(xs: seq<ProjectView>, id: string, shown: bool)
    ensures Update(Update(xs, id, IdOf, PublishedAs(!shown)), id, IdOf, PublishedAs(!shown)) ==
      Update(xs, id, IdOf, PublishedAs(!shown))
    ensures Update(Update(xs, id, IdOf, FeaturedAs(!shown)), id, IdOf, FeaturedAs(!shown)) ==
      Update(xs, id, IdOf, FeaturedAs(!shown))
  {
    UpdateIdempotent(xs, id, IdOf, PublishedAs(!shown));
    UpdateIdempotent(xs, id, IdOf, FeaturedAs(!shown));
  }

  /** The toggles change only the one flag of the projects with that id. */
  lemma ToggleChangesOneFlag(xs: seq<ProjectView>, id: string, b: bool, i: nat)
    requires i < |xs|
    ensures var v := Update(xs, id, IdOf, PublishedAs(b))[i];
      && v.project.published == (if xs[i].project.id == id then b else xs[i].project.published)
      && v.(project := v.project.(published := xs[i].project.published)) == xs[i]
    ensures var v := Update(xs, id, IdOf, FeaturedAs(b))[i];
      && v.project.featured == (if xs[i].project.id == id then b else xs[i].project.featured)
      && v.(project := v.project.(featured := xs[i].project.featured)) == xs[i]
  {
  }

  /** The page component's state. */
  class Page {
    var projects: seq<ProjectView>
    var loading: bool

    constructor()
      ensures projects == [] && loading
    {
      projects := [];
      loading := true;
    }

    /**
     * `fetchProjects`: a successful reply replaces the list; a failed reply
     * or a request that throws (`None`) leaves it. Loading ends either way.
     */
    method FetchProjects(response: Option<Reply<seq<ProjectView>>>)
      modifies this
      ensures projects == (if response.Some? && response.value.Ok? then response.value.body else old(projects))
      ensures !loading
    {
      if response.Some? && response.value.Ok? {
        projects := response.value.body;
      }
      loading := false;
    }

    /**
     * `deleteProject`: nothing is sent unless confirmed; the project leaves the
     * list only when the server says yes (`outcome` is `None` when the request
     * throws, else whether the reply was ok).
     */
    method DeleteProject(id: string, confirmed: bool, outcome: Option<bool>) returns (sent: bool, alert: Option<string>)
      modifies this
      ensures sent == confirmed
      ensures confirmed && outcome == Some(true) ==>
        projects == Remove(old(projects), id, IdOf) && alert == Some("Project deleted successfully")
      ensures confirmed && outcome != Some(true) ==>
        projects == old(projects) && alert == Some("Failed to delete project")
      ensures !confirmed ==> projects == old(projects) && alert == None
      ensures loading == old(loading)
    {
      if !confirmed {
        return false, None;
      }
      sent := true;
      if outcome == Some(true) {
        projects := Remove(projects, id, IdOf);
        alert := Some("Project deleted successfully");
      } else {
        alert := Some("Failed to delete project");
      }
    }

    /** `togglePublished`: asks for the opposite of the shown value and, on success, shows it. */
    method TogglePublished(id: string, published: bool, outcome: Option<bool>) returns (patch: map<string, JsonValue>)
      modifies this
      ensures patch == map["published" := JBool(!published)]
      ensures projects == (if outcome == Some(true) then Update(old(projects), id, IdOf, PublishedAs(!published)) else old(projects))
      ensures loading == old(loading)
    {
      patch := map["published" := JBool(!published)];
      if outcome == Some(true) {
        projects := Update(projects, id, IdOf, PublishedAs(!published));
      }
    }

    /** `toggleFeatured`: the same for the featured flag. */
    method ToggleFeatured(id: string, featured: bool, outcome: Option<bool>) returns (patch: map<string, JsonValue>)
      modifies this
      ensures patch == map["featured" := JBool(!featured)]
      ensures projects == (if outcome == Some(true) then Update(old(projects), id, IdOf, FeaturedAs(!featured)) else old(projects))
      ensures loading == old(loading)
    {
      patch := map["featured" := JBool(!featured)];
      if outcome == Some(true) {
        projects := Update(projects, id, IdOf, FeaturedAs(!featured));
      }
    }
  }

  /**
   * Opening the page: the list is fetched without filters, so once the store
   * answers and every project's technologies read back, the page holds every
   * project of the table, published or not, as often as the table does.
   */
  method Open(rows: seq<ProjectsApi.Project>, available: bool) returns (page: Page)
    ensures fresh(page) && !page.loading
    ensures available && (forall p :: p in rows ==> ProjectsApi.DecodeTechnologies(p.technologies).Some?) ==>
      multiset(ProjectsApi.Rows(page.projects)) == multiset(rows)
    ensures !available ==> page.projects == []
  {
    page := new Page();
    var reply := ProjectsApi.Get(rows, available, map[]);
    page.FetchProjects(Some(reply));
    if reply.Ok? {
      assert forall p :: ProjectsApi.Shown(map[], p);
      assert forall p :: multiset(ProjectsApi.Rows(page.projects))[p] == multiset(rows)[p];
    }
  }
}
