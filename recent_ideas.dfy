/** The recent-ideas feed: one card per idea, naming the idea's project
    and linking to it. */
module RecentIdeas {
  import opened Types
  import opened Strings
  import opened Lists
  import opened Markup
  import opened ItemCard

  /** The name a feed card gives the idea's project: the first project
      with that id, or "Unknown Project" when there is none or its title
      is empty. */
  function ProjectTitle(projects: seq<Project>, projectId: string): (r: string)
    ensures r != ""
    ensures (forall i :: 0 <= i < |projects| ==> projects[i].id != projectId) ==> r == UnknownProject
    ensures r != UnknownProject ==> exists j :: 0 <= j < |projects| && projects[j].id == projectId &&
                                               projects[j].title == r &&
                                               forall i :: 0 <= i < j ==> projects[i].id != projectId
    ensures forall j :: 0 <= j < |projects| && projects[j].id == projectId &&
                        (forall i :: 0 <= i < j ==> projects[i].id != projectId) ==>
                          r == if projects[j].title != "" then projects[j].title else UnknownProject
  {
    var f := Find((p: Project) => p.id == projectId, projects);
    FirstMatch(projects, projectId, f);
    match f
    case Some(p) => if p.title != "" then p.title else UnknownProject
    case None => UnknownProject
  }

  /** The first project with the id is the one `find` returns. */
  lemma FirstMatch(projects: seq<Project>, projectId: string, f: Option<Project>)
    requires f == Find((p: Project) => p.id == projectId, projects)
    ensures forall j :: 0 <= j < |projects| && projects[j].id == projectId &&
                        (forall i :: 0 <= i < j ==> projects[i].id != projectId) ==>
                          f == Some(projects[j])
  {
    forall j | 0 <= j < |projects| && projects[j].id == projectId &&
               (forall i :: 0 <= i < j ==> projects[i].id != projectId)
      ensures f == Some(projects[j])
    {
      var k :| 0 <= k < |projects| && projects[k] == f.value && projects[k].id == projectId &&
               forall i :: 0 <= i < k ==> projects[i].id != projectId;
      assert k == j;
    }
  }

  const UnknownProject: string := "Unknown Project"

  /** A project listed once, with a title, is given its own title. */
  lemma OwnTitle(projects: seq<Project>, k: nat)
    requires k < |projects| && projects[k].title != ""
    requires forall i :: 0 <= i < |projects| && i != k ==> projects[i].id != projects[k].id
    ensures ProjectTitle(projects, projects[k].id) == projects[k].title
  {
    var f := Find((p: Project) => p.id == projects[k].id, projects);
    var j :| 0 <= j < |projects| && projects[j] == f.value && projects[j].id == projects[k].id &&
             forall i :: 0 <= i < j ==> projects[i].id != projects[k].id;
  }

  /** One card of the feed. */
  datatype FeedCard = FeedCard(
    idea: RoadmapItem,
    description: Option<seq<Block>>,
    projectTitle: string,
    target: string,
    dueBadge: Option<bool>)

  /** The feed renders the whole description, one block per line. */
  function FeedMarkup(description: string): seq<Block>
  {
    RenderLines(description)
  }

  /** The card of one idea: its description when it has one, its
      project's title, the project its button selects, and its badge. */
  function Card(projects: seq<Project>, today: string, idea: RoadmapItem): (r: FeedCard)
    ensures r.idea == idea && r.target == idea.projectId
    ensures r.description.Some? <==> idea.description != ""
    ensures r.description.Some? ==> r.description.value == FeedMarkup(idea.description)
    ensures r.projectTitle == ProjectTitle(projects, idea.projectId)
    ensures r.dueBadge.Some? <==> HasDueDate(idea)
    ensures r.dueBadge.Some? ==> (r.dueBadge.value <==> IsOverdue(idea, today))
  {
    FeedCard(idea,
             if idea.description != "" then Some(FeedMarkup(idea.description)) else None,
             ProjectTitle(projects, idea.projectId),
             idea.projectId,
             DueBadge(idea, today))
  }

  /** The feed: one card per idea, in the ideas' order. */
  function Feed(projects: seq<Project>, today: string, ideas: seq<RoadmapItem>): (r: seq<FeedCard>)
    ensures |r| == |ideas|
    ensures forall i :: 0 <= i < |r| ==> r[i] == Card(projects, today, ideas[i])
  {
    seq(|ideas|, i requires 0 <= i < |ideas| => Card(projects, today, ideas[i]))
  }

  /** The feed's descriptions are not cut: the lines of a card join back
      to the whole description. */
  lemma FeedShowsWholeDescription(projects: seq<Project>, today: string, ideas: seq<RoadmapItem>, i: nat)
    requires i < |ideas| && ideas[i].description != ""
    ensures var d := Feed(projects, today, ideas)[i].description;
            d.Some? && |d.value| == |Split(ideas[i].description, '\n')| &&
            Join(Split(ideas[i].description, '\n'), '\n') == ideas[i].description
  {
    RenderedLinesCoverText(ideas[i].description);
  }
}
