/** The application store: the projects, the roadmap items, the selected
    project and the active view; the handlers that replace them; and the
    lists derived from them for the project view, the dashboard and the
    recent-ideas feed. */
module App {
  import opened Types
  import opened Lists
  import opened Sorting

  /** The two sidebar views. */
  datatype ActiveView = ProjectsView | RecentView

  /** The initial projects; creation times are the seed timestamps as
      milliseconds since the epoch. */
  const SeedProjects: seq<Project> := [
    Project("proj-1", "Website Redesign", "Complete overhaul of the corporate website.", 1696154400000, None),
    Project("proj-2", "Mobile App Launch", "Develop and launch the new mobile application for iOS and Android.", 1700058600000, None)
  ]

  /** The initial roadmap items. */
  const SeedItems: seq<RoadmapItem> := [
    RoadmapItem("item-1", "proj-1", Add, "Implement new design system",
                "Integrate the new Figma design system into the frontend codebase.",
                1696496400000, High, false, false, false, Some("2024-08-15")),
    RoadmapItem("item-2", "proj-1", Edit, "Refactor authentication flow",
                "Update the user login and registration process for better UX.",
                1696935600000, Medium, false, true, false, Some("2024-07-20")),
    RoadmapItem("item-3", "proj-2", Add, "Setup CI/CD pipeline",
                "Create a continuous integration and deployment pipeline for both mobile platforms.",
                1700496000000, Urgent, true, false, false, None),
    RoadmapItem("item-4", "proj-1", Remove, "Legacy IE11 support",
                "Drop support for Internet Explorer 11 as per the new browser support policy.",
                1697122800000, Low, false, false, true, None)
  ]

  function ProjectId(p: Project): string { p.id }
  function ItemId(item: RoadmapItem): string { item.id }

  // ---- The handlers' array updates ----

  /** The project built from a submitted form, with a new id and time. */
  function NewProject(data: ProjectData, id: string, createdAt: Instant): (r: Project)
    ensures r.id == id && r.createdAt == createdAt
    ensures r.title == data.title && r.description == data.description && r.logo == data.logo
  {
    Project(id, data.title, data.description, createdAt, data.logo)
  }

  /** The item built from a draft: a new id and time, neither done nor
      archived, the draft's fields copied. */
  function NewItem(draft: ItemDraft, id: string, createdAt: Instant): (r: RoadmapItem)
    ensures r.id == id && r.createdAt == createdAt && !r.isDone && !r.isArchived
    ensures r.projectId == draft.projectId && r.itemType == draft.itemType && r.title == draft.title
    ensures r.description == draft.description && r.priority == draft.priority
    ensures r.isPinned == draft.isPinned && r.dueDate == draft.dueDate
  {
    RoadmapItem(id, draft.projectId, draft.itemType, draft.title, draft.description, createdAt,
                draft.priority, draft.isPinned, false, false, draft.dueDate)
  }

  /** The project list after an edit of the selected project. */
  function UpdateSelected(projects: seq<Project>, selected: Option<string>, data: ProjectData): seq<Project>
  {
    seq(|projects|, i requires 0 <= i < |projects| =>
      if Some(projects[i].id) == selected
      then projects[i].(title := data.title, description := data.description, logo := data.logo)
      else projects[i])
  }

  /** The item list after saving `updated` over the item with its id. */
  function ReplaceItem(items: seq<RoadmapItem>, updated: RoadmapItem): seq<RoadmapItem>
  {
    seq(|items|, i requires 0 <= i < |items| => if items[i].id == updated.id then updated else items[i])
  }

  /** The item list after archiving (v true) or unarchiving (v false). */
  function SetArchived(items: seq<RoadmapItem>, id: string, v: bool): seq<RoadmapItem>
  {
    seq(|items|, i requires 0 <= i < |items| => if items[i].id == id then items[i].(isArchived := v) else items[i])
  }

  /** The item list after toggling the done flag of the item with id. */
  function ToggleDone(items: seq<RoadmapItem>, id: string): seq<RoadmapItem>
  {
    seq(|items|, i requires 0 <= i < |items| => if items[i].id == id then items[i].(isDone := !items[i].isDone) else items[i])
  }

  /** Editing the selected project changes its title, description and
      logo and nothing else: ids, times, order and the other projects are
      kept, and without a selected project nothing changes. */
  lemma UpdateSelectedSpec(projects: seq<Project>, selected: Option<string>, data: ProjectData)
    ensures var r := UpdateSelected(projects, selected, data);
            |r| == |projects| &&
            (forall i :: 0 <= i < |r| ==> r[i].id == projects[i].id && r[i].createdAt == projects[i].createdAt) &&
            (forall i :: 0 <= i < |r| && Some(projects[i].id) == selected ==>
               r[i].title == data.title && r[i].description == data.description && r[i].logo == data.logo) &&
            (forall i :: 0 <= i < |r| && Some(projects[i].id) != selected ==> r[i] == projects[i])
    ensures selected.None? ==> UpdateSelected(projects, selected, data) == projects
  {
  }

  /** Saving an item replaces the item with its id, keeps every other
      item and the order, and changes nothing for an id not present. */
  lemma ReplaceItemSpec(items: seq<RoadmapItem>, updated: RoadmapItem)
    ensures var r := ReplaceItem(items, updated);
            |r| == |items| &&
            (forall i :: 0 <= i < |r| ==> (items[i].id == updated.id ==> r[i] == updated) &&
                                          (items[i].id != updated.id ==> r[i] == items[i]))
    ensures (forall i :: 0 <= i < |items| ==> items[i].id != updated.id) ==> ReplaceItem(items, updated) == items
  {
  }

  /** Archiving and unarchiving set only the archive flag of the item with
      that id, change nothing for an absent id, and are idempotent. */
  lemma SetArchivedSpec(items: seq<RoadmapItem>, id: string, v: bool)
    ensures var r := SetArchived(items, id, v);
            |r| == |items| &&
            (forall i :: 0 <= i < |r| ==> (items[i].id == id ==> r[i] == items[i].(isArchived := v)) &&
                                          (items[i].id != id ==> r[i] == items[i]))
    ensures (forall i :: 0 <= i < |items| ==> items[i].id != id) ==> SetArchived(items, id, v) == items
    ensures SetArchived(SetArchived(items, id, v), id, v) == SetArchived(items, id, v)
    ensures (forall i :: 0 <= i < |items| && items[i].id == id ==> items[i].isArchived == !v) ==>
            SetArchived(SetArchived(items, id, v), id, !v) == items
  {
  }

  /** Toggling flips only the done flag of the item with that id, and
      toggling twice gives the original list back. */
  lemma ToggleDoneSpec(items: seq<RoadmapItem>, id: string)
    ensures var r := ToggleDone(items, id);
            |r| == |items| &&
            (forall i :: 0 <= i < |r| ==> (items[i].id == id ==> r[i] == items[i].(isDone := !items[i].isDone)) &&
                                          (items[i].id != id ==> r[i] == items[i]))
    ensures (forall i :: 0 <= i < |items| ==> items[i].id != id) ==> ToggleDone(items, id) == items
    ensures ToggleDone(ToggleDone(items, id), id) == items
  {
  }

  /** Deleting a project keeps exactly the projects with another id and
      the items of other projects, in order; no item of the deleted
      project is left. */
  lemma DeleteSpec(projects: seq<Project>, items: seq<RoadmapItem>, id: string)
    ensures forall p :: p in Filter((p: Project) => p.id != id, projects) <==> p in projects && p.id != id
    ensures forall x :: x in Filter((x: RoadmapItem) => x.projectId != id, items) <==> x in items && x.projectId != id
  {
    FilterMembers((p: Project) => p.id != id, projects);
    FilterMembers((x: RoadmapItem) => x.projectId != id, items);
  }

  // ---- The derived lists ----

  /** projects.find(p => p.id === selectedProjectId) || null. */
  function SelectedProject(projects: seq<Project>, selected: Option<string>): (r: Option<Project>)
    ensures selected.None? ==> r.None?
    ensures r.Some? ==> r.value in projects && Some(r.value.id) == selected
    ensures r.None? <==> forall i :: 0 <= i < |projects| ==> Some(projects[i].id) != selected
    ensures r.Some? ==> exists j :: 0 <= j < |projects| && projects[j] == r.value &&
                                    forall i :: 0 <= i < j ==> Some(projects[i].id) != selected
  {
    Find((p: Project) => Some(p.id) == selected, projects)
  }

  /** The selected project's items: archived ones included, order kept. */
  function ProjectRoadmapItems(items: seq<RoadmapItem>, selected: Option<string>): seq<RoadmapItem>
  {
    Filter((x: RoadmapItem) => Some(x.projectId) == selected, items)
  }

  lemma ProjectRoadmapItemsSpec(items: seq<RoadmapItem>, selected: Option<string>)
    ensures forall x :: x in ProjectRoadmapItems(items, selected) <==> x in items && Some(x.projectId) == selected
    ensures selected.None? ==> ProjectRoadmapItems(items, selected) == []
  {
    FilterMembers((x: RoadmapItem) => Some(x.projectId) == selected, items);
    if selected.None? {
      FilterNone((x: RoadmapItem) => Some(x.projectId) == selected, items);
    }
  }

  /** Newest first: the comparator (a, b) => b.createdAt - a.createdAt. */
  function NewestFirst(): (RoadmapItem, RoadmapItem) -> int
  {
    (a: RoadmapItem, b: RoadmapItem) => b.createdAt - a.createdAt
  }

  lemma NewestFirstConsistent()
    ensures Consistent(NewestFirst())
  {
    var cmp := NewestFirst();
    forall a, b, c | Between(cmp, a, b, c) ensures cmp(a, c) <= 0 {
    }
  }

  function Active(): RoadmapItem -> bool
  {
    (x: RoadmapItem) => !x.isArchived
  }

  /** The items not archived, newest first. */
  function ActiveNewestFirst(items: seq<RoadmapItem>): seq<RoadmapItem>
  {
    InsertionSort(Filter(Active(), items), NewestFirst())
  }

  /** The longest the feed gets. */
  const FeedLength: nat := 10

  /** The recent-ideas feed: the ten newest items not archived. */
  function RecentIdeas(items: seq<RoadmapItem>): seq<RoadmapItem>
  {
    Take(ActiveNewestFirst(items), FeedLength)
  }

  /** The feed holds at most ten items, none archived, each from the
      store, newest first; it is the start of the list of all items not
      archived, newest first, so nothing left out is newer. */
  lemma RecentIdeasSpec(items: seq<RoadmapItem>)
    ensures var r := RecentIdeas(items);
            |r| <= FeedLength && r <= ActiveNewestFirst(items) &&
            (forall i :: 0 <= i < |r| ==> !r[i].isArchived && r[i] in items) &&
            (forall i, j :: 0 <= i < j < |r| ==> r[i].createdAt >= r[j].createdAt)
    ensures forall x :: x in ActiveNewestFirst(items) <==> x in items && !x.isArchived
    ensures var all := ActiveNewestFirst(items);
            forall i, j :: 0 <= i < j < |all| ==> all[i].createdAt >= all[j].createdAt
  {
    var all := ActiveNewestFirst(items);
    var r := RecentIdeas(items);
    SortedFilter(Active(), items, NewestFirst());
    NewestFirstConsistent();
    SortSorted(Filter(Active(), items), NewestFirst());
    forall i | 0 <= i < |r| ensures !r[i].isArchived && r[i] in items {
      assert r[i] == all[i] && all[i] in all;
    }
  }

  /** Items created at the same time keep their store order in the feed. */
  lemma RecentIdeasStable(items: seq<RoadmapItem>, k: RoadmapItem)
    ensures Equivalents(ActiveNewestFirst(items), k, NewestFirst()) == Equivalents(Filter(Active(), items), k, NewestFirst())
  {
    NewestFirstConsistent();
    SortStable(Filter(Active(), items), k, NewestFirst());
  }

  /** On the seed data the feed is item-3, item-2, item-1. */
  lemma SeedFeed()
    ensures RecentIdeas(SeedItems) == [SeedItems[2], SeedItems[1], SeedItems[0]]
  {
    SeedActive();
    SeedOrder();
  }

  lemma SeedActive()
    ensures Filter(Active(), SeedItems) == [SeedItems[0], SeedItems[1], SeedItems[2]]
  {
    var s := SeedItems;
    assert s[1..][1..][1..][1..] == [];
  }

  lemma SeedOrder()
    ensures InsertionSort([SeedItems[0], SeedItems[1], SeedItems[2]], NewestFirst())
            == [SeedItems[2], SeedItems[1], SeedItems[0]]
  {
    var s := SeedItems;
    var cmp := NewestFirst();
    var f := [s[0], s[1], s[2]];
    assert f[..2] == [s[0], s[1]] && f[..2][..1] == [s[0]];
    assert InsertionSort([s[0]], cmp) == [s[0]];
    assert InsertionSort([s[0], s[1]], cmp) == Insert([s[0]], s[1], cmp) == [s[1], s[0]];
    assert Insert([s[1], s[0]], s[2], cmp) == [s[2], s[1], s[0]];
  }

  /** A project's items that are not archived. */
  function ActiveOf(id: string): RoadmapItem -> bool
  {
    (x: RoadmapItem) => x.projectId == id && !x.isArchived
  }

  /** The latest idea of a project: the head of its items not archived,
      newest first, or null when there is none. */
  function LatestIdea(items: seq<RoadmapItem>, project: Project): Option<RoadmapItem>
  {
    var sorted := InsertionSort(Filter(ActiveOf(project.id), items), NewestFirst());
    if sorted == [] then None else Some(sorted[0])
  }

  /** The latest idea is null exactly when the project has no item that is
      not archived; otherwise it is one of those items and none of them is
      newer. */
  lemma LatestIdeaSpec(items: seq<RoadmapItem>, project: Project)
    ensures LatestIdea(items, project).None? <==>
            forall x :: x in items ==> !(x.projectId == project.id && !x.isArchived)
    ensures var l := LatestIdea(items, project);
            l.Some? ==> l.value in items && l.value.projectId == project.id && !l.value.isArchived &&
                        forall x :: x in items && x.projectId == project.id && !x.isArchived ==> x.createdAt <= l.value.createdAt
  {
    var p := ActiveOf(project.id);
    var mine := Filter(p, items);
    var sorted := InsertionSort(mine, NewestFirst());
    SortedFilter(p, items, NewestFirst());
    FilterMembers(p, items);
    if sorted != [] {
      assert sorted[0] in sorted;
      LatestIsNewest(items, project);
    } else {
      forall x | x in items ensures !(x.projectId == project.id && !x.isArchived) {
      }
    }
  }

  lemma LatestIsNewest(items: seq<RoadmapItem>, project: Project)
    requires LatestIdea(items, project).Some?
    ensures forall x :: x in items && x.projectId == project.id && !x.isArchived ==>
                        x.createdAt <= LatestIdea(items, project).value.createdAt
  {
    var mine := Filter(ActiveOf(project.id), items);
    FilterMembers(ActiveOf(project.id), items);
    NewestHead(mine);
    forall x | x in items && x.projectId == project.id && !x.isArchived
      ensures x.createdAt <= LatestIdea(items, project).value.createdAt
    {
      var i :| 0 <= i < |mine| && mine[i] == x;
    }
  }

  /** Among the newest items of a project, the latest idea is the one that
      comes first in the store. */
  lemma LatestIsFirstOfNewest(items: seq<RoadmapItem>, project: Project)
    requires LatestIdea(items, project).Some?
    ensures exists j :: 0 <= j < |Filter(ActiveOf(project.id), items)| &&
                        Filter(ActiveOf(project.id), items)[j] == LatestIdea(items, project).value &&
                        forall i :: 0 <= i < j ==>
                          Filter(ActiveOf(project.id), items)[i].createdAt != LatestIdea(items, project).value.createdAt
  {
    var mine := Filter(ActiveOf(project.id), items);
    NewestHead(mine);
    assert LatestIdea(items, project).value == InsertionSort(mine, NewestFirst())[0];
  }

  /** The head of a list sorted newest first is at least as new as every
      element, and is the first of the newest in the list's order. */
  lemma NewestHead(s: seq<RoadmapItem>)
    requires s != []
    ensures var h := InsertionSort(s, NewestFirst())[0];
            (forall i :: 0 <= i < |s| ==> s[i].createdAt <= h.createdAt) &&
            exists j :: 0 <= j < |s| && s[j] == h && forall i :: 0 <= i < j ==> s[i].createdAt != h.createdAt
  {
    NewestFirstConsistent();
    SortHead(s, NewestFirst());
  }

  /** Every project, in order and unchanged, with its latest idea. */
  function ProjectsWithLatestIdea(projects: seq<Project>, items: seq<RoadmapItem>): (r: seq<ProjectWithLatest>)
    ensures |r| == |projects|
    ensures forall i :: 0 <= i < |r| ==> r[i].project == projects[i] && r[i].latestIdea == LatestIdea(items, projects[i])
  {
    seq(|projects|, i requires 0 <= i < |projects| => ProjectWithLatest(projects[i], LatestIdea(items, projects[i])))
  }

  /** What the main area shows. */
  datatype Screen =
    | ProjectScreen(project: Project, items: seq<RoadmapItem>)
    | DashboardScreen(cards: seq<ProjectWithLatest>)
    | FeedScreen(ideas: seq<RoadmapItem>, allProjects: seq<Project>)

  /** A selected project that exists wins over the active view. */
  function Content(projects: seq<Project>, items: seq<RoadmapItem>, selected: Option<string>, view: ActiveView): (r: Screen)
    ensures r.ProjectScreen? <==> SelectedProject(projects, selected).Some?
    ensures r.ProjectScreen? ==> r.project == SelectedProject(projects, selected).value &&
                                 r.items == ProjectRoadmapItems(items, selected)
    ensures r.DashboardScreen? <==> SelectedProject(projects, selected).None? && view == ProjectsView
    ensures r.FeedScreen? ==> r.ideas == RecentIdeas(items) && r.allProjects == projects
    ensures r.DashboardScreen? ==> r.cards == ProjectsWithLatestIdea(projects, items)
  {
    match SelectedProject(projects, selected)
    case Some(p) => ProjectScreen(p, ProjectRoadmapItems(items, selected))
    case None =>
      match view
      case ProjectsView => DashboardScreen(ProjectsWithLatestIdea(projects, items))
      case RecentView => FeedScreen(RecentIdeas(items), projects)
  }

  /** The store. Ids are meant to be unique; the store keeps them so. */
  class Store {
    var projects: seq<Project>
    var roadmapItems: seq<RoadmapItem>
    var selectedProjectId: Option<string>
    var activeView: ActiveView

    ghost predicate Valid()
      reads this
    {
      Unique(ProjectId, projects) && Unique(ItemId, roadmapItems)
    }

    /** The store starts from the seed data, nothing selected, on the
        project dashboard. */
    constructor()
      ensures projects == SeedProjects && roadmapItems == SeedItems
      ensures selectedProjectId == None && activeView == ProjectsView
      ensures Valid()
    {
      projects := SeedProjects;
      roadmapItems := SeedItems;
      selectedProjectId := None;
      activeView := ProjectsView;
    }

    /** What the main area shows. */
    function Render(): Screen
      reads this
    {
      Content(projects, roadmapItems, selectedProjectId, activeView)
    }

    /** Choosing a sidebar view clears the selection. */
    method SelectView(view: ActiveView)
      modifies this
      ensures selectedProjectId == None && activeView == view
      ensures projects == old(projects) && roadmapItems == old(roadmapItems)
    {
      selectedProjectId := None;
      activeView := view;
    }

    method SelectProject(id: Option<string>)
      modifies this
      ensures selectedProjectId == id
      ensures projects == old(projects) && roadmapItems == old(roadmapItems) && activeView == old(activeView)
    {
      selectedProjectId := id;
    }

    /** Adds a project at the end, selects it and shows the dashboard
        view. `id` and `createdAt` stand for the clock-derived values. */
    method AddProject(data: ProjectData, id: string, createdAt: Instant)
      requires Valid() && forall i :: 0 <= i < |projects| ==> projects[i].id != id
      modifies this
      ensures projects == old(projects) + [NewProject(data, id, createdAt)]
      ensures selectedProjectId == Some(id) && activeView == ProjectsView
      ensures roadmapItems == old(roadmapItems)
      ensures Valid()
    {
      UniqueAppend(ProjectId, projects, NewProject(data, id, createdAt));
      projects := projects + [NewProject(data, id, createdAt)];
      selectedProjectId := Some(id);
      activeView := ProjectsView;
    }

    /** Edits the selected project. */
    method UpdateProject(data: ProjectData)
      requires Valid()
      modifies this
      ensures projects == UpdateSelected(old(projects), old(selectedProjectId), data)
      ensures roadmapItems == old(roadmapItems) && selectedProjectId == old(selectedProjectId) && activeView == old(activeView)
      ensures Valid()
    {
      projects := UpdateSelected(projects, selectedProjectId, data);
    }

    /** Deletes a project and its items; a selection of it is cleared. */
    method DeleteProject(id: string)
      requires Valid()
      modifies this
      ensures projects == Filter((p: Project) => p.id != id, old(projects))
      ensures roadmapItems == Filter((x: RoadmapItem) => x.projectId != id, old(roadmapItems))
      ensures selectedProjectId == if old(selectedProjectId) == Some(id) then None else old(selectedProjectId)
      ensures activeView == old(activeView)
      ensures Valid()
    {
      UniqueFilter(ProjectId, (p: Project) => p.id != id, projects);
      UniqueFilter(ItemId, (x: RoadmapItem) => x.projectId != id, roadmapItems);
      projects := Filter((p: Project) => p.id != id, projects);
      roadmapItems := Filter((x: RoadmapItem) => x.projectId != id, roadmapItems);
      if selectedProjectId == Some(id) {
        selectedProjectId := None;
      }
    }

    /** Adds an item at the end, neither done nor archived. */
    method AddRoadmapItem(draft: ItemDraft, id: string, createdAt: Instant)
      requires Valid() && forall i :: 0 <= i < |roadmapItems| ==> roadmapItems[i].id != id
      modifies this
      ensures roadmapItems == old(roadmapItems) + [NewItem(draft, id, createdAt)]
      ensures projects == old(projects) && selectedProjectId == old(selectedProjectId) && activeView == old(activeView)
      ensures Valid()
    {
      UniqueAppend(ItemId, roadmapItems, NewItem(draft, id, createdAt));
      roadmapItems := roadmapItems + [NewItem(draft, id, createdAt)];
    }

    method UpdateRoadmapItem(updated: RoadmapItem)
      requires Valid()
      modifies this
      ensures roadmapItems == ReplaceItem(old(roadmapItems), updated)
      ensures projects == old(projects) && selectedProjectId == old(selectedProjectId) && activeView == old(activeView)
      ensures Valid()
    {
      roadmapItems := ReplaceItem(roadmapItems, updated);
    }

    method ArchiveRoadmapItem(id: string)
      requires Valid()
      modifies this
      ensures roadmapItems == SetArchived(old(roadmapItems), id, true)
      ensures projects == old(projects) && selectedProjectId == old(selectedProjectId) && activeView == old(activeView)
      ensures Valid()
    {
      roadmapItems := SetArchived(roadmapItems, id, true);
    }

    method UnarchiveRoadmapItem(id: string)
      requires Valid()
      modifies this
      ensures roadmapItems == SetArchived(old(roadmapItems), id, false)
      ensures projects == old(projects) && selectedProjectId == old(selectedProjectId) && activeView == old(activeView)
      ensures Valid()
    {
      roadmapItems := SetArchived(roadmapItems, id, false);
    }

    method ToggleItemDone(id: string)
      requires Valid()
      modifies this
      ensures roadmapItems == ToggleDone(old(roadmapItems), id)
      ensures projects == old(projects) && selectedProjectId == old(selectedProjectId) && activeView == old(activeView)
      ensures Valid()
    {
      roadmapItems := ToggleDone(roadmapItems, id);
    }
  }
}
