/** The per-project view: which of the project's items are listed and in
    what order, how the item form's data is merged into an item, and the
    editor state (which item is being edited, which dialog is open). */
module ProjectView {
  import opened Types
  import opened Strings
  import opened Lists
  import opened Sorting

  /** The selector above the list: 'All', one item type, or 'Archived'. */
  datatype ItemFilter = All | OfType(kind: ItemType) | Archived

  /** The sort menu; ByDate is the initial choice and the fallback. */
  datatype SortOption = ByDate | ByPriority | ByName | ByDueDate

  /** An item is listed when it matches the search and the selector:
      'Archived' takes archived items of any type, every other selector
      takes items not archived, of the selected type unless 'All'. */
  predicate Shown(host: Host, filter: ItemFilter, term: string, item: RoadmapItem)
  {
    MatchesTerm(host.lower, item.title, item.description, term) &&
    (if filter == Archived then item.isArchived
     else !item.isArchived && (filter == All || filter == OfType(item.itemType)))
  }

  function Selection(host: Host, filter: ItemFilter, term: string): RoadmapItem -> bool
  {
    (item: RoadmapItem) => Shown(host, filter, term, item)
  }

  /** The due-date key: dated items first, earliest date first; two
      undated items tie. */
  function DueCompare(host: Host, a: RoadmapItem, b: RoadmapItem): int
  {
    if !HasDueDate(a) && !HasDueDate(b) then 0
    else if !HasDueDate(a) then 1
    else if !HasDueDate(b) then -1
    else host.dateValue(a.dueDate.value) - host.dateValue(b.dueDate.value)
  }

  /** The chosen key: priority rank descending, title by localeCompare,
      due date ascending, or creation time newest first. */
  function KeyCompare(host: Host, sortBy: SortOption, a: RoadmapItem, b: RoadmapItem): int
  {
    match sortBy
    case ByPriority => Rank(b.priority) - Rank(a.priority)
    case ByName => host.localeCompare(a.title, b.title)
    case ByDueDate => DueCompare(host, a, b)
    case ByDate => b.createdAt - a.createdAt
  }

  /** The comparator: items not done before done ones, then pinned before
      unpinned, then the chosen key. */
  function Compare(host: Host, sortBy: SortOption, a: RoadmapItem, b: RoadmapItem): int
  {
    if a.isDone != b.isDone then (if a.isDone then 1 else -1)
    else if a.isPinned != b.isPinned then (if a.isPinned then -1 else 1)
    else KeyCompare(host, sortBy, a, b)
  }

  function Order(host: Host, sortBy: SortOption): (RoadmapItem, RoadmapItem) -> int
  {
    (a: RoadmapItem, b: RoadmapItem) => Compare(host, sortBy, a, b)
  }

  /** Two items the done and pin rules do not tell apart. */
  predicate SameGroup(a: RoadmapItem, b: RoadmapItem)
  {
    a.isDone == b.isDone && a.isPinned == b.isPinned
  }

  /** The list the view shows. */
  function FilteredAndSortedItems(host: Host, items: seq<RoadmapItem>, filter: ItemFilter, term: string, sortBy: SortOption): seq<RoadmapItem>
  {
    InsertionSort(Filter(Selection(host, filter, term), items), Order(host, sortBy))
  }

  /** What the order needs of the host: a consistent localeCompare when
      the list is sorted by name. */
  ghost predicate HostOrders(host: Host, sortBy: SortOption)
  {
    sortBy == ByName ==> Consistent(host.localeCompare)
  }

  lemma KeyFlips(host: Host, sortBy: SortOption, a: RoadmapItem, b: RoadmapItem)
    requires HostOrders(host, sortBy)
    ensures KeyCompare(host, sortBy, a, b) < 0 <==> KeyCompare(host, sortBy, b, a) > 0
  {
  }

  lemma KeyTransitive(host: Host, sortBy: SortOption, a: RoadmapItem, b: RoadmapItem, c: RoadmapItem)
    requires HostOrders(host, sortBy)
    requires KeyCompare(host, sortBy, a, b) <= 0 && KeyCompare(host, sortBy, b, c) <= 0
    ensures KeyCompare(host, sortBy, a, c) <= 0
  {
    if sortBy == ByName {
      Transitive(host.localeCompare, a.title, b.title, c.title);
    }
  }

  lemma CompareTransitive(host: Host, sortBy: SortOption, a: RoadmapItem, b: RoadmapItem, c: RoadmapItem)
    requires HostOrders(host, sortBy)
    requires Compare(host, sortBy, a, b) <= 0 && Compare(host, sortBy, b, c) <= 0
    ensures Compare(host, sortBy, a, c) <= 0
  {
    if SameGroup(a, c) {
      assert SameGroup(a, b) && SameGroup(b, c);
      KeyTransitive(host, sortBy, a, b, c);
    }
  }

  /** The comparator is consistent, so the sort is well defined. */
  lemma OrderConsistent(host: Host, sortBy: SortOption)
    requires HostOrders(host, sortBy)
    ensures Consistent(Order(host, sortBy))
  {
    var cmp := Order(host, sortBy);
    forall a, b ensures cmp(a, b) < 0 <==> cmp(b, a) > 0 {
      KeyFlips(host, sortBy, a, b);
    }
    forall a, b, c | Between(cmp, a, b, c) ensures cmp(a, c) <= 0 {
      CompareTransitive(host, sortBy, a, b, c);
    }
  }

  /** The list is a reordering of the items that pass the search and the
      selector: each such item as often as in the input, no other item. */
  lemma ListedItems(host: Host, items: seq<RoadmapItem>, filter: ItemFilter, term: string, sortBy: SortOption)
    ensures var r := FilteredAndSortedItems(host, items, filter, term, sortBy);
            forall x :: x in r <==> x in items && Shown(host, filter, term, x)
    ensures var r := FilteredAndSortedItems(host, items, filter, term, sortBy);
            forall x :: multiset(r)[x] == if Shown(host, filter, term, x) then multiset(items)[x] else 0
  {
    SortedFilter(Selection(host, filter, term), items, Order(host, sortBy));
  }

  /** 'Archived' lists archived items only, whatever their type. */
  lemma ArchivedSelector(host: Host, items: seq<RoadmapItem>, term: string, sortBy: SortOption)
    ensures var r := FilteredAndSortedItems(host, items, Archived, term, sortBy);
            forall i :: 0 <= i < |r| ==> r[i].isArchived
  {
    var r := FilteredAndSortedItems(host, items, Archived, term, sortBy);
    ListedItems(host, items, Archived, term, sortBy);
    forall i | 0 <= i < |r| ensures r[i].isArchived {
      assert r[i] in r;
    }
  }

  /** Every other selector drops archived items, and a type selector keeps
      that type only. */
  lemma OtherSelectors(host: Host, items: seq<RoadmapItem>, filter: ItemFilter, term: string, sortBy: SortOption)
    requires filter != Archived
    ensures var r := FilteredAndSortedItems(host, items, filter, term, sortBy);
            forall i :: 0 <= i < |r| ==> !r[i].isArchived && (filter.OfType? ==> r[i].itemType == filter.kind)
  {
    var r := FilteredAndSortedItems(host, items, filter, term, sortBy);
    ListedItems(host, items, filter, term, sortBy);
    forall i | 0 <= i < |r| ensures !r[i].isArchived && (filter.OfType? ==> r[i].itemType == filter.kind) {
      assert r[i] in r;
    }
  }

  /** With an empty search, 'All' lists exactly the items not archived. */
  lemma EmptySearchListsAll(host: Host, items: seq<RoadmapItem>, sortBy: SortOption)
    requires host.lower("") == ""
    ensures var r := FilteredAndSortedItems(host, items, All, "", sortBy);
            forall x :: x in r <==> x in items && !x.isArchived
  {
    ListedItems(host, items, All, "", sortBy);
    forall x ensures Shown(host, All, "", x) <==> !x.isArchived {
      EmptyTermMatches(host.lower, x.title, x.description);
    }
  }

  /** The list is sorted by the comparator. */
  lemma ListSorted(host: Host, items: seq<RoadmapItem>, filter: ItemFilter, term: string, sortBy: SortOption)
    requires HostOrders(host, sortBy)
    ensures Sorted(FilteredAndSortedItems(host, items, filter, term, sortBy), Order(host, sortBy))
  {
    OrderConsistent(host, sortBy);
    SortSorted(Filter(Selection(host, filter, term), items), Order(host, sortBy));
  }

  /** Every item not done comes before every done item; among items with
      the same done status, pinned ones come first. */
  lemma DoneLastPinnedFirst(host: Host, items: seq<RoadmapItem>, filter: ItemFilter, term: string, sortBy: SortOption)
    requires HostOrders(host, sortBy)
    ensures var r := FilteredAndSortedItems(host, items, filter, term, sortBy);
            forall i, j :: 0 <= i < j < |r| ==> (r[i].isDone ==> r[j].isDone)
    ensures var r := FilteredAndSortedItems(host, items, filter, term, sortBy);
            forall i, j :: 0 <= i < j < |r| && r[i].isDone == r[j].isDone ==> (r[j].isPinned ==> r[i].isPinned)
  {
    ListSorted(host, items, filter, term, sortBy);
  }

  /** Within a group of equal done and pin status the chosen key orders
      the list. */
  lemma KeyOrdersGroups(host: Host, items: seq<RoadmapItem>, filter: ItemFilter, term: string, sortBy: SortOption)
    requires HostOrders(host, sortBy)
    ensures var r := FilteredAndSortedItems(host, items, filter, term, sortBy);
            forall i, j :: 0 <= i < j < |r| && SameGroup(r[i], r[j]) ==> KeyCompare(host, sortBy, r[i], r[j]) <= 0
  {
    ListSorted(host, items, filter, term, sortBy);
  }

  /** By priority: Urgent, High, Medium, Low within each group. */
  lemma PriorityOrder(host: Host, items: seq<RoadmapItem>, filter: ItemFilter, term: string)
    ensures var r := FilteredAndSortedItems(host, items, filter, term, ByPriority);
            forall i, j :: 0 <= i < j < |r| && SameGroup(r[i], r[j]) ==> Rank(r[i].priority) >= Rank(r[j].priority)
  {
    KeyOrdersGroups(host, items, filter, term, ByPriority);
  }

  /** By name: titles ascending by localeCompare within each group. */
  lemma NameOrder(host: Host, items: seq<RoadmapItem>, filter: ItemFilter, term: string)
    requires Consistent(host.localeCompare)
    ensures var r := FilteredAndSortedItems(host, items, filter, term, ByName);
            forall i, j :: 0 <= i < j < |r| && SameGroup(r[i], r[j]) ==> host.localeCompare(r[i].title, r[j].title) <= 0
  {
    KeyOrdersGroups(host, items, filter, term, ByName);
  }

  /** By date: newest first within each group. */
  lemma DateOrder(host: Host, items: seq<RoadmapItem>, filter: ItemFilter, term: string)
    ensures var r := FilteredAndSortedItems(host, items, filter, term, ByDate);
            forall i, j :: 0 <= i < j < |r| && SameGroup(r[i], r[j]) ==> r[i].createdAt >= r[j].createdAt
  {
    KeyOrdersGroups(host, items, filter, term, ByDate);
  }

  /** By due date: within each group, dated items come before undated
      ones, and dated ones are in ascending date order. */
  lemma DueDateOrder(host: Host, items: seq<RoadmapItem>, filter: ItemFilter, term: string)
    ensures var r := FilteredAndSortedItems(host, items, filter, term, ByDueDate);
            forall i, j :: 0 <= i < j < |r| && SameGroup(r[i], r[j]) ==>
              (HasDueDate(r[j]) ==> HasDueDate(r[i])) &&
              (HasDueDate(r[i]) && HasDueDate(r[j]) ==> host.dateValue(r[i].dueDate.value) <= host.dateValue(r[j].dueDate.value))
  {
    KeyOrdersGroups(host, items, filter, term, ByDueDate);
  }

  /** Items the comparator ties keep their input order: for every k, the
      items tying with k are listed in the order they were given. */
  lemma TiesKeepOrder(host: Host, items: seq<RoadmapItem>, filter: ItemFilter, term: string, sortBy: SortOption, k: RoadmapItem)
    requires HostOrders(host, sortBy)
    ensures Equivalents(FilteredAndSortedItems(host, items, filter, term, sortBy), k, Order(host, sortBy)) ==
            Equivalents(Filter(Selection(host, filter, term), items), k, Order(host, sortBy))
  {
    OrderConsistent(host, sortBy);
    SortStable(Filter(Selection(host, filter, term), items), k, Order(host, sortBy));
  }

  /** The pin outranks priority: a pinned Medium item not done is listed
      before an unpinned High item not done, whichever came first. */
  lemma PinBeatsPriority(host: Host, a: RoadmapItem, b: RoadmapItem)
    requires a.isPinned && !b.isPinned && !a.isDone && !b.isDone
    requires a.priority == Medium && b.priority == High
    ensures InsertionSort([b, a], Order(host, ByPriority)) == [a, b]
    ensures InsertionSort([a, b], Order(host, ByPriority)) == [a, b]
  {
    assert [b, a][..1] == [b];
    assert [a, b][..1] == [a];
  }

  /** Saving an edit: the item keeps its id, creation time, project and
      done and archive flags, and takes every field the form supplies. */
  function MergeEdit(editing: RoadmapItem, data: ItemFormData): (r: RoadmapItem)
    ensures r.id == editing.id && r.createdAt == editing.createdAt && r.projectId == editing.projectId
    ensures r.isDone == editing.isDone && r.isArchived == editing.isArchived
    ensures r.title == data.title && r.description == data.description && r.itemType == data.itemType
    ensures r.priority == data.priority && r.isPinned == data.isPinned && r.dueDate == data.dueDate
  {
    editing.(title := data.title, description := data.description, itemType := data.itemType,
             priority := data.priority, isPinned := data.isPinned, dueDate := data.dueDate)
  }

  /** Saving a new item: the form's fields, in the current project. */
  function NewDraft(project: Project, data: ItemFormData): (r: ItemDraft)
    ensures r.projectId == project.id
    ensures r.title == data.title && r.description == data.description && r.itemType == data.itemType
    ensures r.priority == data.priority && r.isPinned == data.isPinned && r.dueDate == data.dueDate
  {
    ItemDraft(project.id, data.itemType, data.title, data.description, data.priority, data.isPinned, data.dueDate)
  }

  /** What a submitted item form asks the store to do. */
  datatype ItemRequest = UpdateItem(item: RoadmapItem) | AddItem(draft: ItemDraft)

  /** The view's own state: the selector, the search box, the sort menu,
      the two dialogs and the item being edited. */
  class ProjectViewState {
    var filter: ItemFilter
    var searchTerm: string
    var sortBy: SortOption
    var isItemModalOpen: bool
    var isProjectModalOpen: bool
    var editingItem: Option<RoadmapItem>

    constructor()
      ensures filter == All && searchTerm == "" && sortBy == ByDate
      ensures !isItemModalOpen && !isProjectModalOpen && editingItem == None
    {
      filter := All;
      searchTerm := "";
      sortBy := ByDate;
      isItemModalOpen := false;
      isProjectModalOpen := false;
      editingItem := None;
    }

    /** The list shown for the project's items. */
    function Items(host: Host, roadmapItems: seq<RoadmapItem>): seq<RoadmapItem>
      reads this
    {
      FilteredAndSortedItems(host, roadmapItems, filter, searchTerm, sortBy)
    }

    /** Opens the item dialog, for the given item or (None) a new one. */
    method OpenItemModal(item: Option<RoadmapItem>)
      modifies this
      ensures editingItem == item && isItemModalOpen
      ensures filter == old(filter) && searchTerm == old(searchTerm) && sortBy == old(sortBy)
      ensures isProjectModalOpen == old(isProjectModalOpen)
    {
      editingItem := item;
      isItemModalOpen := true;
    }

    method CloseItemModal()
      modifies this
      ensures !isItemModalOpen && editingItem == None
      ensures filter == old(filter) && searchTerm == old(searchTerm) && sortBy == old(sortBy)
      ensures isProjectModalOpen == old(isProjectModalOpen)
    {
      isItemModalOpen := false;
      editingItem := None;
    }

    /** A selector button picks the filter. */
    method SetFilter(f: ItemFilter)
      modifies this
      ensures filter == f && searchTerm == old(searchTerm) && sortBy == old(sortBy)
      ensures isItemModalOpen == old(isItemModalOpen) && isProjectModalOpen == old(isProjectModalOpen)
      ensures editingItem == old(editingItem)
    {
      filter := f;
    }

    /** Typing in the search box sets the term. */
    method SetSearchTerm(term: string)
      modifies this
      ensures searchTerm == term && filter == old(filter) && sortBy == old(sortBy)
      ensures isItemModalOpen == old(isItemModalOpen) && isProjectModalOpen == old(isProjectModalOpen)
      ensures editingItem == old(editingItem)
    {
      searchTerm := term;
    }

    /** The sort menu picks the order. */
    method SetSortBy(s: SortOption)
      modifies this
      ensures sortBy == s && filter == old(filter) && searchTerm == old(searchTerm)
      ensures isItemModalOpen == old(isItemModalOpen) && isProjectModalOpen == old(isProjectModalOpen)
      ensures editingItem == old(editingItem)
    {
      sortBy := s;
    }

    /** The edit-project button opens the project dialog. */
    method OpenProjectModal()
      modifies this
      ensures isProjectModalOpen
      ensures filter == old(filter) && searchTerm == old(searchTerm) && sortBy == old(sortBy)
      ensures isItemModalOpen == old(isItemModalOpen) && editingItem == old(editingItem)
    {
      isProjectModalOpen := true;
    }

    /** Closing or cancelling the project dialog. */
    method CloseProjectModal()
      modifies this
      ensures !isProjectModalOpen
      ensures filter == old(filter) && searchTerm == old(searchTerm) && sortBy == old(sortBy)
      ensures isItemModalOpen == old(isItemModalOpen) && editingItem == old(editingItem)
    {
      isProjectModalOpen := false;
    }

    /** The item form was submitted: an edit becomes an update of the
      edited item, otherwise a new item of this project; the dialog closes. */
    method SubmitItemForm(project: Project, data: ItemFormData) returns (request: ItemRequest)
      modifies this
      ensures old(editingItem).Some? ==> request == UpdateItem(MergeEdit(old(editingItem).value, data))
      ensures old(editingItem).None? ==> request == AddItem(NewDraft(project, data))
      ensures !isItemModalOpen && editingItem == None
      ensures filter == old(filter) && searchTerm == old(searchTerm) && sortBy == old(sortBy)
      ensures isProjectModalOpen == old(isProjectModalOpen)
    {
      if editingItem.Some? {
        request := UpdateItem(MergeEdit(editingItem.value, data));
      } else {
        request := AddItem(NewDraft(project, data));
      }
      CloseItemModal();
    }

    /** The project form was submitted: its data goes to the store's
        update handler and the dialog closes. */
    method SubmitProjectForm(data: ProjectData) returns (update: ProjectData)
      modifies this
      ensures update == data && !isProjectModalOpen
      ensures filter == old(filter) && searchTerm == old(searchTerm) && sortBy == old(sortBy)
      ensures isItemModalOpen == old(isItemModalOpen) && editingItem == old(editingItem)
    {
      update := data;
      isProjectModalOpen := false;
    }

    /** Deleting asks for confirmation; only a confirmed request names the
        project to delete. */
    method ConfirmDelete(project: Project, confirmed: bool) returns (delete: Option<string>)
      ensures delete.Some? <==> confirmed
      ensures delete.Some? ==> delete.value == project.id
    {
      if confirmed {
        delete := Some(project.id);
      } else {
        delete := None;
      }
    }
  }
}
