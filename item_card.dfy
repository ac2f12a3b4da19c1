/** A roadmap item's card: its overdue flag, the buttons it offers and its
    description, cut to a summary and rendered line by line. */
module ItemCard {
  import opened Types
  import opened Strings
  import opened Markup

  /** An item is overdue when it has a due date, is not done, and the
      date string sorts before today's "YYYY-MM-DD". */
  predicate IsOverdue(item: RoadmapItem, today: string)
  {
    HasDueDate(item) && !item.isDone && Less(item.dueDate.value, today)
  }

  /** Only an item with a due date that is not done can be overdue, and it
      is not overdue on its due date itself. */
  lemma OverdueNeedsDate(item: RoadmapItem, today: string)
    ensures IsOverdue(item, today) ==> HasDueDate(item) && !item.isDone && item.dueDate.value != today
    ensures item.isDone || !HasDueDate(item) ==> !IsOverdue(item, today)
  {
    if HasDueDate(item) {
      LessIrreflexive(today);
    }
  }

  /** Once overdue, an item stays overdue on every later day. */
  lemma OverdueStays(item: RoadmapItem, today: string, later: string)
    requires IsOverdue(item, today) && Less(today, later)
    ensures IsOverdue(item, later)
  {
    LessTransitive(item.dueDate.value, today, later);
  }

  /** Of two items with due dates and not done, the one due first is
      overdue whenever the other is. */
  lemma EarlierDueFirst(a: RoadmapItem, b: RoadmapItem, today: string)
    requires HasDueDate(a) && !a.isDone && IsOverdue(b, today)
    requires Less(a.dueDate.value, b.dueDate.value)
    ensures IsOverdue(a, today)
  {
    LessTransitive(a.dueDate.value, b.dueDate.value, today);
  }

  /** The card's buttons. */
  datatype Action = ToggleDoneAction | EditAction | ArchiveAction | UnarchiveAction

  /** An archived card offers only unarchiving; any other card offers
      marking done, editing and archiving, in that order. */
  function Actions(item: RoadmapItem): (r: seq<Action>)
    ensures UnarchiveAction in r <==> item.isArchived
    ensures ArchiveAction in r <==> !item.isArchived
    ensures EditAction in r <==> !item.isArchived
    ensures ToggleDoneAction in r <==> !item.isArchived
    ensures |r| == if item.isArchived then 1 else 3
    ensures !item.isArchived ==> r[0] == ToggleDoneAction && r[1] == EditAction && r[2] == ArchiveAction
  {
    if item.isArchived then [UnarchiveAction] else [ToggleDoneAction, EditAction, ArchiveAction]
  }

  /** The calendar badge: shown for an item with a due date, in red when
      it is overdue. */
  function DueBadge(item: RoadmapItem, today: string): (r: Option<bool>)
    ensures r.Some? <==> HasDueDate(item)
    ensures r.Some? ==> (r.value <==> !item.isDone && Less(item.dueDate.value, today))
  {
    if HasDueDate(item) then Some(IsOverdue(item, today)) else None
  }

  /** The card's renderMarkdown: the summary cut of the description, one
      block per line. */
  function CardMarkup(description: string): seq<Block>
  {
    RenderLines(Truncate(description))
  }

  /** The description block: present only for a non-empty description. */
  function CardDescription(item: RoadmapItem): (r: Option<seq<Block>>)
    ensures r.Some? <==> item.description != ""
    ensures r.Some? ==> r.value == CardMarkup(item.description)
  {
    if item.description != "" then Some(CardMarkup(item.description)) else None
  }

  /** The card shows the summary cut of the description and nothing else:
      its lines join back to the cut text, which keeps the first 150
      characters, and a short description is rendered whole. */
  lemma CardMarkupCovers(description: string)
    ensures Join(Split(Truncate(description), '\n'), '\n') == Truncate(description)
    ensures |CardMarkup(description)| == |Split(Truncate(description), '\n')|
    ensures |description| <= SummaryLimit ==> CardMarkup(description) == RenderLines(description)
    ensures |description| > SummaryLimit ==> Truncate(description)[..SummaryLimit] == description[..SummaryLimit]
  {
    RenderedLinesCoverText(Truncate(description));
  }
}
