/** The project dashboard: the project search, the one-line summary of a
    project's latest idea, and the add-project dialog. */
module Dashboard {
  import opened Types
  import opened Strings
  import opened Lists
  import opened Pattern
  import opened Markup

  /** A project card matches the search when its title or description
      contains the term, case-insensitively. */
  function CardMatches(lower: string -> string, term: string): ProjectWithLatest -> bool
  {
    (c: ProjectWithLatest) => MatchesTerm(lower, c.project.title, c.project.description, term)
  }

  /** The cards shown for a search term, in the store's order. */
  function FilteredProjects(lower: string -> string, cards: seq<ProjectWithLatest>, term: string): seq<ProjectWithLatest>
  {
    Filter(CardMatches(lower, term), cards)
  }

  /** A card is shown exactly when it matches, as often as it occurs, and
      the shown cards keep their relative order. */
  lemma FilteredProjectsSpec(lower: string -> string, cards: seq<ProjectWithLatest>, term: string)
    ensures forall c :: c in FilteredProjects(lower, cards, term) <==>
                        c in cards && MatchesTerm(lower, c.project.title, c.project.description, term)
    ensures forall c :: multiset(FilteredProjects(lower, cards, term))[c] ==
                        if MatchesTerm(lower, c.project.title, c.project.description, term) then multiset(cards)[c] else 0
  {
    FilterMembers(CardMatches(lower, term), cards);
    FilterCount(CardMatches(lower, term), cards);
  }

  /** Searching splits over the two halves of a list, so the order of the
      cards is kept. */
  lemma FilteredProjectsKeepOrder(lower: string -> string, a: seq<ProjectWithLatest>, b: seq<ProjectWithLatest>, term: string)
    ensures FilteredProjects(lower, a + b, term) == FilteredProjects(lower, a, term) + FilteredProjects(lower, b, term)
  {
    FilterAppend(CardMatches(lower, term), a, b);
  }

  /** The empty search term shows every card. */
  lemma EmptySearchShowsAll(lower: string -> string, cards: seq<ProjectWithLatest>)
    requires lower("") == ""
    ensures FilteredProjects(lower, cards, "") == cards
  {
    forall i | 0 <= i < |cards| ensures CardMatches(lower, "")(cards[i]) {
      EmptyTermMatches(lower, cards[i].project.title, cards[i].project.description);
    }
    FilterAll(CardMatches(lower, ""), cards);
  }

  /** The text the dashboard summary scans: cut to 150 characters and
      "...", with every line feed turned into a space. */
  function Flatten(text: string): (r: string)
    ensures '\n' !in r
    ensures |r| == if |text| > SummaryLimit then SummaryLimit + 3 else |text|
    ensures forall i :: 0 <= i < |r| && i < SummaryLimit ==> r[i] == if text[i] == '\n' then ' ' else text[i]
    ensures |text| > SummaryLimit ==> r[SummaryLimit..] == "..."
  {
    var r := ReplaceAll(Truncate(text), '\n', ' ');
    assert forall i :: 0 <= i < |r| ==> r[i] != '\n';
    r
  }

  /** A short text without line feeds is scanned as it is. */
  lemma FlattenKeepsShortLines(text: string)
    requires |text| <= SummaryLimit && '\n' !in text
    ensures Flatten(text) == text
  {
  }

  /** The dashboard's renderMarkdown: the flattened text's parts. */
  function SummaryParts(text: string): seq<Token>
  {
    Parts(Flatten(text))
  }

  method RenderSummary(text: string) returns (parts: seq<Token>)
    ensures parts == SummaryParts(text)
  {
    parts := RenderParts(Flatten(text));
  }

  /** The summary keeps the whole flattened text: the pieces it is cut
      into join back to it. */
  lemma SummaryCoversText(text: string)
    ensures Unparse(PiecesFrom(Flatten(text), 0, Matcher(Flatten(text)))) == Flatten(text)
  {
    MatcherSound(Flatten(text));
    PiecesRoundTrip(Flatten(text), 0, Matcher(Flatten(text)));
  }

  /** A short one-line summary without markup is shown as one plain part. */
  lemma PlainSummary(text: string)
    requires |text| <= SummaryLimit && text != ""
    requires forall m :: 0 <= m < |text| ==> text[m] != '*' && text[m] != '[' && text[m] != '\n'
    ensures SummaryParts(text) == [Text(text)]
  {
    FlattenKeepsShortLines(text);
    PlainTextPassesThrough(text);
  }

  /** The foot of a project card. */
  datatype Footer =
    | NoIdeasYet
    | LatestUpdate(isPinned: bool, itemType: ItemType, priority: Priority, title: string,
                   summary: Option<seq<Token>>)

  /** Without a latest idea the card says so; with one it shows its pin,
      type, priority and title, and a summary only when the idea has a
      description. */
  function CardFooter(card: ProjectWithLatest): (r: Footer)
    ensures r.NoIdeasYet? <==> card.latestIdea.None?
    ensures r.LatestUpdate? ==>
              var idea := card.latestIdea.value;
              r.isPinned == idea.isPinned && r.itemType == idea.itemType &&
              r.priority == idea.priority && r.title == idea.title &&
              (r.summary.Some? <==> idea.description != "") &&
              (r.summary.Some? ==> r.summary.value == SummaryParts(idea.description))
  {
    match card.latestIdea
    case None => NoIdeasYet
    case Some(idea) =>
      LatestUpdate(idea.isPinned, idea.itemType, idea.priority, idea.title,
                   if idea.description != "" then Some(SummaryParts(idea.description)) else None)
  }

  /** The dashboard's own state: the search box and the add dialog. */
  class DashboardState {
    var searchTerm: string
    var isModalOpen: bool

    constructor()
      ensures searchTerm == "" && !isModalOpen
    {
      searchTerm := "";
      isModalOpen := false;
    }

    /** The cards shown. */
    function Shown(lower: string -> string, cards: seq<ProjectWithLatest>): seq<ProjectWithLatest>
      reads this
    {
      FilteredProjects(lower, cards, searchTerm)
    }

    method SetSearchTerm(term: string)
      modifies this
      ensures searchTerm == term && isModalOpen == old(isModalOpen)
    {
      searchTerm := term;
    }

    method OpenModal()
      modifies this
      ensures isModalOpen && searchTerm == old(searchTerm)
    {
      isModalOpen := true;
    }

    /** Closing or cancelling the dialog. */
    method CloseModal()
      modifies this
      ensures !isModalOpen && searchTerm == old(searchTerm)
    {
      isModalOpen := false;
    }

    /** The form's data goes to the store's add handler and the dialog
        closes. */
    method SubmitProject(data: ProjectData) returns (add: ProjectData)
      modifies this
      ensures add == data && !isModalOpen && searchTerm == old(searchTerm)
    {
      add := data;
      isModalOpen := false;
    }
  }
}
