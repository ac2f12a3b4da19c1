/** Records and enumerations of the roadmap tracker (types.ts), plus the
    host services (locale and date) that the views consult but the
    program does not define. */
module Types {

  datatype Option<+T> = None | Some(value: T)

  /** The kind of change a roadmap item proposes. */
  datatype ItemType = Add | Edit | Remove

  /** Declared in the order Low, Medium, High, Urgent. */
  datatype Priority = Low | Medium | High | Urgent

  /** The rank the per-project view sorts by: Low 1 up to Urgent 4. */
  function Rank(p: Priority): (r: int)
    ensures 1 <= r <= 4
  {
    match p
    case Low => 1
    case Medium => 2
    case High => 3
    case Urgent => 4
  }

  /** The ranks follow the declaration order and tell the four apart. */
  lemma RankFollowsDeclarationOrder()
    ensures Rank(Low) < Rank(Medium) < Rank(High) < Rank(Urgent)
    ensures forall p, q :: Rank(p) == Rank(q) ==> p == q
  {
  }

  /** Creation timestamps: milliseconds since the epoch. */
  type Instant = int

  /** A project. `logo` is optional and nullable; both absences are None. */
  datatype Project = Project(
    id: string,
    title: string,
    description: string,
    createdAt: Instant,
    logo: Option<string>)

  /** A roadmap item, owned by the project named in `projectId`.
      `dueDate` is optional and nullable (both are None); as entered it is
      a calendar date written YYYY-MM-DD. */
  datatype RoadmapItem = RoadmapItem(
    id: string,
    projectId: string,
    itemType: ItemType,
    title: string,
    description: string,
    createdAt: Instant,
    priority: Priority,
    isPinned: bool,
    isDone: bool,
    isArchived: bool,
    dueDate: Option<string>)

  /** The fields a project form supplies: a project without id and createdAt. */
  datatype ProjectData = ProjectData(title: string, description: string, logo: Option<string>)

  /** The fields an item form supplies. */
  datatype ItemFormData = ItemFormData(
    title: string,
    description: string,
    itemType: ItemType,
    priority: Priority,
    isPinned: bool,
    dueDate: Option<string>)

  /** What the store's add-item handler receives: an item without id,
      createdAt, isDone and isArchived. */
  datatype ItemDraft = ItemDraft(
    projectId: string,
    itemType: ItemType,
    title: string,
    description: string,
    priority: Priority,
    isPinned: bool,
    dueDate: Option<string>)

  /** A project annotated for the dashboard with its latest idea. */
  datatype ProjectWithLatest = ProjectWithLatest(project: Project, latestIdea: Option<RoadmapItem>)

  /** JavaScript truthiness of an optional due date: absent, null and ''
      all count as "no due date". */
  predicate HasDueDate(item: RoadmapItem)
  {
    item.dueDate.Some? && item.dueDate.value != ""
  }

  /** The browser services the views call: String.prototype.toLowerCase,
      String.prototype.localeCompare and Date parsing (getTime of a due
      date). The program does not define them, so they are inputs. */
  datatype Host = Host(
    lower: string -> string,
    localeCompare: (string, string) -> int,
    dateValue: string -> int)
}
