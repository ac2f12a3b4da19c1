/** The roadmap-item form: its fields start from the item being edited
    (or the defaults for a new one), and submitting sends them on only
    when the title is not blank. */
module ItemForm {
  import opened Types
  import opened Strings
  import opened ProjectView

  /** The text shown in the date input for a stored due date: none and
      null both show as empty. */
  function DueText(d: Option<string>): (r: string)
    ensures d.Some? ==> r == d.value
    ensures d.None? ==> r == ""
  {
    if d.Some? then d.value else ""
  }

  /** The due date a submitted form sends: the empty text means null. */
  function DueValue(text: string): (r: Option<string>)
    ensures r.None? <==> text == ""
    ensures r.Some? ==> r.value == text
  {
    if text == "" then None else Some(text)
  }

  /** Showing a stored due date and sending it back gives it unchanged,
      except that an empty date comes back as null. */
  lemma DueRoundTrip(d: Option<string>)
    ensures DueValue(DueText(d)) == if d == Some("") then None else d
  {
  }

  /** What the form sends when submitted: nothing for a blank title,
      otherwise the fields as they are, with an empty date as null. */
  function Payload(title: string, description: string, itemType: ItemType, priority: Priority,
                   isPinned: bool, dueDate: string): (r: Option<ItemFormData>)
    ensures r.Some? <==> !IsBlank(title)
    ensures r.Some? ==> r.value.title == title && r.value.description == description &&
                        r.value.itemType == itemType && r.value.priority == priority &&
                        r.value.isPinned == isPinned && r.value.dueDate == DueValue(dueDate)
  {
    TrimEmptyIffBlank(title);
    if Trim(title) != "" then Some(ItemFormData(title, description, itemType, priority, isPinned, DueValue(dueDate)))
    else None
  }

  /** Opening the form on an item and submitting it untouched saves the
      item unchanged, unless its title is blank (nothing is sent) or its
      due date is the empty string (it comes back as null). */
  lemma UntouchedEditKeepsItem(item: RoadmapItem)
    requires !IsBlank(item.title) && item.dueDate != Some("")
    ensures var r := Payload(item.title, item.description, item.itemType, item.priority, item.isPinned, DueText(item.dueDate));
            r.Some? && MergeEdit(item, r.value) == item
  {
    DueRoundTrip(item.dueDate);
  }

  class RoadmapItemForm {
    var title: string
    var description: string
    var itemType: ItemType
    var priority: Priority
    var isPinned: bool
    var dueDate: string

    /** The fields of the item being edited, or an empty title and
        description, type Add, priority Medium, not pinned and no date. */
    constructor(initial: Option<RoadmapItem>)
      ensures initial.Some? ==> title == initial.value.title && description == initial.value.description &&
                                itemType == initial.value.itemType && priority == initial.value.priority &&
                                isPinned == initial.value.isPinned && dueDate == DueText(initial.value.dueDate)
      ensures initial.None? ==> title == "" && description == "" && itemType == Add && priority == Medium &&
                                !isPinned && dueDate == ""
    {
      if initial.Some? {
        var item := initial.value;
        title := item.title;
        description := item.description;
        itemType := item.itemType;
        priority := item.priority;
        isPinned := item.isPinned;
        dueDate := DueText(item.dueDate);
      } else {
        title := "";
        description := "";
        itemType := Add;
        priority := Medium;
        isPinned := false;
        dueDate := "";
      }
    }

    method SetTitle(t: string)
      modifies this
      ensures title == t
      ensures description == old(description) && itemType == old(itemType) && priority == old(priority)
      ensures isPinned == old(isPinned) && dueDate == old(dueDate)
    {
      title := t;
    }

    method SetDescription(d: string)
      modifies this
      ensures description == d
      ensures title == old(title) && itemType == old(itemType) && priority == old(priority)
      ensures isPinned == old(isPinned) && dueDate == old(dueDate)
    {
      description := d;
    }

    method SetItemType(t: ItemType)
      modifies this
      ensures itemType == t
      ensures title == old(title) && description == old(description) && priority == old(priority)
      ensures isPinned == old(isPinned) && dueDate == old(dueDate)
    {
      itemType := t;
    }

    method SetPriority(p: Priority)
      modifies this
      ensures priority == p
      ensures title == old(title) && description == old(description) && itemType == old(itemType)
      ensures isPinned == old(isPinned) && dueDate == old(dueDate)
    {
      priority := p;
    }

    method SetPinned(b: bool)
      modifies this
      ensures isPinned == b
      ensures title == old(title) && description == old(description) && itemType == old(itemType)
      ensures priority == old(priority) && dueDate == old(dueDate)
    {
      isPinned := b;
    }

    method SetDueDate(d: string)
      modifies this
      ensures dueDate == d
      ensures title == old(title) && description == old(description) && itemType == old(itemType)
      ensures priority == old(priority) && isPinned == old(isPinned)
    {
      dueDate := d;
    }

    /** Submitting sends the fields only when the title has a character
        other than white space; the form itself is left as it is. */
    method Submit() returns (r: Option<ItemFormData>)
      ensures r.Some? <==> !IsBlank(title)
      ensures r == Payload(title, description, itemType, priority, isPinned, dueDate)
    {
      r := Payload(title, description, itemType, priority, isPinned, dueDate);
    }
  }
}
