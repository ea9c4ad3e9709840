/** The widget around the item sources: the committed selection, the change and ready events
    it emits, the initial selection made after the first load, and the no-results row. */
module Widget {
  import opened Items
  import opened Listing

  /** What the `.zelected` element shows. */
  datatype Surface = Blank | Rendered(html: string) | Placeholder(html: string)

  /** Events triggered on the underlying `<select>`. */
  datatype Event = Change(item: Item) | Ready

  /** Which item `initialSelection` commits, or None when it shows the placeholder instead:
      the explicit initial item first; then, without a loader, the row at the position of
      the pre-selected option; then the placeholder, if one is configured; and otherwise
      the first row. */
  function InitialChoice(initial: Item, hasLoader: bool, preselected: Option<nat>,
                         placeholder: string, rows: seq<Row>): (r: Option<Item>)
    ensures r.None? <==> !Truthy(initial) && (hasLoader || preselected.None?) && placeholder != ""
    ensures Truthy(initial) ==> r == Some(initial)
    ensures !Truthy(initial) && !hasLoader && preselected.Some? ==>
              r == Some(DataAt(rows, preselected.value))
    ensures !Truthy(initial) && (hasLoader || preselected.None?) && placeholder == "" ==>
              r == Some(DataAt(rows, 0))
    ensures r.Some? && r.value != initial ==> r.value == Absent || r.value in ItemsOf(rows)
  {
    if Truthy(initial) then Some(initial)
    else if !hasLoader && preselected.Some? then Some(DataAt(rows, preselected.value))
    else if placeholder != "" then None
    else Some(DataAt(rows, 0))
  }

  /** The value last written to the `<select>` after committing `item`: the item's own value
      when it has one, otherwise the value written before. */
  function ValueAfter(before: string, item: Item): (v: string)
    ensures item.Obj? && item.value != "" ==> v == item.value
    ensures !(item.Obj? && item.value != "") ==> v == before
  {
    if item.Obj? && item.value != "" then item.value else before
  }

  /** After a load that showed `items` without a loader, the pre-selected option's position
      picks the item shown there. */
  lemma PreselectedChosen(initial: Item, placeholder: string, items: seq<Item>, k: nat)
    requires !Truthy(initial) && k < |items|
    ensures InitialChoice(initial, false, Some(k), placeholder, Rows(items)) == Some(items[k])
  {
  }

  /** Without an initial item, an applicable pre-selected option or a placeholder, the first
      item shown is picked. */
  lemma FirstRowChosen(initial: Item, hasLoader: bool, preselected: Option<nat>, items: seq<Item>)
    requires !Truthy(initial) && (hasLoader || preselected.None?) && items != []
    ensures InitialChoice(initial, hasLoader, preselected, "", Rows(items)) == Some(items[0])
  {
  }

  class Zelect {
    /** The list the item source fills. */
    const list: ItemList
    /** `opts.initial`; `Absent` when not given. */
    const initial: Item
    /** Whether `opts.loader` is given, so that the paged source is used. */
    const hasLoader: bool
    /** The position of the `<option selected="selected">`, if there is one. */
    const preselected: Option<nat>
    /** `opts.placeholder`; "" when not given. */
    const placeholder: string

    /** `$select.data('zelected')` */
    var selected: Item
    var surface: Surface
    /** Whether the dropdown is shown. */
    var open: bool
    /** The value last written to the `<select>` with `$select.val(...)`. */
    var value: string
    var events: seq<Event>

    constructor (list: ItemList, initial: Item, hasLoader: bool, preselected: Option<nat>,
                 placeholder: string, value: string)
      ensures this.list == list && this.initial == initial && this.hasLoader == hasLoader
      ensures this.preselected == preselected && this.placeholder == placeholder
      ensures selected == Absent && surface == Blank && !open && this.value == value && events == []
    {
      this.list := list;
      this.initial, this.hasLoader, this.preselected := initial, hasLoader, preselected;
      this.placeholder := placeholder;
      selected, surface, open := Absent, Blank, false;
      this.value := value;
      events := [];
    }

    /** The effects of committing `item`. */
    twostate predicate Committed(item: Item)
      reads this
    {
      selected == item && surface == Rendered(RenderItem(item)) && !open
      && value == ValueAfter(old(value), item)
      && events == old(events) + [Change(item)]
    }

    /** `selectItem`: shows the item, closes the dropdown, copies the item's value to the
        `<select>`, records the item and emits one change event carrying it. */
    method SelectItem(item: Item)
      modifies this
      ensures Committed(item)
    {
      surface := Rendered(RenderItem(item));
      open := false;
      if item.Obj? && item.value != "" {
        value := item.value;
      }
      selected := item;
      events := events + [Change(item)];
    }

    /** `initialSelection`: commits the item `InitialChoice` picks, or shows the placeholder
        without committing anything or emitting an event. */
    method InitialSelection()
      modifies this
      ensures match InitialChoice(initial, hasLoader, preselected, placeholder, list.rows)
              case Some(item) => Committed(item)
              case None =>
                surface == Placeholder(placeholder) && selected == old(selected)
                && open == old(open) && value == old(value) && events == old(events)
    {
      if Truthy(initial) {
        SelectItem(initial);
      } else if !hasLoader && preselected.Some? {
        SelectItem(DataAt(list.rows, preselected.value));
      } else if placeholder != "" {
        surface := Placeholder(placeholder);
      } else {
        SelectItem(DataAt(list.rows, 0));
      }
    }

    /** `checkForNoResults`: a list without rows gets the no-results row for `term`. */
    method CheckForNoResults(term: string)
      modifies list
      ensures old(list.rows) == [] ==> list.rows == [NoResultsRow(term)]
      ensures old(list.rows) != [] ==> list.rows == old(list.rows)
      ensures ItemsOf(list.rows) == ItemsOf(old(list.rows))
    {
      if |list.rows| == 0 {
        list.AppendNoResults(term);
      }
    }

    /** Runs a completion callback a source handed back: after a filter, the no-results
        check; after the first load, the initial selection followed by the ready event. */
    method RunCallback(done: Done)
      modifies this, list
      ensures done.CheckForNoResults? ==>
                unchanged(this) && ItemsOf(list.rows) == ItemsOf(old(list.rows))
                && list.rows == if old(list.rows) == [] then [NoResultsRow(done.term)] else old(list.rows)
      ensures done.InitialSelection? ==>
                list.rows == old(list.rows)
                && match InitialChoice(initial, hasLoader, preselected, placeholder, list.rows)
                   case Some(item) =>
                     selected == item && surface == Rendered(RenderItem(item)) && !open
                     && value == ValueAfter(old(value), item)
                     && events == old(events) + [Change(item), Ready]
                   case None =>
                     surface == Placeholder(placeholder) && selected == old(selected)
                     && open == old(open) && value == old(value) && events == old(events) + [Ready]
    {
      match done
      case CheckForNoResults(term) =>
        CheckForNoResults(term);
      case InitialSelection =>
        InitialSelection();
        events := events + [Ready];
    }
  }
}
