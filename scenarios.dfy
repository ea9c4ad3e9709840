/** Runs of the widget and its sources from start-up, as the host and the loader would drive
    them, with what each run is guaranteed to leave behind. */
module Scenarios {
  import opened Items
  import opened Listing
  import opened StaticSource
  import opened PagedSource
  import opened Widget

  /** Two searches in quick succession with the loader answering the older one last: only
      the newer term's items are ever shown, and its callback is the one handed back. */
  method SupersededSearch(xs: seq<Item>, ys: seq<Item>) returns (shown: seq<Row>, fire: Option<Done>)
    ensures shown == Rows(ys)
    ensures fire == Some(CheckForNoResults("y"))
  {
    var list := new ItemList();
    var source := new InfiniteScroll(list);
    source.NewTerm("x", Some(CheckForNoResults("x")));
    var forX := Request(source.id, "x", 0);
    source.NewTerm("y", Some(CheckForNoResults("y")));
    var forY := Request(source.id, "y", 0);
    fire := source.Respond(forY, ys, false);
    var late := source.Respond(forX, xs, false);
    assert late == None;
    shown := list.rows;
  }

  /** A loader that sends two items for page 0 and nothing for page 1, with the end of the
      list always visible: both pages are requested, the list holds the two items, the term
      is exhausted, the callback is handed back once, and a later check requests nothing. */
  method PagesUntilExhausted(a: Item, b: Item) returns (shown: seq<Row>, fire: Option<Done>, more: bool)
    ensures shown == [ItemRow(a), ItemRow(b)]
    ensures fire == Some(InitialSelection)
    ensures !more
  {
    var list := new ItemList();
    var source := new InfiniteScroll(list);
    source.NewTerm("", Some(InitialSelection));
    var first := source.Respond(Request(1, "", 0), [a, b], true);
    assert first == None && Request(1, "", 1) in source.pending;
    fire := source.Respond(Request(1, "", 1), [], true);
    assert source.exhausted && source.pending == {};
    more := source.MaybeLoadMore(true);
    assert source.pending == {};
    shown := list.rows;
  }

  /** Start-up without a loader: the first load shows every option, and the initial selection
      commits the pre-selected option's item and emits one change event and then ready. */
  method StartWithPreselectedOption(elements: seq<OptionElement>, k: nat, matcher: string -> string -> bool)
    returns (selected: Item, events: seq<Event>)
    requires k < |elements|
    ensures selected == ItemFromOption(elements[k])
    ensures events == [Change(selected), Ready]
  {
    var list := new ItemList();
    var source := new SelectBased(elements, matcher, list);
    var widget := new Zelect(list, Absent, false, Some(k), "", "");
    var fire := source.NewTerm("", Some(InitialSelection));
    MatchingEmptyTerm(source.options, matcher);
    assert list.rows[k] == ItemRow(ItemFromOption(elements[k]));
    widget.RunCallback(fire.value);
    selected, events := widget.selected, widget.events;
  }

  /** The static source filtering twice for the same term, whatever the list showed before:
      both runs leave the same rows, the passing options in option order. */
  method FilterTwice(elements: seq<OptionElement>, matcher: string -> string -> bool, term: string,
                     list: ItemList)
    returns (first: seq<Row>, second: seq<Row>)
    modifies list
    ensures first == second
    ensures ItemsOf(first) == Matching(seq(|elements|, i requires 0 <= i < |elements| => ItemFromOption(elements[i])), matcher, term)
  {
    var source := new SelectBased(elements, matcher, list);
    var cb := source.NewTerm(term, None);
    first := list.rows;
    cb := source.NewTerm(term, None);
    second := list.rows;
    assert source.options == seq(|elements|, i requires 0 <= i < |elements| => ItemFromOption(elements[i]));
    ItemsOfRows(Matching(source.options, matcher, term));
  }
}
