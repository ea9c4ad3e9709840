/** `selectBased`: the item source used when no loader is configured. It filters the options
    of the underlying `<select>` by a matcher built from the search term. */
module StaticSource {
  import opened Items
  import opened Listing

  /** Whether a label passes the filter for `term`: the empty term uses a test that accepts
      everything, any other term the host's `regexpMatcher(term).test`. */
  predicate Passes(matcher: string -> string -> bool, term: string, caption: string): (r: bool)
    ensures term == "" ==> r
    ensures term != "" ==> (r <==> matcher(term)(caption))
  {
    term == "" || matcher(term)(caption)
  }

  /** The options whose label passes the filter for `term`, in option order. */
  function Matching(options: seq<Item>, matcher: string -> string -> bool, term: string): (r: seq<Item>)
    ensures |r| <= |options|
  {
    if options == [] then []
    else
      (if Passes(matcher, term, LabelOf(options[0])) then [options[0]] else [])
      + Matching(options[1..], matcher, term)
  }

  /** Filtering works option by option: the matches of a concatenation are the matches of
      each part, in the same order. */
  lemma {:induction false} MatchingAppend(a: seq<Item>, b: seq<Item>, matcher: string -> string -> bool, term: string)
    ensures Matching(a + b, matcher, term) == Matching(a, matcher, term) + Matching(b, matcher, term)
  {
    if a == [] {
      assert a + b == b;
    } else {
      var head := if Passes(matcher, term, LabelOf(a[0])) then [a[0]] else [];
      calc {
        Matching(a + b, matcher, term);
        { assert (a + b)[0] == a[0] && (a + b)[1..] == a[1..] + b; }
        head + Matching(a[1..] + b, matcher, term);
        { MatchingAppend(a[1..], b, matcher, term); }
        head + (Matching(a[1..], matcher, term) + Matching(b, matcher, term));
        (head + Matching(a[1..], matcher, term)) + Matching(b, matcher, term);
      }
    }
  }

  /** An item is shown exactly when it is an option whose label passes the filter. */
  lemma {:induction false} MatchingMember(options: seq<Item>, matcher: string -> string -> bool, term: string, x: Item)
    ensures x in Matching(options, matcher, term) <==> x in options && Passes(matcher, term, LabelOf(x))
  {
    if options != [] {
      MatchingMember(options[1..], matcher, term, x);
      assert options == [options[0]] + options[1..];
    }
  }

  /** The empty term shows every option. */
  lemma {:induction false} MatchingEmptyTerm(options: seq<Item>, matcher: string -> string -> bool)
    ensures Matching(options, matcher, "") == options
  {
    if options != [] {
      MatchingEmptyTerm(options[1..], matcher);
      assert options == [options[0]] + options[1..];
    }
  }

  /** Filtering what a filter kept changes nothing. */
  lemma {:induction false} MatchingIdempotent(options: seq<Item>, matcher: string -> string -> bool, term: string)
    ensures Matching(Matching(options, matcher, term), matcher, term) == Matching(options, matcher, term)
  {
    if options != [] {
      var head := if Passes(matcher, term, LabelOf(options[0])) then [options[0]] else [];
      MatchingIdempotent(options[1..], matcher, term);
      MatchingAppend(head, Matching(options[1..], matcher, term), matcher, term);
      assert Matching(head, matcher, term) == head by {
        if head != [] {
          assert head[1..] == [];
        }
      }
    }
  }

  class SelectBased {
    /** The items built from the `<select>`'s options when the source is created. */
    const options: seq<Item>
    /** `regexpMatcher`: the test a non-empty term applies to a label. */
    const matcher: string -> string -> bool
    const list: ItemList

    constructor (elements: seq<OptionElement>, matcher: string -> string -> bool, list: ItemList)
      ensures this.matcher == matcher && this.list == list
      ensures |options| == |elements|
      ensures forall i :: 0 <= i < |elements| ==> options[i] == ItemFromOption(elements[i])
    {
      options := seq(|elements|, i requires 0 <= i < |elements| => ItemFromOption(elements[i]));
      this.matcher := matcher;
      this.list := list;
    }

    /** `filter`: empties the list, then appends each option that passes, in option order. */
    method Filter(term: string)
      modifies list
      ensures list.rows == Rows(Matching(options, matcher, term))
    {
      list.Empty();
      var i := 0;
      while i < |options|
        invariant 0 <= i <= |options|
        invariant list.rows == Rows(Matching(options[..i], matcher, term))
      {
        MatchingAppend(options[..i], [options[i]], matcher, term);
        assert options[..i + 1] == options[..i] + [options[i]];
        if Passes(matcher, term, LabelOf(options[i])) {
          list.Append(options[i]);
        }
        i := i + 1;
      }
      assert options[..i] == options;
    }

    /** `newTerm` (the source's `load`): filters for `term`, then hands back the callback,
        if any, to be invoked at once. The list it leaves does not depend on the list it
        found, so repeating the call changes nothing. */
    method NewTerm(term: string, callback: Option<Done>) returns (fire: Option<Done>)
      modifies list
      ensures list.rows == Rows(Matching(options, matcher, term))
      ensures fire == callback
    {
      Filter(term);
      fire := callback;
    }
  }
}
