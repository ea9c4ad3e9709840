/** `infiniteScroll`: the item source used when a loader is configured. It fetches the list
    page by page from the host's loader, keeps fetching while the end of the list is visible,
    and discards the answers to requests that a newer search term has superseded. */
module PagedSource {
  import opened Items
  import opened Listing

  /** One loader call: the generation (`state.id`) it was issued in, and the term and page
      it asked for. */
  datatype Request = Request(id: nat, term: string, page: nat)

  /** The items of a sequence of batches, in order. */
  function Flatten(batches: seq<seq<Item>>): seq<Item> {
    if batches == [] then [] else batches[0] + Flatten(batches[1..])
  }

  /** A further page extends the flattened list at its end. */
  lemma {:induction false} FlattenSnoc(batches: seq<seq<Item>>, items: seq<Item>)
    ensures Flatten(batches + [items]) == Flatten(batches) + items
  {
    if batches == [] {
      assert Flatten([items]) == items + Flatten([]);
    } else {
      calc {
        Flatten(batches + [items]);
        { assert (batches + [items])[0] == batches[0] && (batches + [items])[1..] == batches[1..] + [items]; }
        batches[0] + Flatten(batches[1..] + [items]);
        { FlattenSnoc(batches[1..], items); }
        batches[0] + (Flatten(batches[1..]) + items);
      }
    }
  }

  /** Each element is smaller than the next. */
  ghost predicate Increasing(s: seq<nat>) {
    forall i :: 0 < i < |s| ==> s[i - 1] < s[i]
  }

  /** An increasing log holds no generation twice. */
  lemma {:induction false} IncreasingDistinct(s: seq<nat>, i: nat, j: nat)
    requires Increasing(s) && i < j < |s|
    ensures s[i] < s[j]
  {
    if i < j - 1 {
      IncreasingDistinct(s, i, j - 1);
    }
  }

  class InfiniteScroll {
    const list: ItemList
    // the `state` record
    var id: nat
    var term: string
    var page: nat
    var loading: bool
    var exhausted: bool
    var callback: Option<Done>
    /** Loader calls issued and not answered yet. The loader answers each call at most once,
        in any order. */
    var pending: set<Request>
    /** The generation whose pages the list shows, and those pages as the loader sent them. */
    ghost var shownId: nat
    ghost var batches: seq<seq<Item>>
    /** The generations whose completion callback has fired, in firing order. */
    ghost var firedIds: seq<nat>

    ghost predicate Valid()
      reads this, list
    {
      RequestsValid() && PagesValid() && CallbacksValid()
    }

    /** No request of a future generation is outstanding, and of the current generation at
        most one, for the current term and page, exactly while `loading`. */
    ghost predicate RequestsValid()
      reads this`pending, this`id, this`term, this`page, this`loading, this`exhausted
    {
      (forall r | r in pending :: r.id < id || r == Request(id, term, page))
      && (loading <==> Request(id, term, page) in pending)
      && !(loading && exhausted)
    }

    /** The list shows the pages of a single generation, in page order; once the current
        generation has a page, they are its pages. Every page but the last is non-empty, and
        the term is exhausted exactly when the last page was empty. */
    ghost predicate PagesValid()
      reads this`shownId, this`id, this`batches, this`page, this`exhausted, list`rows
    {
      shownId <= id
      && ItemsOf(list.rows) == Flatten(batches)
      && (page == 0 ==> !exhausted)
      && (page > 0 ==>
            shownId == id && |batches| == page
            && (forall k | 0 <= k < page - 1 :: batches[k] != [])
            && (exhausted <==> batches[page - 1] == []))
    }

    /** Generations get their completion callback fired at most once: the log of fired
        generations is increasing, and while a callback waits the current generation is
        beyond the last one logged. */
    ghost predicate CallbacksValid()
      reads this`firedIds, this`id, this`callback
    {
      Increasing(firedIds)
      && (|firedIds| > 0 ==> firedIds[|firedIds| - 1] <= id)
      && (callback.Some? && |firedIds| > 0 ==> firedIds[|firedIds| - 1] < id)
    }

    /** No generation's completion callback has fired twice: the log is strictly increasing
        over every pair of entries. */
    lemma FiredOnce()
      requires Valid()
      ensures forall i, j | 0 <= i < j < |firedIds| :: firedIds[i] < firedIds[j]
    {
      forall i, j | 0 <= i < j < |firedIds|
        ensures firedIds[i] < firedIds[j]
      {
        IncreasingDistinct(firedIds, i, j);
      }
    }

    /** Nothing but the loading flag and the outstanding requests has changed. */
    twostate predicate OnlyRequestsChanged()
      reads this
    {
      id == old(id) && term == old(term) && page == old(page) && exhausted == old(exhausted)
      && callback == old(callback)
      && shownId == old(shownId) && batches == old(batches) && firedIds == old(firedIds)
    }

    constructor (list: ItemList)
      ensures this.list == list && Valid()
      ensures id == 0 && term == "" && page == 0 && !loading && !exhausted
      ensures callback == None && pending == {}
    {
      this.list := list;
      id, term, page := 0, "", 0;
      loading, exhausted := false, false;
      callback := None;
      pending := {};
      shownId := 0;
      batches := [ItemsOf(list.rows)];
      firedIds := [];
      new;
      assert Flatten(batches) == ItemsOf(list.rows) + Flatten([]);
    }

    /** `load`: unless a request is already out or the term is exhausted, asks the loader for
        the current term and page, remembering the generation it belongs to. */
    method Load()
      requires Valid()
      modifies this
      ensures Valid()
      ensures old(loading || exhausted) ==> unchanged(this)
      ensures !old(loading || exhausted) ==>
                loading && pending == old(pending) + {Request(id, term, page)} && OnlyRequestsChanged()
    {
      if loading || exhausted {
        return;
      }
      loading := true;
      pending := pending + {Request(id, term, page)};
    }

    /** `maybeLoadMore` (also the source's `check`): unless exhausted, requests the next page
        when the last item is visible, and reports whether it was visible. */
    method MaybeLoadMore(visible: bool) returns (more: bool)
      requires Valid()
      modifies this
      ensures Valid()
      ensures more == (!old(exhausted) && visible)
      ensures more && !old(loading) ==>
                loading && pending == old(pending) + {Request(id, term, page)} && OnlyRequestsChanged()
      ensures !(more && !old(loading)) ==> unchanged(this)
    {
      if exhausted {
        return false;
      }
      if visible {
        Load();
      }
      more := visible;
    }

    /** `newTerm` (the source's `load`): starts a new generation for `term` and asks for its
        first page. The list keeps showing the old items until that page arrives. */
    method NewTerm(t: string, cb: Option<Done>)
      requires Valid()
      modifies this
      ensures Valid()
      ensures id == old(id) + 1 && term == t && page == 0 && !exhausted && callback == cb
      ensures loading && pending == old(pending) + {Request(id, t, 0)}
      ensures Request(id, t, 0) !in old(pending)
      ensures shownId == old(shownId) && batches == old(batches) && firedIds == old(firedIds)
    {
      id := id + 1;
      term, page := t, 0;
      loading, exhausted := false, false;
      callback := cb;
      Load();
    }

    /** zelect.js's handling of a current answer's batch: page 0 first empties the list,
        the page advances, an empty batch marks the term exhausted, and the batch's items are
        appended in order. */
    method ApplyBatch(items: seq<Item>)
      requires PagesValid() && !exhausted
      modifies this`page, this`exhausted, this`shownId, this`batches, list
      ensures PagesValid()
      ensures page == old(page) + 1 && exhausted == (items == [])
      ensures list.rows == (if old(page) == 0 then [] else old(list.rows)) + Rows(items)
    {
      if page == 0 {
        list.Empty();
        shownId, batches := id, [];
      }
      page := page + 1;
      if |items| == 0 {
        exhausted := true;
      }
      list.AppendAll(items);
      FlattenSnoc(batches, items);
      batches := batches + [items];
    }

    /** A current answer: the request is no longer outstanding, its batch is applied, and
        the source is no longer loading. */
    method Apply(req: Request, items: seq<Item>)
      requires Valid() && req in pending && req.id == id
      modifies this, list
      ensures Valid()
      ensures req == Request(id, term, old(page))
      ensures id == old(id) && term == old(term) && page == old(page) + 1
      ensures exhausted == (items == []) && !loading && pending == old(pending) - {req}
      ensures list.rows == (if old(page) == 0 then [] else old(list.rows)) + Rows(items)
      ensures callback == old(callback) && firedIds == old(firedIds)
    {
      pending := pending - {req};
      ApplyBatch(items);
      loading := false;
    }

    /** Hands back the pending completion callback, if any, and forgets it. */
    method TakeCallback() returns (fire: Option<Done>)
      requires Valid()
      modifies this`callback, this`firedIds
      ensures Valid()
      ensures callback == None && fire == old(callback)
      ensures firedIds == old(firedIds) + (if fire.Some? then [id] else [])
    {
      fire := callback;
      if callback.Some? {
        firedIds := firedIds + [id];
      }
      callback := None;
    }

    /** What follows a current answer: the source asks for more while the end of the list
        stays `visible`; when it asks for nothing more it hands back the pending completion
        callback and forgets it. */
    method Settle(visible: bool) returns (fire: Option<Done>)
      requires Valid() && !loading
      modifies this
      ensures Valid()
      ensures id == old(id) && term == old(term) && page == old(page) && exhausted == old(exhausted)
      ensures !exhausted && visible ==>
                loading && pending == old(pending) + {Request(id, term, page)}
                && callback == old(callback) && fire == None && firedIds == old(firedIds)
      ensures !(!exhausted && visible) ==>
                !loading && pending == old(pending) && callback == None && fire == old(callback)
                && firedIds == old(firedIds) + (if fire.Some? then [id] else [])
    {
      var more := MaybeLoadMore(visible);
      if more {
        fire := None;
      } else {
        fire := TakeCallback();
      }
    }

    /** The loader's answer to `req`. An answer for an older generation is dropped, changing
        nothing but the set of outstanding requests; a current one is applied and settled. */
    method Respond(req: Request, items: seq<Item>, visible: bool) returns (fire: Option<Done>)
      requires Valid() && req in pending
      modifies this, list
      ensures Valid()
      // a stale answer
      ensures req.id != old(id) ==>
                fire == None && list.rows == old(list.rows) && pending == old(pending) - {req}
                && loading == old(loading) && OnlyRequestsChanged()
      // an answer of the current generation
      ensures req.id == old(id) ==>
                req == Request(old(id), old(term), old(page))
                && id == old(id) && term == old(term) && page == old(page) + 1
                && exhausted == (items == [])
                && list.rows == (if old(page) == 0 then [] else old(list.rows)) + Rows(items)
      ensures req.id == old(id) && !exhausted && visible ==>
                loading && pending == old(pending) - {req} + {Request(id, term, page)}
                && callback == old(callback) && fire == None && firedIds == old(firedIds)
      ensures req.id == old(id) && !(!exhausted && visible) ==>
                !loading && pending == old(pending) - {req}
                && callback == None && fire == old(callback)
                && firedIds == old(firedIds) + (if fire.Some? then [id] else [])
    {
      if req.id != id {
        pending := pending - {req};
        return None;
      }
      Apply(req, items);
      fire := Settle(visible);
    }
  }
}
