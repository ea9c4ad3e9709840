/** The displayed list (`$list`, an `<ol>`): the rows the item sources fill and the widget
    reads, plus the no-results row the widget may add. */
module Listing {
  import opened Items

  /** A child `<li>` of the list: a rendered item carrying the item as its data, or the
      no-results row for a term, which carries no item. */
  datatype Row = ItemRow(item: Item) | NoResultsRow(term: string)

  /** The rows that `appendItem` produces for a sequence of items, one per item, in order. */
  function Rows(items: seq<Item>): seq<Row> {
    seq(|items|, i requires 0 <= i < |items| => ItemRow(items[i]))
  }

  /** The items the list shows, in display order, leaving out any no-results row. */
  function ItemsOf(rows: seq<Row>): seq<Item> {
    if rows == [] then []
    else (if rows[0].ItemRow? then [rows[0].item] else []) + ItemsOf(rows[1..])
  }

  lemma {:induction false} ItemsOfAppend(a: seq<Row>, b: seq<Row>)
    ensures ItemsOf(a + b) == ItemsOf(a) + ItemsOf(b)
  {
    if a == [] {
      assert a + b == b;
    } else {
      var head := if a[0].ItemRow? then [a[0].item] else [];
      calc {
        ItemsOf(a + b);
        { assert (a + b)[0] == a[0] && (a + b)[1..] == a[1..] + b; }
        head + ItemsOf(a[1..] + b);
        { ItemsOfAppend(a[1..], b); }
        head + (ItemsOf(a[1..]) + ItemsOf(b));
        (head + ItemsOf(a[1..])) + ItemsOf(b);
      }
    }
  }

  /** Reading back the items of freshly appended rows gives the items that were appended. */
  lemma {:induction false} ItemsOfRows(items: seq<Item>)
    ensures ItemsOf(Rows(items)) == items
  {
    if items != [] {
      assert Rows(items)[1..] == Rows(items[1..]);
      ItemsOfRows(items[1..]);
    }
  }

  lemma {:induction false} ItemRowShown(rows: seq<Row>, i: nat)
    requires i < |rows| && rows[i].ItemRow?
    ensures rows[i].item in ItemsOf(rows)
  {
    if i > 0 {
      ItemRowShown(rows[1..], i - 1);
    }
  }

  /** `$list.children().eq(i).data('zelect-item')`: the item of the i-th row; `Absent` for the
      no-results row and past the end of the list. */
  function DataAt(rows: seq<Row>, i: nat): (r: Item)
    ensures r == Absent || r in ItemsOf(rows)
    ensures i < |rows| && rows[i].ItemRow? ==> r == rows[i].item
    ensures !(i < |rows| && rows[i].ItemRow?) ==> r == Absent
  {
    if i < |rows| && rows[i].ItemRow? then
      ItemRowShown(rows, i);
      rows[i].item
    else Absent
  }

  class ItemList {
    var rows: seq<Row>

    constructor ()
      ensures rows == []
    {
      rows := [];
    }

    /** `$list.empty()` */
    method Empty()
      modifies this
      ensures rows == []
    {
      rows := [];
    }

    /** `appendItem`: a row for `item` goes after the existing rows. */
    method Append(item: Item)
      modifies this
      ensures rows == old(rows) + [ItemRow(item)]
    {
      rows := rows + [ItemRow(item)];
    }

    /** `$.each(items, appendItem)`: a row for each item, in order, after the existing rows. */
    method AppendAll(items: seq<Item>)
      modifies this
      ensures rows == old(rows) + Rows(items)
      ensures ItemsOf(rows) == ItemsOf(old(rows)) + items
    {
      var i := 0;
      while i < |items|
        invariant 0 <= i <= |items|
        invariant rows == old(rows) + Rows(items[..i])
      {
        assert items[..i + 1] == items[..i] + [items[i]];
        Append(items[i]);
        i := i + 1;
      }
      assert items[..i] == items;
      ItemsOfAppend(old(rows), Rows(items));
      ItemsOfRows(items);
    }

    /** Appends the `noResults(term)` row. */
    method AppendNoResults(term: string)
      modifies this
      ensures rows == old(rows) + [NoResultsRow(term)]
      ensures ItemsOf(rows) == ItemsOf(old(rows))
    {
      ItemsOfAppend(rows, [NoResultsRow(term)]);
      rows := rows + [NoResultsRow(term)];
    }
  }
}
