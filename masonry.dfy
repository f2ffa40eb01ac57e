/**
 * The round-robin masonry partition shared by the portfolio and the
 * testimonials sections: a list is split into three columns with
 * `items.filter((_, i) => i % 3 === c)` and every card of column `c` is
 * rendered with the absolute index `k * 3 + c` recovered from its rank `k`.
 */
module Masonry {

  /**
   * `items.filter((_, i) => i % 3 === c)`: the items whose position is
   * congruent to `c` modulo 3, in their original order. The column is never
   * longer than the list, and it is empty for a column number past the grid.
   */
  function Column<T>(items: seq<T>, c: nat): (col: seq<T>)
    ensures |col| <= |items|
    ensures c >= 3 ==> col == []
  {
    if items == [] then []
    else
      var last := |items| - 1;
      Column(items[..last], c) + (if last % 3 == c then [items[last]] else [])
  }

  /** How many of `n` positions are congruent to `c` modulo 3. */
  function ColumnSize(n: nat, c: nat): nat
    requires c < 3
  {
    (n + 2 - c) / 3
  }

  /** Reference description of a column: slot `k` holds the item at position `3k + c`. */
  ghost predicate IsColumn<T>(items: seq<T>, c: nat, col: seq<T>)
    requires c < 3
  {
    && |col| == ColumnSize(|items|, c)
    && forall k :: 0 <= k < |col| ==> 3 * k + c < |items| && col[k] == items[3 * k + c]
  }

  /** The size of column `c` of `n` items is `(n - c + 2) / 3`. */
  lemma {:induction false} ColumnLength<T>(items: seq<T>, c: nat)
    requires c < 3
    ensures |Column(items, c)| == ColumnSize(|items|, c)
  {
    if items != [] {
      ColumnLength(items[..|items| - 1], c);
    }
  }

  /** The key fact: the `k`-th item of column `c` is `items[3k + c]`. */
  lemma {:induction false} ColumnAt<T>(items: seq<T>, c: nat, k: nat)
    requires c < 3
    requires k < |Column(items, c)|
    ensures 3 * k + c < |items|
    ensures Column(items, c)[k] == items[3 * k + c]
  {
    var last := |items| - 1;
    var prefix := items[..last];
    assert Column(items, c) == Column(prefix, c) + (if last % 3 == c then [items[last]] else []);
    ColumnLength(prefix, c);
    if k < |Column(prefix, c)| {
      ColumnAt(prefix, c, k);
    } else {
      assert last % 3 == c;
      assert k == ColumnSize(last, c);
    }
  }

  /** `Column` meets its reference description. */
  lemma ColumnIsColumn<T>(items: seq<T>, c: nat)
    requires c < 3
    ensures IsColumn(items, c, Column(items, c))
  {
    ColumnLength(items, c);
    forall k | 0 <= k < |Column(items, c)|
      ensures 3 * k + c < |items| && Column(items, c)[k] == items[3 * k + c]
    {
      ColumnAt(items, c, k);
    }
  }

  /** The reference description determines the column. */
  lemma ColumnUnique<T>(items: seq<T>, c: nat, col: seq<T>)
    requires c < 3
    requires IsColumn(items, c, col)
    ensures col == Column(items, c)
  {
    ColumnIsColumn(items, c);
  }

  /**
   * Exact cover, one direction: the item at position `i` sits in column
   * `i % 3`, at rank `i / 3`.
   */
  lemma PositionInColumn<T>(items: seq<T>, i: nat)
    requires i < |items|
    ensures i / 3 < |Column(items, i % 3)|
    ensures Column(items, i % 3)[i / 3] == items[i]
  {
    var c := i % 3;
    ColumnLength(items, c);
    ColumnAt(items, c, i / 3);
  }

  /**
   * Order preservation: the columns of the first `n` items are the leading
   * parts of the columns of the whole list, so appending items only adds
   * cards at the bottom of the columns and never reorders the cards above.
   */
  lemma ColumnOfPrefix<T>(items: seq<T>, c: nat, n: nat)
    requires c < 3
    requires n <= |items|
    ensures ColumnSize(n, c) <= |Column(items, c)|
    ensures Column(items[..n], c) == Column(items, c)[..ColumnSize(n, c)]
  {
    var col := Column(items, c);
    ColumnLength(items, c);
    var front := col[..ColumnSize(n, c)];
    forall k | 0 <= k < |front|
      ensures 3 * k + c < n && front[k] == items[..n][3 * k + c]
    {
      ColumnAt(items, c, k);
    }
    ColumnUnique(items[..n], c, front);
  }

  /** Together the three columns hold every item exactly once (as multisets). */
  lemma {:induction false} ColumnsPartition<T>(items: seq<T>)
    ensures multiset(Column(items, 0)) + multiset(Column(items, 1)) + multiset(Column(items, 2))
         == multiset(items)
  {
    if items != [] {
      var last := |items| - 1;
      ColumnsPartition(items[..last]);
      assert items == items[..last] + [items[last]];
    }
  }

  /** Column sizes add up to the number of items and never differ by more than one. */
  lemma ColumnsBalanced<T>(items: seq<T>)
    ensures |Column(items, 0)| + |Column(items, 1)| + |Column(items, 2)| == |items|
    ensures |Column(items, 0)| >= |Column(items, 1)| >= |Column(items, 2)| >= |Column(items, 0)| - 1
  {
    ColumnLength(items, 0);
    ColumnLength(items, 1);
    ColumnLength(items, 2);
  }

  /**
   * Dropping the first item shifts every column one place to the left:
   * column 0 of the rest is column 1, column 1 is column 2, and column 2 is
   * column 0 without its head.
   */
  lemma ColumnsShift<T>(items: seq<T>)
    requires items != []
    ensures Column(items[1..], 0) == Column(items, 1)
    ensures Column(items[1..], 1) == Column(items, 2)
    ensures Column(items, 0) != [] && Column(items[1..], 2) == Column(items, 0)[1..]
  {
    var rest := items[1..];
    ColumnIsColumn(items, 0);
    ColumnIsColumn(items, 1);
    ColumnIsColumn(items, 2);
    ColumnUnique(rest, 0, Column(items, 1));
    ColumnUnique(rest, 1, Column(items, 2));
    var tail := Column(items, 0)[1..];
    forall k | 0 <= k < |tail|
      ensures 3 * k + 2 < |rest| && tail[k] == rest[3 * k + 2]
    {
      assert tail[k] == Column(items, 0)[k + 1];
    }
    ColumnUnique(rest, 2, tail);
  }

  /**
   * Reading three columns round-robin: column 0 item 0, column 1 item 0,
   * column 2 item 0, column 0 item 1, and so on, until the next column to
   * read from is exhausted.
   */
  function Interleave<T>(a: seq<T>, b: seq<T>, c: seq<T>): seq<T>
    decreases |a| + |b| + |c|
  {
    if a == [] then [] else [a[0]] + Interleave(b, c, a[1..])
  }

  /** Reading the three columns round-robin gives back the original list. */
  lemma {:induction false} InterleaveColumns<T>(items: seq<T>)
    ensures Interleave(Column(items, 0), Column(items, 1), Column(items, 2)) == items
  {
    if items == [] {
      ColumnLength(items, 0);
    } else {
      ColumnLength(items, 0);
      ColumnAt(items, 0, 0);
      ColumnsShift(items);
      InterleaveColumns(items[1..]);
    }
  }

  /** A rendered card: the item and the absolute index it is rendered with. */
  datatype Card<T> = Card(item: T, index: nat)

  /**
   * `column.map((item, i) => render(item, i * 3 + c))`: the cards of column
   * `c`, each tagged with the index recovered from its rank; that index is
   * the item's own position in `items`.
   */
  function Cards<T>(items: seq<T>, c: nat): (cards: seq<Card<T>>)
    requires c < 3
    ensures |cards| == |Column(items, c)|
    ensures forall k :: 0 <= k < |cards| ==>
      cards[k].item == Column(items, c)[k] && cards[k].index == k * 3 + c && cards[k].index % 3 == c
    ensures forall k :: 0 <= k < |cards| ==>
      cards[k].index < |items| && items[cards[k].index] == cards[k].item
  {
    var col := Column(items, c);
    ColumnIsColumn(items, c);
    seq(|col|, k requires 0 <= k < |col| => Card(col[k], k * 3 + c))
  }

  /** The items of a list of cards, in order. */
  function ItemsOf<T>(cards: seq<Card<T>>): (r: seq<T>)
    ensures |r| == |cards| && forall k :: 0 <= k < |cards| ==> r[k] == cards[k].item
  {
    seq(|cards|, k requires 0 <= k < |cards| => cards[k].item)
  }

  /** Every position of `items` is rendered by exactly one card of the three columns. */
  lemma EveryPositionRenderedOnce<T>(items: seq<T>, i: nat)
    requires i < |items|
    ensures exists c, k :: 0 <= c < 3 && 0 <= k < |Cards(items, c)| && Cards(items, c)[k].index == i
    ensures forall c, k :: 0 <= c < 3 && 0 <= k < |Cards(items, c)| && Cards(items, c)[k].index == i ==>
      c == i % 3 && k == i / 3
  {
    PositionInColumn(items, i);
    var cards := Cards(items, i % 3);
    assert cards[i / 3].index == i;
  }
}
