/**
 * The portfolio section: the work items are laid out in a three-column
 * masonry grid (the `Masonry` partition) and every card's height class is
 * looked up by its absolute index in a fixed table of nine entries.
 */
module Works {
  import opened Wrappers
  import Masonry

  datatype WorkItem = WorkItem(id: string, number: string, title: string, image: string)

  /** The class used for every index the table has no entry for. */
  const DefaultHeight: string := "h-[300px] md:h-[350px]"

  /** The height table of `getItemHeight`, keyed by absolute index 0 to 8. */
  const Heights: map<int, string> := map[
    0 := "h-[280px] md:h-[320px]",
    1 := "h-[320px] md:h-[380px]",
    2 := "h-[260px] md:h-[300px]",
    3 := "h-[380px] md:h-[440px]",
    4 := "h-[340px] md:h-[400px]",
    5 := "h-[300px] md:h-[340px]",
    6 := "h-[300px] md:h-[340px]",
    7 := "h-[260px] md:h-[300px]",
    8 := "h-[320px] md:h-[380px]"
  ]

  /** Every class `getItemHeight` can return. */
  const Tiers: set<string> := Heights.Values + {DefaultHeight}

  /** `heights[index]`: `undefined` for an index that is not a key of the table. */
  function Lookup(index: int): (v: Option<string>)
    ensures v.Some? <==> 0 <= index < 9
    ensures v.Some? ==> v.value == Heights[index]
  {
    if index in Heights then Some(Heights[index]) else None
  }

  /** JavaScript's `v || fallback` on a string that may be undefined: both `undefined` and `""` are falsy. */
  function OrElse(v: Option<string>, fallback: string): (r: string)
    ensures v.Some? && v.value != "" ==> r == v.value
    ensures !(v.Some? && v.value != "") ==> r == fallback
  {
    if v.Some? && v.value != "" then v.value else fallback
  }

  /**
   * `getItemHeight(index)`: the table entry for indices 0 to 8 (no entry is
   * the empty string, so `||` never falls through for them) and the default
   * class for every other index, negative ones included.
   */
  function GetItemHeight(index: int): (h: string)
    ensures 0 <= index < 9 ==> h == Heights[index]
    ensures !(0 <= index < 9) ==> h == DefaultHeight
    ensures h in Tiers && h != ""
  {
    OrElse(Lookup(index), DefaultHeight)
  }

  /** A rendered portfolio card: the item, the absolute index it is rendered with, and its height class. */
  datatype Tile = Tile(item: WorkItem, originalIndex: nat, height: string)

  /**
   * `column.map((item, i) => renderCard(item, i * 3 + c))`: the tiles of
   * column `c`; each tile shows the item at its recovered index and takes
   * the height class of that absolute index.
   */
  function RenderColumn(items: seq<WorkItem>, c: nat): (tiles: seq<Tile>)
    requires c < 3
    ensures |tiles| == |Masonry.Column(items, c)|
    ensures forall k :: 0 <= k < |tiles| ==>
      && tiles[k].originalIndex == 3 * k + c
      && tiles[k].originalIndex < |items|
      && tiles[k].item == items[tiles[k].originalIndex]
      && tiles[k].height == GetItemHeight(tiles[k].originalIndex)
  {
    var cards := Masonry.Cards(items, c);
    seq(|cards|, k requires 0 <= k < |cards| =>
      Tile(cards[k].item, cards[k].index, GetItemHeight(cards[k].index)))
  }

  /** The three columns of the portfolio grid: left, center, right. */
  function Grid(items: seq<WorkItem>): (grid: seq<seq<Tile>>)
    ensures |grid| == 3
    ensures forall c :: 0 <= c < 3 ==> grid[c] == RenderColumn(items, c)
  {
    [RenderColumn(items, 0), RenderColumn(items, 1), RenderColumn(items, 2)]
  }

  /** The tile of the item at position `i` is in column `i % 3` at rank `i / 3`, with the height of index `i`. */
  lemma TileOfPosition(items: seq<WorkItem>, i: nat)
    requires i < |items|
    ensures i / 3 < |Grid(items)[i % 3]|
    ensures Grid(items)[i % 3][i / 3] == Tile(items[i], i, GetItemHeight(i))
  {
    Masonry.PositionInColumn(items, i);
  }

  /**
   * With nine items the left column shows the items at 0, 3 and 6 with the
   * heights of entries 0, 3 and 6; entries 1 and 2 go to the center and the
   * right column, not to the left one.
   */
  lemma NineItemHeights(items: seq<WorkItem>)
    requires |items| == 9
    ensures |Grid(items)[0]| == |Grid(items)[1]| == |Grid(items)[2]| == 3
    ensures Grid(items)[0][0].height == "h-[280px] md:h-[320px]"
    ensures Grid(items)[0][1].height == "h-[380px] md:h-[440px]"
    ensures Grid(items)[0][2].height == "h-[300px] md:h-[340px]"
    ensures Grid(items)[1][0].height == "h-[320px] md:h-[380px]"
    ensures Grid(items)[2][0].height == "h-[260px] md:h-[300px]"
  {
    Masonry.ColumnLength(items, 0);
    Masonry.ColumnLength(items, 1);
    Masonry.ColumnLength(items, 2);
  }
}
