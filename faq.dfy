/**
 * The FAQ accordion: the component keeps the id of the one open question
 * (or none), clicking a question toggles it, and each question is shown
 * open exactly when its id is the open id. Questions are numbered from 1.
 */
module Faq {
  import opened Wrappers

  datatype FaqItem = FaqItem(id: string, question: string, answer: string)

  /**
   * `openId === id`: the item with this id is shown open. With no open id
   * nothing is open, and an open id opens only the items that carry it.
   */
  predicate IsOpen(openId: Option<string>, id: string)
    ensures openId.None? ==> !IsOpen(openId, id)
    ensures IsOpen(openId, id) ==> openId.value == id
  {
    openId == Some(id)
  }

  /**
   * `openId === id ? null : id`: the open id after the item `id` is
   * clicked. The clicked item flips, every other item ends up closed.
   */
  function Toggled(openId: Option<string>, id: string): (next: Option<string>)
    ensures IsOpen(next, id) <==> !IsOpen(openId, id)
    ensures forall other :: other != id ==> !IsOpen(next, other)
  {
    if openId == Some(id) then None else Some(id)
  }

  /** Clicking the open item closes everything; clicking an item twice from all-closed closes it again. */
  lemma ToggleCloses(openId: Option<string>, id: string)
    ensures IsOpen(openId, id) ==> Toggled(openId, id) == None
    ensures Toggled(Toggled(None, id), id) == None
  {
  }

  /** The open ids after a sequence of clicks, starting from `openId`. */
  function AfterClicks(openId: Option<string>, clicks: seq<string>): Option<string>
    decreases clicks
  {
    if clicks == [] then openId else AfterClicks(Toggled(openId, clicks[0]), clicks[1..])
  }

  /** After one or more clicks, the only question that can be open is the one clicked last. */
  lemma {:induction false} AfterClicksLastOnly(openId: Option<string>, clicks: seq<string>)
    requires clicks != []
    decreases clicks
    ensures forall id :: IsOpen(AfterClicks(openId, clicks), id) ==> id == clicks[|clicks| - 1]
  {
    if |clicks| > 1 {
      AfterClicksLastOnly(Toggled(openId, clicks[0]), clicks[1..]);
    }
  }

  /** One question as rendered: its number, its item, and whether its answer is shown. */
  datatype Row = Row(number: nat, item: FaqItem, open: bool)

  /** `items.map((item, index) => <FAQItem index={index} isOpen={openId === item.id} />)`, labelled `index + 1`. */
  function Rows(openId: Option<string>, items: seq<FaqItem>): (rows: seq<Row>)
    ensures |rows| == |items|
    ensures forall k :: 0 <= k < |items| ==>
      rows[k].number == k + 1 && rows[k].item == items[k] && rows[k].open == IsOpen(openId, items[k].id)
  {
    seq(|items|, k requires 0 <= k < |items| => Row(k + 1, items[k], IsOpen(openId, items[k].id)))
  }

  /** The number of rows shown open. */
  function OpenCount(rows: seq<Row>): nat
  {
    if rows == [] then 0 else (if rows[0].open then 1 else 0) + OpenCount(rows[1..])
  }

  /** The ids of the items are pairwise distinct. */
  predicate DistinctIds(items: seq<FaqItem>)
  {
    forall i, j :: 0 <= i < j < |items| ==> items[i].id != items[j].id
  }

  /**
   * Questions are numbered 1, 2, 3, ... in order, and an item's open flag
   * depends only on the open id and its own id: two items with the same id
   * at any two positions show the same flag.
   */
  lemma RowsNumberedAndKeyed(openId: Option<string>, items: seq<FaqItem>)
    ensures forall k :: 0 <= k < |items| ==> Rows(openId, items)[k].number == k + 1
    ensures forall j, k :: 0 <= j < |items| && 0 <= k < |items| && items[j].id == items[k].id ==>
      Rows(openId, items)[j].open == Rows(openId, items)[k].open
  {
  }

  /**
   * Counting over any list of rows whose flags follow the open id and whose
   * item ids are distinct: at most one is open, and one is open exactly when
   * the open id belongs to one of them.
   */
  lemma {:induction false} OpenRowsAtMostOne(openId: Option<string>, rows: seq<Row>)
    requires forall k :: 0 <= k < |rows| ==> rows[k].open == IsOpen(openId, rows[k].item.id)
    requires forall i, j :: 0 <= i < j < |rows| ==> rows[i].item.id != rows[j].item.id
    ensures OpenCount(rows) <= 1
    ensures OpenCount(rows) == 1 <==> exists k :: 0 <= k < |rows| && rows[k].open
  {
    if rows != [] {
      var tail := rows[1..];
      assert forall k :: 0 <= k < |tail| ==> tail[k] == rows[k + 1];
      OpenRowsAtMostOne(openId, tail);
      if rows[0].open {
        assert forall k :: 0 <= k < |tail| ==> !tail[k].open;
      } else if exists k :: 0 <= k < |rows| && rows[k].open {
        var k :| 0 <= k < |rows| && rows[k].open;
        assert tail[k - 1].open;
      }
    }
  }

  /**
   * With distinct ids at most one question is shown open, and one is shown
   * open exactly when the open id is the id of one of the questions.
   */
  lemma AtMostOneOpen(openId: Option<string>, items: seq<FaqItem>)
    requires DistinctIds(items)
    ensures OpenCount(Rows(openId, items)) <= 1
    ensures OpenCount(Rows(openId, items)) == 1 <==> exists k :: 0 <= k < |items| && IsOpen(openId, items[k].id)
  {
    var rows := Rows(openId, items);
    OpenRowsAtMostOne(openId, rows);
    if exists k :: 0 <= k < |items| && IsOpen(openId, items[k].id) {
      var k :| 0 <= k < |items| && IsOpen(openId, items[k].id);
      assert rows[k].open;
    }
  }

  /** The accordion's state: the id of the open question, if any. */
  class Accordion {
    var openId: Option<string>

    /** Initially every question is closed. */
    constructor ()
      ensures openId == None
    {
      openId := None;
    }

    /** Whether the question with this id is shown open. */
    predicate ItemOpen(id: string)
      reads this
    {
      IsOpen(openId, id)
    }

    /** `toggleItem(id)`: the clicked question flips, every other question is closed. */
    method ToggleItem(id: string)
      modifies this
      ensures openId == Toggled(old(openId), id)
      ensures ItemOpen(id) <==> !old(ItemOpen(id))
      ensures forall other :: other != id ==> !ItemOpen(other)
    {
      openId := if openId == Some(id) then None else Some(id);
    }
  }
}
