/**
 * The testimonials section: the testimonials are laid out in a three-column
 * masonry grid, and every card gets the `index` prop `i * 3 + c` recovered
 * from its rank `i` in column `c`. (Its headline is split like the other
 * sections' headlines; see the `Headline` module.)
 */
module Testimonials {
  import Masonry

  datatype TestimonialItem = TestimonialItem(
    id: string, name: string, location: string, rating: string,
    quote: string, avatar: string, date: string)

  /** The left, center and right columns of testimonial cards. */
  function CardColumns(items: seq<TestimonialItem>): (cols: seq<seq<Masonry.Card<TestimonialItem>>>)
    ensures |cols| == 3
    ensures forall c :: 0 <= c < 3 ==> cols[c] == Masonry.Cards(items, c)
    ensures forall c, k :: 0 <= c < 3 && 0 <= k < |cols[c]| ==>
      cols[c][k].index == 3 * k + c && cols[c][k].index < |items| && items[cols[c][k].index] == cols[c][k].item
  {
    var cols := [Masonry.Cards(items, 0), Masonry.Cards(items, 1), Masonry.Cards(items, 2)];
    assert forall c :: 0 <= c < 3 ==> cols[c] == Masonry.Cards(items, c);
    cols
  }

  /** The testimonials shown, column after column, as a multiset. */
  function Shown(items: seq<TestimonialItem>): multiset<TestimonialItem>
  {
    var cols := CardColumns(items);
    multiset(Masonry.ItemsOf(cols[0])) + multiset(Masonry.ItemsOf(cols[1])) + multiset(Masonry.ItemsOf(cols[2]))
  }

  /** The three columns together hold every testimonial exactly once. */
  lemma EveryTestimonialOnce(items: seq<TestimonialItem>)
    ensures Shown(items) == multiset(items)
  {
    var cols := CardColumns(items);
    forall c | 0 <= c < 3
      ensures Masonry.ItemsOf(cols[c]) == Masonry.Column(items, c)
    {
    }
    Masonry.ColumnsPartition(items);
  }

  /**
   * Reading column 0 card 0, column 1 card 0, column 2 card 0, column 0
   * card 1, and so on gives back the testimonials in their original order.
   */
  lemma RoundRobinReadsBack(items: seq<TestimonialItem>)
    ensures
      var cols := CardColumns(items);
      Masonry.Interleave(Masonry.ItemsOf(cols[0]), Masonry.ItemsOf(cols[1]), Masonry.ItemsOf(cols[2])) == items
  {
    var cols := CardColumns(items);
    forall c | 0 <= c < 3
      ensures Masonry.ItemsOf(cols[c]) == Masonry.Column(items, c)
    {
    }
    Masonry.InterleaveColumns(items);
  }

  /** No testimonials: three empty columns. */
  lemma NoTestimonials()
    ensures CardColumns([]) == [[], [], []]
  {
    var none: seq<TestimonialItem> := [];
    Masonry.ColumnLength(none, 0);
    Masonry.ColumnLength(none, 1);
    Masonry.ColumnLength(none, 2);
  }

  /** One testimonial: it is alone in the left column, with index 0. */
  lemma OneTestimonial(t: TestimonialItem)
    ensures CardColumns([t]) == [[Masonry.Card(t, 0)], [], []]
  {
    Masonry.ColumnLength([t], 0);
    Masonry.ColumnLength([t], 1);
    Masonry.ColumnLength([t], 2);
    var cols := CardColumns([t]);
    assert cols[0] == [Masonry.Card(t, 0)];
  }

  /** Four testimonials: column sizes 2, 1 and 1, the fourth at the bottom of the left column with index 3. */
  lemma FourTestimonials(items: seq<TestimonialItem>)
    requires |items| == 4
    ensures var cols := CardColumns(items);
      |cols[0]| == 2 && |cols[1]| == 1 && |cols[2]| == 1 && cols[0][1] == Masonry.Card(items[3], 3)
  {
    Masonry.ColumnLength(items, 0);
    Masonry.ColumnLength(items, 1);
    Masonry.ColumnLength(items, 2);
  }
}
