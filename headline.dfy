/**
 * Multi-line headlines, as the testimonials, promo and footer sections
 * render them: the headline string is split at every newline with
 * `split("\n")`, and each line is rendered in a span followed by a `<br/>`
 * unless it is the last line.
 */
module Headline {

  const Newline: char := '\n'

  /**
   * `s.split("\n")`: the pieces between newlines. There is always at least
   * one piece, even for the empty string.
   */
  function Split(s: string): (lines: seq<string>)
    ensures |lines| >= 1
  {
    if s == [] then [""]
    else
      var rest := Split(s[1..]);
      if s[0] == Newline then [""] + rest
      else [[s[0]] + rest[0]] + rest[1..]
  }

  /** `lines.join("\n")`. */
  function Join(lines: seq<string>): string
  {
    if lines == [] then ""
    else if |lines| == 1 then lines[0]
    else lines[0] + [Newline] + Join(lines[1..])
  }

  /** The number of newline characters in `s`. */
  function NewlineCount(s: string): nat
  {
    if s == [] then 0 else (if s[0] == Newline then 1 else 0) + NewlineCount(s[1..])
  }

  /** No line that `Split` produces contains a newline. */
  lemma {:induction false} SplitHasNoNewline(s: string)
    ensures forall i :: 0 <= i < |Split(s)| ==> Newline !in Split(s)[i]
  {
    if s != [] {
      SplitHasNoNewline(s[1..]);
    }
  }

  /** One line per newline, plus one. */
  lemma {:induction false} SplitCount(s: string)
    ensures |Split(s)| == NewlineCount(s) + 1
  {
    if s != [] {
      SplitCount(s[1..]);
    }
  }

  /** Joining the lines with newlines gives back the headline. */
  lemma {:induction false} JoinSplit(s: string)
    ensures Join(Split(s)) == s
  {
    if s != [] {
      var rest := Split(s[1..]);
      JoinSplit(s[1..]);
      if s[0] == Newline {
        assert ([""] + rest)[1..] == rest;
      } else if |rest| > 1 {
        var lines := [[s[0]] + rest[0]] + rest[1..];
        assert lines[1..] == rest[1..];
        assert Join(rest) == rest[0] + [Newline] + Join(rest[1..]);
        assert s == [s[0]] + s[1..];
      } else {
        assert s == [s[0]] + s[1..];
      }
    }
  }

  /** A newline-free prefix is glued onto the first line of what follows it. */
  lemma {:induction false} SplitPrefix(a: string, t: string)
    requires Newline !in a
    ensures Split(a + t) == [a + Split(t)[0]] + Split(t)[1..]
  {
    if a != [] {
      assert (a + t)[1..] == a[1..] + t;
      SplitPrefix(a[1..], t);
      assert [a[0]] + (a[1..] + Split(t)[0]) == a + Split(t)[0];
    } else {
      assert a + t == t;
      assert a + Split(t)[0] == Split(t)[0];
      assert Split(t) == [Split(t)[0]] + Split(t)[1..];
    }
  }

  /** Splitting undoes joining, for a non-empty list of newline-free lines. */
  lemma {:induction false} SplitJoin(lines: seq<string>)
    requires |lines| >= 1
    requires forall i :: 0 <= i < |lines| ==> Newline !in lines[i]
    ensures Split(Join(lines)) == lines
  {
    if |lines| == 1 {
      SplitPrefix(lines[0], "");
      assert lines[0] + "" == lines[0];
    } else {
      var tail := Join(lines[1..]);
      SplitJoin(lines[1..]);
      assert ([Newline] + tail)[1..] == tail;
      var t := [Newline] + tail;
      assert Split(t) == [""] + lines[1..];
      assert Split(t)[0] == "" && Split(t)[1..] == lines[1..];
      assert Join(lines) == lines[0] + t;
      SplitPrefix(lines[0], t);
      assert lines[0] + "" == lines[0];
      assert lines == [lines[0]] + lines[1..];
    }
  }

  /** One rendered line: its text, and whether a `<br/>` follows it. */
  datatype Span = Span(text: string, br: bool)

  /** `lines.map((line, index) => <span>{line}{index < lines.length - 1 && <br/>}</span>)`. */
  function Spans(lines: seq<string>): (spans: seq<Span>)
    ensures |spans| == |lines|
  {
    seq(|lines|, i requires 0 <= i < |lines| => Span(lines[i], i < |lines| - 1))
  }

  /** The rendered headline. */
  function Render(headline: string): (spans: seq<Span>)
    ensures |spans| >= 1
  {
    Spans(Split(headline))
  }

  /** The number of `<br/>` elements among the spans. */
  function BreakCount(spans: seq<Span>): nat
  {
    if spans == [] then 0 else (if spans[0].br then 1 else 0) + BreakCount(spans[1..])
  }

  /** What the spans read as, a `<br/>` read back as a newline. */
  function Text(spans: seq<Span>): string
  {
    if spans == [] then ""
    else spans[0].text + (if spans[0].br then [Newline] else []) + Text(spans[1..])
  }

  /** Dropping the first span of the rendering of `lines` leaves the rendering of the other lines. */
  lemma SpansTail(lines: seq<string>)
    requires lines != []
    ensures Spans(lines)[1..] == Spans(lines[1..])
  {
  }

  /**
   * Exactly one `<br/>` fewer than lines, the last line has none, and every
   * other line has one.
   */
  lemma {:induction false} BreaksBetweenLines(lines: seq<string>)
    requires |lines| >= 1
    ensures BreakCount(Spans(lines)) == |lines| - 1
    ensures !Spans(lines)[|lines| - 1].br
    ensures forall i :: 0 <= i < |lines| - 1 ==> Spans(lines)[i].br
  {
    if |lines| > 1 {
      SpansTail(lines);
      BreaksBetweenLines(lines[1..]);
    }
  }

  /** Reading the rendering back, `<br/>` as newline, gives the lines joined with newlines. */
  lemma {:induction false} TextOfSpans(lines: seq<string>)
    ensures Text(Spans(lines)) == Join(lines)
  {
    if lines != [] {
      SpansTail(lines);
      TextOfSpans(lines[1..]);
      if |lines| == 1 {
        assert Spans(lines)[1..] == [];
      }
    }
  }

  /** The rendered headline, `<br/>` read as newline, reads back as the headline itself. */
  lemma RenderReadsBack(headline: string)
    ensures Text(Render(headline)) == headline
  {
    TextOfSpans(Split(headline));
    JoinSplit(headline);
  }

  /** The rendered headline shows exactly one `<br/>` per newline of the headline. */
  lemma RenderBreaks(headline: string)
    ensures BreakCount(Render(headline)) == NewlineCount(headline)
  {
    BreaksBetweenLines(Split(headline));
    SplitCount(headline);
  }

  /** No span of the rendered headline holds a newline. */
  lemma RenderSpansSingleLine(headline: string)
    ensures forall i :: 0 <= i < |Render(headline)| ==> Newline !in Render(headline)[i].text
  {
    SplitHasNoNewline(headline);
  }
}
