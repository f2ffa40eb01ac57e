/**
 * The footer: a multi-line headline, a `tel:` link whose target is the
 * phone number with all whitespace removed (`replace(/\s/g, "")`), and two
 * link columns shown only when the first and the second link group exist.
 */
module Footer {
  import opened Wrappers
  import Headline

  /**
   * The characters matched by the regular-expression class `\s` of
   * ECMAScript: the white-space characters (tab, vertical tab, form feed,
   * space, no-break space, byte-order mark and the other space separators)
   * and the line terminators. None of the characters a phone number is
   * written with (digits, `+`, `-`, `(`, `)`, `.`) is whitespace.
   */
  predicate IsWs(ch: char)
    ensures IsWs(ch) ==> !('0' <= ch <= '9') && ch !in {'+', '-', '(', ')', '.'}
  {
    || ch == '\t' || ch == '\n' || ch == '\U{000B}' || ch == '\U{000C}' || ch == '\r' || ch == ' '
    || ch == '\U{00A0}' || ch == '\U{1680}' || ('\U{2000}' <= ch <= '\U{200A}')
    || ch == '\U{2028}' || ch == '\U{2029}' || ch == '\U{202F}' || ch == '\U{205F}'
    || ch == '\U{3000}' || ch == '\U{FEFF}'
  }

  /**
   * `s.replace(/\s/g, "")`: `s` with every whitespace character removed. The
   * result is never longer, and it is as long as `s` exactly when `s` holds
   * no whitespace.
   */
  function StripWhitespace(s: string): (r: string)
    ensures |r| <= |s|
    ensures |r| == |s| <==> forall i :: 0 <= i < |s| ==> !IsWs(s[i])
  {
    if s == [] then []
    else (if IsWs(s[0]) then [] else [s[0]]) + StripWhitespace(s[1..])
  }

  /** The stripped string holds no whitespace. */
  lemma {:induction false} StripHasNoWhitespace(s: string)
    ensures forall i :: 0 <= i < |StripWhitespace(s)| ==> !IsWs(StripWhitespace(s)[i])
  {
    if s != [] {
      StripHasNoWhitespace(s[1..]);
    }
  }

  /** Every non-whitespace character is kept as often as it occurs; whitespace is gone. */
  lemma {:induction false} StripKeepsOthers(s: string)
    ensures forall ch :: !IsWs(ch) ==> multiset(StripWhitespace(s))[ch] == multiset(s)[ch]
    ensures forall ch :: IsWs(ch) ==> multiset(StripWhitespace(s))[ch] == 0
  {
    if s != [] {
      StripKeepsOthers(s[1..]);
      assert s == [s[0]] + s[1..];
    }
  }

  /** Stripping works piece by piece, so the kept characters stay in their original order. */
  lemma {:induction false} StripConcat(a: string, b: string)
    ensures StripWhitespace(a + b) == StripWhitespace(a) + StripWhitespace(b)
  {
    if a == [] {
      assert a + b == b;
    } else {
      assert (a + b)[1..] == a[1..] + b;
      StripConcat(a[1..], b);
    }
  }

  /** A string without whitespace is left as it is. */
  lemma {:induction false} StripNoWhitespace(s: string)
    requires forall i :: 0 <= i < |s| ==> !IsWs(s[i])
    ensures StripWhitespace(s) == s
  {
    if s != [] {
      StripNoWhitespace(s[1..]);
      assert s == [s[0]] + s[1..];
    }
  }

  /** Stripping a second time changes nothing. */
  lemma StripIdempotent(s: string)
    ensures StripWhitespace(StripWhitespace(s)) == StripWhitespace(s)
  {
    StripHasNoWhitespace(s);
    StripNoWhitespace(StripWhitespace(s));
  }

  /** The target of the phone link: `tel:` followed by the phone number without its whitespace. */
  function TelHref(phone: string): (href: string)
    ensures |href| >= 4 && href[..4] == "tel:"
    ensures forall i :: 4 <= i < |href| ==> !IsWs(href[i])
  {
    StripHasNoWhitespace(phone);
    "tel:" + StripWhitespace(phone)
  }

  datatype FooterLink = FooterLink(name: string, href: string)
  datatype LinkGroup = LinkGroup(title: string, links: seq<FooterLink>)

  /** The parts of the footer's content that its rendering depends on by rule. */
  datatype FooterData = FooterData(headline: string, phone: string, linkGroups: seq<LinkGroup>)

  /** `linkGroups[i]`: `undefined` past the end of the list. */
  function GroupAt(groups: seq<LinkGroup>, i: nat): (g: Option<LinkGroup>)
    ensures g.Some? <==> i < |groups|
    ensures g.Some? ==> g.value == groups[i]
  {
    if i < |groups| then Some(groups[i]) else None
  }

  /** The rendered footer: headline spans, phone-link target, center and right link columns. */
  datatype FooterView = FooterView(
    headline: seq<Headline.Span>, telHref: string,
    centerLinks: Option<LinkGroup>, rightLinks: Option<LinkGroup>)

  function Render(data: FooterData): (view: FooterView)
    ensures view.headline == Headline.Render(data.headline) && view.telHref == TelHref(data.phone)
    ensures view.centerLinks.Some? <==> |data.linkGroups| >= 1
    ensures view.rightLinks.Some? <==> |data.linkGroups| >= 2
  {
    FooterView(Headline.Render(data.headline), TelHref(data.phone),
               GroupAt(data.linkGroups, 0), GroupAt(data.linkGroups, 1))
  }

  /**
   * Only the first two link groups are ever rendered: the center column
   * shows group 0, the right column group 1, and dropping every later group
   * changes nothing.
   */
  lemma OnlyFirstTwoGroups(data: FooterData)
    ensures Render(data).centerLinks.Some? ==> Render(data).centerLinks.value == data.linkGroups[0]
    ensures Render(data).rightLinks.Some? ==> Render(data).rightLinks.value == data.linkGroups[1]
    ensures |data.linkGroups| > 2 ==>
      Render(data) == Render(data.(linkGroups := data.linkGroups[..2]))
  {
  }

  /**
   * The footer headline reads back as the headline, and the phone link is
   * exactly the whitespace-free phone number.
   */
  lemma RenderFaithful(data: FooterData)
    ensures Headline.Text(Render(data).headline) == data.headline
    ensures Render(data).telHref == "tel:" + StripWhitespace(data.phone)
    ensures forall ch :: !IsWs(ch) ==>
      multiset(Render(data).telHref[4..])[ch] == multiset(data.phone)[ch]
  {
    Headline.RenderReadsBack(data.headline);
    StripKeepsOthers(data.phone);
    assert Render(data).telHref[4..] == StripWhitespace(data.phone);
  }
}
