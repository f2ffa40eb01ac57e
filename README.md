# Wedding floral-design landing page: the rules inside its sections

The site is a single static page rendered from a JSON content object. Its
sections are mostly declarative markup. This model keeps only the small pieces
of deterministic logic inside them:

- **Masonry partition** (`Masonry`, used by `Works` and `Testimonials`). The
  portfolio and the testimonials split their item lists into three columns with
  `items.filter((_, i) => i % 3 === c)`. Each card of column `c` is rendered
  with the absolute index `k * 3 + c`, recovered from its rank `k`. The model
  proves the key fact `Column(items, c)[k] == items[3k + c]`. It also proves the
  column sizes `(n - c + 2) / 3`, the exact cover (as multisets and position by
  position), order preservation, and the round-robin read-back of the original
  list.
- **Height table** (`Works.GetItemHeight`). This is a nine-entry table keyed by
  absolute index, with a default class for every other index. JavaScript's
  `heights[index] || default` is modelled with an optional lookup and string
  truthiness.
- **Headlines** (`Headline`). The testimonials, promo and footer sections split
  their headline with `split("\n")`. They render each line in a span, with a
  `<br/>` after every line except the last. The model proves that the rendered
  spans read back as the headline, that exactly one `<br/>` is emitted per
  newline, and that split and join are inverse.
- **Footer** (`Footer`). The `tel:` target removes every `\s` character of the
  phone number. The two link columns are shown only when `linkGroups[0]` and
  `linkGroups[1]` exist.
- **FAQ accordion** (`Faq`). The component's `openId` state is a class field,
  and `toggleItem` is a method on it. An item is open iff its id is `openId`.
  Items are numbered from 1. With distinct ids, at most one item is open.
- **Navigation menu** (`Navbar`). The `isOpen` flag is a class field with
  `toggleMenu` and `closeMenu`. A click dispatcher covers the menu button, the
  links, the call-to-action and the backdrop. The grid border rule over the six
  menu links is modelled as well.

The table's comments in `works.tsx` label entries 0–2 "Left col", 3–5 "Center
col" and 6–8 "Right col", which is a column-major layout. The code partitions
round-robin and looks the table up by absolute index. So entry 1 styles the
first card of the center column, and the left column gets entries 0, 3 and 6.
The model follows the code; `Works.NineItemHeights` states the heights that
result.

The portfolio is the only section with a height table. The testimonials grid
uses the same partition but no height lookup, so the model gives it none.

## Model

| member | source | states |
|---|---|---|
| Masonry.Column | src/components/sections/works.tsx:48-50 | `filter((_, i) => i % 3 === c)`: never longer than the list, empty past column 2; its slots and size are stated by `ColumnAt` and `ColumnLength` |
| Masonry.ColumnLength | src/components/sections/works.tsx:48-50 | column `c` of `n` items has `(n - c + 2) / 3` items |
| Masonry.ColumnAt | src/components/sections/works.tsx:48-50 | the `k`-th item of column `c` is `items[3k + c]`, and that position exists |
| Masonry.ColumnIsColumn | src/components/sections/testimonials.tsx:95-97 | the filtered column meets the reference description "slot `k` holds position `3k + c`, size `(n - c + 2) / 3`" |
| Masonry.ColumnUnique | src/components/sections/testimonials.tsx:95-97 | the reference description determines the column: any list meeting it equals the filtered column |
| Masonry.PositionInColumn | src/components/sections/works.tsx:48-50 | the item at position `i` sits in column `i % 3` at rank `i / 3` (every item is in some column) |
| Masonry.ColumnOfPrefix | src/components/sections/works.tsx:48-50 | the columns of the first `n` items are the leading parts of the full columns: more items only add cards at the bottom, never reorder the cards above |
| Masonry.ColumnsPartition | src/components/sections/works.tsx:48-50 | the multiset union of the three columns is the multiset of the items: each item appears exactly once |
| Masonry.ColumnsBalanced | src/components/sections/testimonials.tsx:95-97 | the column sizes sum to `n`, are non-increasing left to right and differ by at most one |
| Masonry.ColumnsShift | src/components/sections/testimonials.tsx:95-97 | dropping the first item moves column 1 to 0, column 2 to 1, and column 0 minus its head to 2 |
| Masonry.InterleaveColumns | src/components/sections/testimonials.tsx:95-97 | reading the three columns round-robin reconstructs the original list exactly |
| Masonry.Cards | src/components/sections/works.tsx:134-146 | card `k` of column `c` shows slot `k` of the column and carries index `k * 3 + c`, which is `≡ c (mod 3)`, inside the list, and is the position of the card's own item |
| Masonry.EveryPositionRenderedOnce | src/components/sections/testimonials.tsx:161-179 | every position is rendered by some card, and only by the card at column `i % 3`, rank `i / 3` |
| Works.Lookup | src/components/sections/works.tsx:32-43 | `heights[index]` is defined exactly for the indices 0 to 8, and then it is that index's table entry |
| Works.OrElse | src/components/sections/works.tsx:43 | definition of JavaScript's `v or fallback` (the logical-or operator) on an optional string: a defined non-empty `v` is returned as it is; `undefined` and `""` give the fallback. The evidence about the height lookup is in `GetItemHeight` |
| Works.GetItemHeight | src/components/sections/works.tsx:31-44 | indices 0–8 get their table entry (no entry is empty, so the fallback never replaces them); every other index, negatives included, gets the default; the result is always one of the table's classes or the default |
| Works.RenderColumn | src/components/sections/works.tsx:52-65 | each tile of column `c` has original index `3k + c`, shows `items[3k + c]` and takes the height class of that absolute index |
| Works.Grid | src/components/sections/works.tsx:132-147 | the grid is the left, center and right columns in that order |
| Works.TileOfPosition | src/components/sections/works.tsx:134-146 | the tile of the item at position `i` is in column `i % 3` at rank `i / 3`, with index `i` and the height of index `i` |
| Works.NineItemHeights | src/components/sections/works.tsx:33-41 | with nine items the left column gets entries 0, 3 and 6 (entry 3 is the tallest class); entries 1 and 2 go to the center and right columns |
| Testimonials.CardColumns | src/components/sections/testimonials.tsx:161-179 | card `k` of column `c` gets `index = 3k + c`, and that index is the position of the card's testimonial |
| Testimonials.EveryTestimonialOnce | src/components/sections/testimonials.tsx:95-97 | the three columns together show every testimonial exactly once (multiset equality) |
| Testimonials.RoundRobinReadsBack | src/components/sections/testimonials.tsx:95-97 | reading column 0 card 0, column 1 card 0, column 2 card 0, column 0 card 1, … gives back the testimonials in order |
| Testimonials.NoTestimonials | src/components/sections/testimonials.tsx:95-97 | an empty list gives three empty columns |
| Testimonials.OneTestimonial | src/components/sections/testimonials.tsx:95-97 | a single testimonial is alone in the left column, with index 0 |
| Testimonials.FourTestimonials | src/components/sections/testimonials.tsx:95-97 | four testimonials give column sizes 2, 1, 1, the fourth at the bottom of the left column with index 3 |
| Headline.Split | src/components/sections/promo.tsx:23 | `split("\n")` always yields at least one line, even for the empty string |
| Headline.SplitHasNoNewline | src/components/sections/testimonials.tsx:92 | no line produced by the split contains a newline |
| Headline.SplitCount | src/components/sections/promo.tsx:23 | the number of lines is the number of newlines plus one |
| Headline.JoinSplit | src/components/sections/footer.tsx:42 | joining the lines with `"\n"` gives back the headline |
| Headline.SplitJoin | src/components/sections/footer.tsx:42 | splitting a join of newline-free lines gives back those lines (split and join are inverse) |
| Headline.Spans | src/components/sections/promo.tsx:68-73 | one span per line |
| Headline.Render | src/components/sections/testimonials.tsx:128-133 | a rendered headline has at least one span |
| Headline.BreaksBetweenLines | src/components/sections/promo.tsx:68-73 | exactly `lines.length - 1` `<br/>`s; every line but the last has one, the last has none |
| Headline.TextOfSpans | src/components/sections/footer.tsx:63-68 | the spans, with `<br/>` read as newline, spell the lines joined with `"\n"` |
| Headline.RenderReadsBack | src/components/sections/testimonials.tsx:128-133 | the rendered headline, `<br/>` read as newline, reads back as the headline |
| Headline.RenderBreaks | src/components/sections/footer.tsx:63-68 | the rendered headline shows exactly one `<br/>` per newline of the headline |
| Headline.RenderSpansSingleLine | src/components/sections/promo.tsx:68-73 | no span of the rendered headline holds a newline |
| Footer.IsWs | src/components/sections/footer.tsx:157 | the ECMAScript `\s` class (white space and line terminators); digits and the phone punctuation `+ - ( ) .` are never in it |
| Footer.StripWhitespace | src/components/sections/footer.tsx:157 | `replace(/\s/g, "")` never lengthens the string, and keeps its length exactly when it holds no whitespace; see the `Strip` lemmas below |
| Footer.StripHasNoWhitespace | src/components/sections/footer.tsx:157 | after `replace(/\s/g, "")` no whitespace character is left |
| Footer.StripKeepsOthers | src/components/sections/footer.tsx:157 | every non-whitespace character occurs as often as in the phone number, and whitespace does not occur |
| Footer.StripConcat | src/components/sections/footer.tsx:157 | stripping distributes over concatenation, so kept characters stay in their original order |
| Footer.StripNoWhitespace | src/components/sections/footer.tsx:157 | a string without whitespace is unchanged |
| Footer.StripIdempotent | src/components/sections/footer.tsx:157 | stripping twice equals stripping once |
| Footer.TelHref | src/components/sections/footer.tsx:157 | the target starts with `tel:` and contains no whitespace after it |
| Footer.GroupAt | src/components/sections/footer.tsx:93 | definition of `linkGroups[i]`: defined exactly for `i < length`, and then it is that group. The evidence about the link columns is in `OnlyFirstTwoGroups` |
| Footer.Render | src/components/sections/footer.tsx:63-157 | the footer headline is the rendered headline (so `Headline.BreaksBetweenLines` and `Headline.RenderBreaks` apply to it), the phone target is `TelHref` of the phone number, the center link column is shown iff there is a group 0, and the right one iff there is a group 1 |
| Footer.OnlyFirstTwoGroups | src/components/sections/footer.tsx:123 | the columns show groups 0 and 1 only; dropping every group from index 2 on leaves the footer unchanged |
| Footer.RenderFaithful | src/components/sections/footer.tsx:157 | the footer's headline reads back as the headline, and the `tel:` target is exactly the phone number's non-whitespace characters |
| Faq.IsOpen | src/components/sections/faq.tsx:208 | `openId === item.id`: with a null `openId` nothing is open, and an open id opens only the items carrying it; see `Toggled` and `AtMostOneOpen` |
| Faq.Toggled | src/components/sections/faq.tsx:117-119 | after a click on `id` that item is open iff it was closed, and every other item is closed |
| Faq.ToggleCloses | src/components/sections/faq.tsx:118 | clicking the open item gives the all-closed state; two clicks on one item from all-closed give all-closed |
| Faq.AfterClicksLastOnly | src/components/sections/faq.tsx:118 | after one or more clicks, the only item that can be open is the one clicked last |
| Faq.Rows | src/components/sections/faq.tsx:203-211 | one row per item: row `k` shows `items[k]`, is numbered `k + 1`, and is open exactly when `openId === items[k].id` |
| Faq.RowsNumberedAndKeyed | src/components/sections/faq.tsx:71 | the question at position `index` is labelled `index + 1`, and its open flag depends on its id, not its position: two items with one id show the same flag |
| Faq.OpenRowsAtMostOne | src/components/sections/faq.tsx:208 | over rows with distinct ids whose flags follow `openId`, at most one is open, and one is open iff some row is open |
| Faq.AtMostOneOpen | src/components/sections/faq.tsx:208 | with distinct ids at most one question is shown open, and one is shown iff `openId` is the id of a question |
| Faq.Accordion.constructor | src/components/sections/faq.tsx:115 | initially no question is open (`openId` is null) |
| Faq.Accordion.ToggleItem | src/components/sections/faq.tsx:117-119 | the new state is `Toggled(old state, id)`: the clicked item flips, all others are closed |
| Navbar.HasRightBorder | src/components/sections/navbar.tsx:137 | `(index + 1) % 3 !== 0` holds iff the link is not in the last of three columns |
| Navbar.HasBottomBorder | src/components/sections/navbar.tsx:140 | for the six links, `index < 3` holds iff the link is not in the last row of three columns |
| Navbar.MenuBorders | src/components/sections/navbar.tsx:30-37 | for the six fixed links, right borders on 0, 1, 3, 4 and bottom borders on 0, 1, 2 |
| Navbar.AfterClick | src/components/sections/navbar.tsx:42-43 | definition of the click dispatch: the menu button negates the flag, and a link, the call-to-action or the backdrop closes the menu. The evidence is in `TogglesParity` and `ClosedAfterNonToggle` |
| Navbar.TogglesParity | src/components/sections/navbar.tsx:42 | after only menu-button clicks the flag is flipped iff the count is odd, so two toggles restore it |
| Navbar.ClosedAfterNonToggle | src/components/sections/navbar.tsx:134 | any click sequence that ends with a link, call-to-action or backdrop click leaves the menu closed |
| Navbar.Menu.constructor | src/components/sections/navbar.tsx:40 | the menu starts closed |
| Navbar.Menu.ToggleMenu | src/components/sections/navbar.tsx:42 | `toggleMenu` negates `isOpen` |
| Navbar.Menu.CloseMenu | src/components/sections/navbar.tsx:43 | `closeMenu` always leaves the menu closed, so it is idempotent |
| Navbar.Menu.PanelShown | src/components/sections/navbar.tsx:114 | definition of the panel's `isOpen &&` guard: the panel is shown exactly when the backdrop is. The evidence is in `HandleClick` |
| Navbar.Menu.BackdropShown | src/components/sections/navbar.tsx:194 | definition of the backdrop's `isOpen &&` guard: the backdrop is shown exactly while the menu is open. The evidence is in `HandleClick` |
| Navbar.Menu.HandleClick | src/components/sections/navbar.tsx:80-201 | the menu button, links, call-to-action and backdrop each update the flag as `AfterClick` says; the menu button hides the panel and backdrop if they were shown and shows them otherwise; any other click hides both |

## Left out

- Animation: framer-motion transitions, easing curves and stagger delays such as
  `originalIndex * 0.08`. They are floating-point presentation values.
- The marquee, hero, intro and services sections, the floating badge, the page
  layout and the smooth-scroll provider. They hold static markup and one-line
  style picks.
- Content loading (the JSON import) and the type-declaration files, which
  declare types only.
- The copyright year in the footer reads the wall clock.
- CSS class strings other than the height classes. Only the boolean choice
  points (borders, open or closed) are modelled.
- Works.GetItemHeight: takes an integer index. JavaScript numbers that are not
  integers (or NaN) never occur at the call sites and are not modelled.
- Faq.Accordion.ToggleItem: React applies state updates asynchronously. The
  model applies each click in sequence, as one click per render does. Duplicate
  React `key`s are not modelled.
- Navbar.Menu.HandleClick: the links, the call-to-action and the backdrop only exist
  on screen while the menu is open. The model lets them be clicked at any time;
  they close the menu either way.
- Navbar.HasRightBorder: the right border applies only at the large breakpoint
  (`lg:border-r`, three columns). Only that three-column reading is stated.
- Navbar.HasBottomBorder: the bottom border applies at every width, so in the
  two-column layout it does not mark the last row. Only the three-column
  reading, for the six fixed links, is stated.
- The navigation bar's own `tel:` link uses the phone number without removing
  whitespace. It is not modelled, because only the footer's stripped target
  follows a rule.
