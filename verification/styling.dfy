/**
 Abstract terminal styling. The terminal colour library turns a colour object and
 a text into a string carrying escape codes; here that string is a sequence of
 (style, text) segments, so concatenating two coloured strings is appending
 their segment sequences, and the empty Go string is the empty sequence.
 */
module Styling {

  /** The colour objects the row formatter uses. `DefaultText` and `DiffTerminal`
      stand for the theme's configurable colours, `Copied` for cyan on blue,
      and `Unstyled` for text concatenated without any colour object. */
  datatype Style =
    | Red | Yellow | Green | Blue | Cyan | Magenta
    | BoldMagenta | DefaultText | DiffTerminal | Copied | Unstyled

  datatype Segment = Segment(style: Style, text: string)

  type Styled = seq<Segment>

  /** The text a reader sees, with every style dropped. */
  function Text(s: Styled): string
  {
    if |s| == 0 then "" else s[0].text + Text(s[1..])
  }

  /** `color.Sprint`: the whole text in one style. */
  function Sprint(style: Style, text: string): (s: Styled)
    ensures |s| == 1 && s[0].style == style
    ensures Text(s) == text
  {
    [Segment(style, text)]
  }

  /** A literal string concatenated without a colour object. */
  function Raw(text: string): (s: Styled)
    ensures |s| == 1 && s[0].style == Unstyled
    ensures Text(s) == text
  {
    [Segment(Unstyled, text)]
  }

  /** Dropping styles commutes with concatenation. */
  lemma {:induction false} TextAppend(a: Styled, b: Styled)
    ensures Text(a + b) == Text(a) + Text(b)
    decreases |a|
  {
    if |a| == 0 {
      assert a + b == b;
    } else {
      assert (a + b)[0] == a[0];
      assert (a + b)[1..] == a[1..] + b;
      TextAppend(a[1..], b);
    }
  }
}
