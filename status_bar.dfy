/**
 * The hint line of src/tui/StatusBar.cpp: the list of key hints the bar
 * holds, the text formatHints joins them into, and the width hintsWidth
 * counts for it without building that text.
 */
module StatusBars {
  import opened Utf8
  import Styles

  /** A key combination and what it does, e.g. "Ctrl+C" and "Quit". */
  datatype KeyHint = KeyHint(key: Bytes, action: Bytes)

  datatype StatusBarStyle = StatusBarStyle(
    background: Styles.Style, keyStyle: Styles.Style, actionStyle: Styles.Style,
    separator: Styles.Style, separatorChar: Bytes)

  /** A default-constructed StatusBarStyle: plain styles, two spaces between hints. */
  const DefaultMembers := StatusBarStyle(Styles.Plain, Styles.Plain, Styles.Plain, Styles.Plain, "  ")

  /** One hint as the bar shows it: the key, a space, the action. */
  function HintText(h: KeyHint): (r: Bytes)
    ensures |r| == |h.key| + 1 + |h.action|
  {
    h.key + [' '] + h.action
  }

  /** The hints' texts, sep between each two of them. */
  function Joined(hints: seq<KeyHint>, sep: Bytes): Bytes
    decreases |hints|
  {
    if hints == [] then []
    else if |hints| == 1 then HintText(hints[0])
    else Joined(hints[..|hints| - 1], sep) + sep + HintText(hints[|hints| - 1])
  }

  /** The sum of the hints' own widths, key, space and action. */
  function HintsLength(hints: seq<KeyHint>): nat
    decreases |hints|
  {
    if hints == [] then 0 else HintsLength(hints[..|hints| - 1]) + |HintText(hints[|hints| - 1])|
  }

  /** defaultStatusBarStyle: a dark indexed background, bold light-blue keys, a dim separator. */
  function DefaultStatusBarStyle(): (s: StatusBarStyle)
    ensures s.background.bg == Styles.Indexed(236) && s.background.fg == Styles.Indexed(252)
    ensures s.keyStyle.bold && s.keyStyle.fg == Styles.Rgb(130, 180, 255)
    ensures s.actionStyle.fg == Styles.Indexed(252) && !s.actionStyle.bold
    ensures s.separator.dim && s.separator.fg == Styles.Default
    ensures s.separatorChar == "  "
  {
    var p := Styles.Plain;
    DefaultMembers.(
      background := p.(bg := Styles.Indexed(236), fg := Styles.Indexed(252)),
      keyStyle := p.(bold := true, fg := Styles.Rgb(130, 180, 255)),
      actionStyle := p.(fg := Styles.Indexed(252)),
      separator := p.(dim := true))
  }

  class StatusBar {
    var hints: seq<KeyHint>
    var leftText: Bytes
    var centerText: Bytes
    var rightText: Bytes
    var style: StatusBarStyle

    constructor()
      ensures hints == [] && leftText == [] && centerText == [] && rightText == []
      ensures style == DefaultMembers
    {
      hints := [];
      leftText := [];
      centerText := [];
      rightText := [];
      style := DefaultMembers;
    }

    method SetHints(hints: seq<KeyHint>)
      modifies this
      ensures this.hints == hints
      ensures leftText == old(leftText) && centerText == old(centerText) && rightText == old(rightText)
      ensures style == old(style)
    {
      this.hints := hints;
    }

    method AddHint(key: Bytes, action: Bytes)
      modifies this
      ensures hints == old(hints) + [KeyHint(key, action)]
      ensures leftText == old(leftText) && centerText == old(centerText) && rightText == old(rightText)
      ensures style == old(style)
    {
      hints := hints + [KeyHint(key, action)];
    }

    method ClearHints()
      modifies this
      ensures hints == []
      ensures leftText == old(leftText) && centerText == old(centerText) && rightText == old(rightText)
      ensures style == old(style)
    {
      hints := [];
    }

    method SetLeftText(text: Bytes)
      modifies this
      ensures leftText == text && hints == old(hints)
      ensures centerText == old(centerText) && rightText == old(rightText) && style == old(style)
    {
      leftText := text;
    }

    method SetCenterText(text: Bytes)
      modifies this
      ensures centerText == text && hints == old(hints)
      ensures leftText == old(leftText) && rightText == old(rightText) && style == old(style)
    {
      centerText := text;
    }

    method SetRightText(text: Bytes)
      modifies this
      ensures rightText == text && hints == old(hints)
      ensures leftText == old(leftText) && centerText == old(centerText) && style == old(style)
    {
      rightText := text;
    }

    method SetStyle(style: StatusBarStyle)
      modifies this
      ensures this.style == style && hints == old(hints)
      ensures leftText == old(leftText) && centerText == old(centerText) && rightText == old(rightText)
    {
      this.style := style;
    }

    /** formatHints: the hints joined by the separator, built front to back. */
    method FormatHints() returns (result: Bytes)
      ensures result == Joined(hints, style.separatorChar)
    {
      result := [];
      var first := true;
      for i := 0 to |hints|
        invariant first <==> i == 0
        invariant result == Joined(hints[..i], style.separatorChar)
      {
        if !first {
          result := result + style.separatorChar;
        }
        first := false;
        result := result + hints[i].key;
        result := result + [' '];
        result := result + hints[i].action;
        assert hints[..i + 1][..i] == hints[..i];
      }
      assert hints[..|hints|] == hints;
    }

    /** hintsWidth: the byte length of what formatHints builds, counted without building it. */
    method HintsWidth() returns (width: int)
      ensures width == |Joined(hints, style.separatorChar)|
    {
      width := 0;
      for i := 0 to |hints|
        invariant width == |Joined(hints[..i], style.separatorChar)|
      {
        if i > 0 {
          width := width + |style.separatorChar|;
        }
        width := width + |hints[i].key|;
        width := width + 1;
        width := width + |hints[i].action|;
        assert hints[..i + 1][..i] == hints[..i];
      }
      assert hints[..|hints|] == hints;
    }
  }
}
