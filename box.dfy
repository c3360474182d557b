/**
 * Box (src/tui/Box.cpp): a bordered rectangle. Its geometry is a handful of
 * max-and-plus expressions over the configuration, its border glyphs come
 * from one switch over the border style, and render() writes the border
 * through a TerminalOutput.
 */
module Boxes {
  import opened Utf8
  import opened Decimal
  import opened CharConv
  import Options
  import Styles
  import VtParser
  import VtParserProps
  import T = TerminalOutputs

  datatype BorderStyle = None | Single | Double | Rounded | Heavy | Dashed

  datatype TitleAlign = Left | Center | Right

  /** The eleven glyphs of a border, each a UTF-8 string. */
  datatype BorderChars = BorderChars(
    horizontal: Bytes, vertical: Bytes,
    topLeft: Bytes, topRight: Bytes, bottomLeft: Bytes, bottomRight: Bytes,
    leftT: Bytes, rightT: Bytes, topT: Bytes, bottomT: Bytes, cross: Bytes)

  function AllChars(b: BorderChars): seq<Bytes>
  {
    [b.horizontal, b.vertical, b.topLeft, b.topRight, b.bottomLeft, b.bottomRight,
     b.leftT, b.rightT, b.topT, b.bottomT, b.cross]
  }

  datatype BoxConfig = BoxConfig(
    row: I32, col: I32, width: I32, height: I32,
    border: BorderStyle, borderStyle: Styles.Style,
    title: Options.Option<Bytes>, titleAlign: TitleAlign, titleStyle: Styles.Style,
    paddingLeft: I32, paddingRight: I32, paddingTop: I32, paddingBottom: I32,
    fillBackground: bool, backgroundStyle: Styles.Style)

  /** The member initialisers of BoxConfig. */
  const DefaultConfig := BoxConfig(
    1, 1, 0, 0, Rounded, Styles.Plain, Options.None, Left, Styles.Plain, 1, 1, 0, 0, false, Styles.Plain)

  datatype Box = Box(config: BoxConfig)

  // ---------------------------------------------------------------------
  // Border glyphs

  /** The glyphs of the given codepoints, in field order. */
  function Glyphs(cps: seq<U32>): BorderChars
    requires |cps| == 11
  {
    BorderChars(EncodeUtf8(cps[0]), EncodeUtf8(cps[1]), EncodeUtf8(cps[2]), EncodeUtf8(cps[3]),
                EncodeUtf8(cps[4]), EncodeUtf8(cps[5]), EncodeUtf8(cps[6]), EncodeUtf8(cps[7]),
                EncodeUtf8(cps[8]), EncodeUtf8(cps[9]), EncodeUtf8(cps[10]))
  }

  /** The codepoints of a drawn border, in field order. */
  function Codepoints(style: BorderStyle): seq<U32>
    requires style != None
  {
    match style
    case Single => [0x2500, 0x2502, 0x250C, 0x2510, 0x2514, 0x2518, 0x251C, 0x2524, 0x252C, 0x2534, 0x253C]
    case Double => [0x2550, 0x2551, 0x2554, 0x2557, 0x255A, 0x255D, 0x2560, 0x2563, 0x2566, 0x2569, 0x256C]
    case Rounded => [0x2500, 0x2502, 0x256D, 0x256E, 0x2570, 0x256F, 0x251C, 0x2524, 0x252C, 0x2534, 0x253C]
    case Heavy => [0x2501, 0x2503, 0x250F, 0x2513, 0x2517, 0x251B, 0x2523, 0x252B, 0x2533, 0x253B, 0x254B]
    case Dashed => [0x254C, 0x254E, 0x250C, 0x2510, 0x2514, 0x2518, 0x251C, 0x2524, 0x252C, 0x2534, 0x253C]
  }

  const Blank: Bytes := " "

  function FromStyle(style: BorderStyle): BorderChars
  {
    if style == None then BorderChars(Blank, Blank, Blank, Blank, Blank, Blank, Blank, Blank, Blank, Blank, Blank)
    else Glyphs(Codepoints(style))
  }

  // ---------------------------------------------------------------------
  // Geometry

  /** Columns (or rows) the border takes at each edge: 0 without a border, 1 with one. */
  function Edge(c: BoxConfig): int
  {
    if c.border == None then 0 else 1
  }

  function InnerWidth(b: Box): int
  {
    var c := b.config;
    Max(0, c.width - 2 * Edge(c) - c.paddingLeft - c.paddingRight)
  }

  function InnerHeight(b: Box): int
  {
    var c := b.config;
    Max(0, c.height - 2 * Edge(c) - c.paddingTop - c.paddingBottom)
  }

  function ContentStartRow(b: Box): int
  {
    b.config.row + Edge(b.config) + b.config.paddingTop
  }

  function ContentStartCol(b: Box): int
  {
    b.config.col + Edge(b.config) + b.config.paddingLeft
  }

  function Max(a: int, b: int): int
  {
    if a >= b then a else b
  }

  function SetConfig(b: Box, config: BoxConfig): (r: Box)
    ensures r.config == config
  {
    Box(config)
  }

  /** render() draws only a box of at least 2x2 cells. */
  predicate Drawable(b: Box)
  {
    b.config.width >= 2 && b.config.height >= 2
  }

  // ---------------------------------------------------------------------
  // Rendering

  /**
   * render(): the top border (with the title, if any), the side borders,
   * the bottom border, then the background fill when asked for. The
   * escape sequences it writes are those of TerminalOutput; what is stated
   * here is that it writes nothing for a box under 2x2 and otherwise only
   * appends.
   */
  method Render(b: Box, output: T.TerminalOutput)
    modifies output
    ensures !Drawable(b) ==> output.buffer == old(output.buffer)
    ensures Drawable(b) ==> |output.buffer| > |old(output.buffer)|
    ensures Grew(output)
  {
    var c := b.config;
    if c.width < 2 || c.height < 2 {
      return;
    }
    var chars := FromStyle(c.border);
    RenderTopBorder(b, output, chars);
    RenderSideBorders(b, output, chars);
    RenderBottomBorder(b, output, chars);
    if c.fillBackground {
      ClearContent(b, output);
    }
  }

  /** Appending keeps what was there as a prefix. */
  twostate predicate Grew(output: T.TerminalOutput)
    reads output
  {
    old(output.buffer) <= output.buffer && output.cols == old(output.cols) && output.rows == old(output.rows)
  }

  method RenderTopBorder(b: Box, output: T.TerminalOutput, chars: BorderChars)
    requires Drawable(b)
    modifies output
    ensures Grew(output) && |output.buffer| > |old(output.buffer)|
  {
    var c := b.config;
    output.MoveTo(c.row, c.col);
    output.Write(chars.topLeft, c.borderStyle);
    var innerWidth := c.width - 2;
    if c.title.Some? && c.title.value != [] {
      RenderTitle(c, output, chars, innerWidth);
    } else {
      WriteRepeated(output, chars.horizontal, c.borderStyle, innerWidth);
    }
    output.Write(chars.topRight, c.borderStyle);
  }

  /** The title, cut to innerWidth - 2 bytes, between horizontal lines placed as titleAlign says. */
  method RenderTitle(c: BoxConfig, output: T.TerminalOutput, chars: BorderChars, innerWidth: int)
    requires c.title.Some?
    modifies output
    ensures Grew(output)
  {
    var title := c.title.value;
    var titleLen := |title|;
    var maxTitleLen := Max(0, innerWidth - 2);
    var displayTitle := title;
    if titleLen > maxTitleLen {
      displayTitle := title[..maxTitleLen];
    }
    var actualTitleLen := |displayTitle|;
    var leftPad := 0;
    var rightPad := innerWidth - actualTitleLen;
    match c.titleAlign {
      case Left =>
        leftPad := 1;
        rightPad := innerWidth - actualTitleLen - 1;
      case Center =>
        leftPad := TruncDiv(innerWidth - actualTitleLen, 2);
        rightPad := innerWidth - actualTitleLen - leftPad;
      case Right =>
        rightPad := 1;
        leftPad := innerWidth - actualTitleLen - 1;
    }
    WriteRepeated(output, chars.horizontal, c.borderStyle, leftPad);
    output.Write(displayTitle, c.titleStyle);
    WriteRepeated(output, chars.horizontal, c.borderStyle, rightPad);
  }

  method RenderBottomBorder(b: Box, output: T.TerminalOutput, chars: BorderChars)
    requires Drawable(b)
    modifies output
    ensures Grew(output)
  {
    var c := b.config;
    var bottomRow := c.row + c.height - 1;
    output.MoveTo(Int32(bottomRow), c.col);
    output.Write(chars.bottomLeft, c.borderStyle);
    WriteRepeated(output, chars.horizontal, c.borderStyle, c.width - 2);
    output.Write(chars.bottomRight, c.borderStyle);
  }

  method RenderSideBorders(b: Box, output: T.TerminalOutput, chars: BorderChars)
    modifies output
    ensures Grew(output)
  {
    var c := b.config;
    var rightCol := c.col + c.width - 1;
    var row := c.row + 1;
    while row < c.row + c.height - 1
      invariant Grew(output)
      decreases c.row + c.height - 1 - row
    {
      output.MoveTo(Int32(row), c.col);
      output.Write(chars.vertical, c.borderStyle);
      output.MoveTo(Int32(row), Int32(rightCol));
      output.Write(chars.vertical, c.borderStyle);
      row := row + 1;
    }
  }

  /** clearContent(): one row of spaces per content row, inside the padding. */
  method ClearContent(b: Box, output: T.TerminalOutput)
    modifies output
    ensures Grew(output)
  {
    var startRow := ContentStartRow(b);
    var startCol := ContentStartCol(b);
    var width := InnerWidth(b);
    var height := InnerHeight(b);
    var spaces := Spaces(width);
    var row := startRow;
    while row < startRow + height
      invariant Grew(output)
      decreases startRow + height - row
    {
      output.MoveTo(Int32(row), Int32(startCol));
      output.Write(spaces, b.config.backgroundStyle);
      row := row + 1;
    }
  }

  /** The `for (i = 0; i < count; ++i) output.write(glyph, style)` loops. */
  method WriteRepeated(output: T.TerminalOutput, glyph: Bytes, style: Styles.Style, count: int)
    modifies output
    ensures Grew(output)
  {
    var i := 0;
    while i < count
      invariant Grew(output)
      decreases count - i
    {
      output.Write(glyph, style);
      i := i + 1;
    }
  }

  function Spaces(n: nat): (r: Bytes)
    ensures |r| == n && forall i :: 0 <= i < n ==> r[i] == ' '
  {
    if n == 0 then [] else Spaces(n - 1) + [' ']
  }

  /** An int result taken back to 32 bits; signed overflow, undefined in C++, is modelled as wrap-around. */
  function Int32(x: int): I32
  {
    (x + 0x8000_0000) % 0x1_0000_0000 - 0x8000_0000
  }

  /** C++ integer division, which truncates toward zero. */
  function TruncDiv(a: int, d: int): int
    requires d > 0
  {
    if a >= 0 then a / d else -((-a) / d)
  }

  // ---------------------------------------------------------------------
  // Properties

  /** A box-drawing glyph: three bytes that decode to a codepoint in U+2500..U+257F and encode back. */
  predicate IsBoxDrawing(g: Bytes)
  {
    |g| == 3 && 0x2500 <= VtParser.DecodeUtf8(g) < 0x2580 && EncodeUtf8(VtParser.DecodeUtf8(g)) == g
  }

  lemma GlyphsAreBoxDrawing(cps: seq<U32>)
    requires |cps| == 11 && forall i | 0 <= i < 11 :: 0x2500 <= cps[i] < 0x2580
    ensures forall g | g in AllChars(Glyphs(cps)) :: IsBoxDrawing(g)
  {
    var chars := AllChars(Glyphs(cps));
    forall i | 0 <= i < 11
      ensures IsBoxDrawing(chars[i])
    {
      assert chars[i] == EncodeUtf8(cps[i]);
      VtParserProps.DecodeEncode3(cps[i]);
    }
  }

  /** Every drawn border glyph is one three-byte box-drawing character. */
  lemma BorderGlyphs(style: BorderStyle)
    requires style != None
    ensures forall g | g in AllChars(FromStyle(style)) :: IsBoxDrawing(g)
  {
    GlyphsAreBoxDrawing(Codepoints(style));
  }

  /** No border is drawn with spaces, one byte wide each. */
  lemma NoBorderIsBlank()
    ensures forall g | g in AllChars(FromStyle(None)) :: g == " "
  {
  }

  /** Rounded is Single with the four corners replaced, and those four differ. */
  lemma RoundedIsSingleWithRoundCorners()
    ensures FromStyle(Rounded)
         == FromStyle(Single).(topLeft := EncodeUtf8(0x256D), topRight := EncodeUtf8(0x256E),
                               bottomLeft := EncodeUtf8(0x2570), bottomRight := EncodeUtf8(0x256F))
    ensures FromStyle(Rounded).topLeft != FromStyle(Single).topLeft
    ensures FromStyle(Rounded).topRight != FromStyle(Single).topRight
    ensures FromStyle(Rounded).bottomLeft != FromStyle(Single).bottomLeft
    ensures FromStyle(Rounded).bottomRight != FromStyle(Single).bottomRight
  {
    DistinctGlyphs(0x256D, 0x250C);
    DistinctGlyphs(0x256E, 0x2510);
    DistinctGlyphs(0x2570, 0x2514);
    DistinctGlyphs(0x256F, 0x2518);
  }

  lemma DistinctGlyphs(a: U32, b: U32)
    requires 0x800 <= a < 0x10000 && 0x800 <= b < 0x10000 && a != b
    ensures EncodeUtf8(a) != EncodeUtf8(b)
  {
    VtParserProps.DecodeEncode3(a);
    VtParserProps.DecodeEncode3(b);
  }

  /** Dashed is Single with dashed straight lines and the same corners and junctions. */
  lemma DashedIsSingleWithDashedLines()
    ensures FromStyle(Dashed)
         == FromStyle(Single).(horizontal := EncodeUtf8(0x254C), vertical := EncodeUtf8(0x254E))
  {
  }

  /**
   * Where the content area lies: it starts after the border and the
   * leading padding, and when it is not empty it ends exactly where the
   * trailing padding and the far border begin.
   */
  lemma ContentArea(b: Box)
    ensures InnerWidth(b) >= 0 && InnerHeight(b) >= 0
    ensures ContentStartCol(b) == b.config.col + Edge(b.config) + b.config.paddingLeft
    ensures InnerWidth(b) > 0 ==>
              ContentStartCol(b) + InnerWidth(b) + b.config.paddingRight + Edge(b.config)
              == b.config.col + b.config.width
    ensures InnerWidth(b) == 0 ==>
              b.config.width <= 2 * Edge(b.config) + b.config.paddingLeft + b.config.paddingRight
    ensures InnerHeight(b) > 0 ==>
              ContentStartRow(b) + InnerHeight(b) + b.config.paddingBottom + Edge(b.config)
              == b.config.row + b.config.height
    ensures InnerHeight(b) == 0 ==>
              b.config.height <= 2 * Edge(b.config) + b.config.paddingTop + b.config.paddingBottom
  {
  }

  /** With non-negative padding and a border, the content lies strictly inside the border. */
  lemma ContentInsideBorder(b: Box)
    requires b.config.border != None
    requires b.config.paddingLeft >= 0 && b.config.paddingRight >= 0
    requires b.config.paddingTop >= 0 && b.config.paddingBottom >= 0
    requires InnerWidth(b) > 0 && InnerHeight(b) > 0
    ensures b.config.col < ContentStartCol(b)
    ensures ContentStartCol(b) + InnerWidth(b) - 1 < b.config.col + b.config.width - 1
    ensures b.config.row < ContentStartRow(b)
    ensures ContentStartRow(b) + InnerHeight(b) - 1 < b.config.row + b.config.height - 1
  {
    ContentArea(b);
  }

  /** The 20x10 single-bordered box with padding 2/2/1/1 has a 14x6 content area at (3, 4). */
  lemma InnerDimensionsExample()
    ensures var b := Box(DefaultConfig.(width := 20, height := 10, border := Single,
                                        paddingLeft := 2, paddingRight := 2, paddingTop := 1, paddingBottom := 1));
            InnerWidth(b) == 14 && InnerHeight(b) == 6 && ContentStartRow(b) == 3 && ContentStartCol(b) == 4
  {
  }
}
