/**
 * The Text component of src/tui/Text.cpp: styled lines made of spans, built
 * by splitting a string on '\n', joined back by text(), and re-cut to a
 * width by wrap() in word or character mode.
 *
 * The character mode of wrap counts columns the way truncate does and, like
 * it, ends a piece right after a lead byte, so the next piece starts with
 * that codepoint's continuation bytes. ChunksAsWritten models that loop;
 * Chunks moves each cut to the next codepoint boundary and is what Wrap uses.
 */
module Texts {
  import opened Utf8
  import opened TextWidth
  import opened WordWraps
  import TextWidthProps
  import Styles

  datatype TextSpan = TextSpan(text: Bytes, style: Styles.Style)

  datatype TextLine = TextLine(spans: seq<TextSpan>)

  datatype TextAlign = Left | Center | Right

  /** None keeps lines as they are; Char cuts at columns; Word cuts between words. */
  datatype WrapMode = None | Char | Word

  /** The spans' texts, in order. */
  function SpansText(spans: seq<TextSpan>): Bytes
  {
    if spans == [] then [] else SpansText(spans[..|spans| - 1]) + spans[|spans| - 1].text
  }

  function LineText(line: TextLine): Bytes
  {
    SpansText(line.spans)
  }

  lemma SpansTextSnoc(spans: seq<TextSpan>, i: nat)
    requires i < |spans|
    ensures SpansText(spans[..i + 1]) == SpansText(spans[..i]) + spans[i].text
  {
    assert spans[..i + 1][..i] == spans[..i];
  }

  /** TextLine::append: one more span at the end, so the line's text grows by text. */
  function Append(line: TextLine, text: Bytes, style: Styles.Style): (r: TextLine)
    ensures |r.spans| == |line.spans| + 1 && r.spans[..|line.spans|] == line.spans
    ensures r.spans[|line.spans|] == TextSpan(text, style)
    ensures LineText(r) == LineText(line) + text
  {
    var r := TextLine(line.spans + [TextSpan(text, style)]);
    assert r.spans[..|line.spans|] == line.spans;
    r
  }

  /** TextLine::width: the display widths of the spans, added up. */
  method LineWidth(line: TextLine) returns (total: int)
    ensures total == Width(LineText(line))
  {
    total := 0;
    var i := 0;
    while i < |line.spans|
      invariant 0 <= i <= |line.spans| && total == Width(SpansText(line.spans[..i]))
    {
      var w := DisplayWidth(line.spans[i].text);
      SpansTextSnoc(line.spans, i);
      TextWidthProps.WidthAppend(SpansText(line.spans[..i]), line.spans[i].text);
      total := total + w;
      i := i + 1;
    }
    assert line.spans[..i] == line.spans;
  }

  // ---------------------------------------------------------------------------
  // setText and text()

  /** std::string_view::find of one byte from start; npos is |s|. */
  function Find(s: Bytes, c: Byte, start: nat): (r: nat)
    requires start <= |s|
    ensures start <= r <= |s| && (r < |s| ==> s[r] == c)
    ensures forall k :: start <= k < r ==> s[k] != c
    decreases |s| - start
  {
    if start == |s| || s[start] == c then start else Find(s, c, start + 1)
  }

  /** The pieces setText cuts from content[start..]: up to each '\n', and the rest. */
  function Pieces(content: Bytes, start: nat): seq<Bytes>
    requires start <= |content|
    decreases |content| - start
  {
    if start == |content| then []
    else
      var end := Find(content, '\n', start);
      if end == |content| then [content[start..]]
      else [content[start..end]] + Pieces(content, end + 1)
  }

  /** One single-span line per piece of text, all in one style. */
  function Single(texts: seq<Bytes>, style: Styles.Style): (r: seq<TextLine>)
    ensures |r| == |texts| && forall j :: 0 <= j < |r| ==> LineText(r[j]) == texts[j]
  {
    var r := seq(|texts|, j requires 0 <= j < |texts| => TextLine([TextSpan(texts[j], style)]));
    forall j | 0 <= j < |r|
      ensures LineText(r[j]) == texts[j]
    {
      OneSpan(TextSpan(texts[j], style));
    }
    r
  }

  lemma OneSpan(span: TextSpan)
    ensures SpansText([span]) == span.text
  {
    assert [span][..0] == [];
  }

  /** The lines setText leaves: one per piece, or one empty line when there is none. */
  function SplitLines(content: Bytes, style: Styles.Style): seq<TextLine>
  {
    var pieces := Pieces(content, 0);
    if pieces == [] then [TextLine([])] else Single(pieces, style)
  }

  /** Texts joined with '\n' between them. */
  function JoinNewline(texts: seq<Bytes>): Bytes
  {
    if texts == [] then []
    else if |texts| == 1 then texts[0]
    else texts[0] + ['\n'] + JoinNewline(texts[1..])
  }

  function LineTexts(lines: seq<TextLine>): (r: seq<Bytes>)
    ensures |r| == |lines| && forall j :: 0 <= j < |r| ==> r[j] == LineText(lines[j])
  {
    seq(|lines|, j requires 0 <= j < |lines| => LineText(lines[j]))
  }

  /** What text() returns for lines. */
  function JoinLines(lines: seq<TextLine>): Bytes
  {
    JoinNewline(LineTexts(lines))
  }

  lemma {:induction false} JoinNewlineSnoc(texts: seq<Bytes>, t: Bytes)
    requires texts != []
    ensures JoinNewline(texts + [t]) == JoinNewline(texts) + ['\n'] + t
    decreases |texts|
  {
    var s := texts + [t];
    if |texts| == 1 {
      assert s[1..] == [t];
    } else {
      assert s[1..] == texts[1..] + [t];
      JoinNewlineSnoc(texts[1..], t);
    }
  }

  // ---------------------------------------------------------------------------
  // wrap

  /**
   * The style wrap gives the pieces of a line: the style of the first span
   * with text, or of the last span when none has text, or the default style
   * for a line without spans. The source picks it while concatenating, as
   * the style of the last span before which nothing had been concatenated.
   */
  function DefaultStyle(spans: seq<TextSpan>): Styles.Style
  {
    if spans == [] then Styles.Plain
    else if SpansText(spans[..|spans| - 1]) == [] then spans[|spans| - 1].style
    else DefaultStyle(spans[..|spans| - 1])
  }

  /** The character-mode pieces as the source cuts them: a lead byte ends each piece. */
  function ChunksAsWritten(rest: Bytes, width: int): seq<Bytes>
    requires width > 0
    decreases |rest|
  {
    if rest == [] then []
    else
      var k := LeadCut(rest, width, 0);
      assert k >= 1 by { assert rest[..0] == []; }
      [rest[..k]] + ChunksAsWritten(rest[k..], width)
  }

  /** The character-mode pieces with each cut at the next codepoint boundary. */
  function Chunks(rest: Bytes, width: int): seq<Bytes>
    requires width > 0
    decreases |rest|
  {
    if rest == [] then []
    else
      var k := BoundaryCut(rest, width, 0);
      assert k >= 1 by { assert rest[..0] == []; }
      [rest[..k]] + Chunks(rest[k..], width)
  }

  /** wrapped lines: what wordWrap's contract allows for text at width. */
  predicate WordWrapped(text: Bytes, width: int, lines: seq<Bytes>)
  {
    |lines| >= 1 && WordsOfLines(lines) == Words(text) &&
    forall j :: 0 <= j < |lines| ==> LineOk(lines[j], width)
  }

  /**
   * What wrap makes of one line: the line itself when it fits, and
   * otherwise single-span lines in its default style, holding wordWrap's
   * lines in word mode and Chunks in character mode.
   */
  predicate WrapsTo(line: TextLine, mode: WrapMode, width: int, texts: seq<Bytes>, block: seq<TextLine>)
    requires width > 0
  {
    var full := LineText(line);
    if Width(full) <= width then block == [line]
    else
      block == Single(texts, DefaultStyle(line.spans)) &&
      (mode == Word ==> WordWrapped(full, width, texts)) &&
      (mode != Word ==> texts == Chunks(full, width))
  }

  function Concat<T>(blocks: seq<seq<T>>): seq<T>
  {
    if blocks == [] then [] else Concat(blocks[..|blocks| - 1]) + blocks[|blocks| - 1]
  }

  lemma ConcatSnoc<T>(blocks: seq<seq<T>>, b: seq<T>)
    ensures Concat(blocks + [b]) == Concat(blocks) + b
  {
    assert (blocks + [b])[..|blocks|] == blocks;
  }

  /** The character mode as written: pieces cut where the source's inner loop stops. */
  method ChunkAsWritten(full: Bytes, width: int) returns (pieces: seq<Bytes>)
    requires width > 0
    ensures pieces == ChunksAsWritten(full, width)
  {
    pieces := [];
    var pos := 0;
    while pos < |full|
      invariant 0 <= pos <= |full|
      invariant pieces + ChunksAsWritten(full[pos..], width) == ChunksAsWritten(full, width)
    {
      var lineLen := LeadLength(full[pos..], width);
      ChunkSlices(full, pos, lineLen);
      pieces := pieces + [full[pos..pos + lineLen]];
      pos := pos + lineLen;
    }
  }

  /** The inner loop as written: count bytes until width columns have started. */
  method LeadLength(rest: Bytes, width: int) returns (lineLen: nat)
    requires width > 0 && rest != []
    ensures lineLen == LeadCut(rest, width, 0) && 1 <= lineLen <= |rest|
  {
    lineLen := 0;
    var lineWidth := 0;
    while lineLen < |rest| && lineWidth < width
      invariant 0 <= lineLen <= |rest| && lineWidth == Width(rest[..lineLen])
      invariant LeadCut(rest, width, lineLen) == LeadCut(rest, width, 0)
    {
      WidthSnoc(rest, lineLen);
      if !IsContinuation(rest[lineLen]) {
        lineWidth := lineWidth + 1;
      }
      lineLen := lineLen + 1;
    }
    assert rest[..0] == [];
  }

  /** The character mode, taking the continuation bytes of the last codepoint too. */
  method Chunk(full: Bytes, width: int) returns (pieces: seq<Bytes>)
    requires width > 0
    ensures pieces == Chunks(full, width)
  {
    pieces := [];
    var pos := 0;
    while pos < |full|
      invariant 0 <= pos <= |full|
      invariant pieces + Chunks(full[pos..], width) == Chunks(full, width)
    {
      var lineLen := BoundaryLength(full[pos..], width);
      ChunkSlices(full, pos, lineLen);
      pieces := pieces + [full[pos..pos + lineLen]];
      pos := pos + lineLen;
    }
  }

  /** The inner loop, which also runs on over continuation bytes once width columns have started. */
  method BoundaryLength(rest: Bytes, width: int) returns (lineLen: nat)
    requires width > 0 && rest != []
    ensures lineLen == BoundaryCut(rest, width, 0) && 1 <= lineLen <= |rest|
  {
    lineLen := 0;
    var lineWidth := 0;
    while lineLen < |rest| && (lineWidth < width || IsContinuation(rest[lineLen]))
      invariant 0 <= lineLen <= |rest| && lineWidth == Width(rest[..lineLen])
      invariant BoundaryCut(rest, width, lineLen) == BoundaryCut(rest, width, 0)
    {
      WidthSnoc(rest, lineLen);
      if !IsContinuation(rest[lineLen]) {
        lineWidth := lineWidth + 1;
      }
      lineLen := lineLen + 1;
    }
    assert rest[..0] == [];
  }

  lemma ChunkSlices(full: Bytes, pos: nat, k: nat)
    requires pos + k <= |full|
    ensures full[pos..pos + k] == full[pos..][..k] && full[pos + k..] == full[pos..][k..]
  {
  }

  class Text {
    var lines: seq<TextLine>
    var align: TextAlign
    var wrapMode: WrapMode
    var maxWidth: int

    /** Text(): no lines at all, left-aligned, word wrap, no width limit. */
    constructor()
      ensures lines == [] && align == Left && wrapMode == Word && maxWidth == 0
    {
      lines := [];
      align := Left;
      wrapMode := Word;
      maxWidth := 0;
    }

    /** Text(content, style): the defaults, then setText. */
    constructor FromContent(content: Bytes, style: Styles.Style)
      ensures lines == SplitLines(content, style) && align == Left && wrapMode == Word && maxWidth == 0
    {
      align := Left;
      wrapMode := Word;
      maxWidth := 0;
      new;
      SetText(content, style);
    }

    /** setText: one single-span line per '\n'-separated piece, at least one line. */
    method SetText(content: Bytes, style: Styles.Style)
      modifies this
      ensures lines == SplitLines(content, style)
      ensures align == old(align) && wrapMode == old(wrapMode) && maxWidth == old(maxWidth)
    {
      lines := BuildLines(content, style);
    }

    method SetLines(newLines: seq<TextLine>)
      modifies this
      ensures lines == newLines
      ensures align == old(align) && wrapMode == old(wrapMode) && maxWidth == old(maxWidth)
    {
      lines := newLines;
    }

    /** text(): the lines' texts joined with '\n'. */
    method AsString() returns (result: Bytes)
      ensures result == JoinLines(lines)
    {
      result := [];
      var i := 0;
      while i < |lines|
        invariant 0 <= i <= |lines| && result == JoinNewline(LineTexts(lines[..i]))
      {
        var lineText := LineText(lines[i]);
        ghost var before := LineTexts(lines[..i]);
        assert LineTexts(lines[..i + 1]) == before + [lineText];
        if i > 0 {
          result := result + ['\n'];
          JoinNewlineSnoc(before, lineText);
        } else {
          assert before == [];
        }
        result := result + lineText;
        i := i + 1;
      }
      assert lines[..i] == lines;
    }

    method SetAlign(a: TextAlign)
      modifies this
      ensures align == a && lines == old(lines) && wrapMode == old(wrapMode) && maxWidth == old(maxWidth)
    {
      align := a;
    }

    method SetWrapMode(mode: WrapMode)
      modifies this
      ensures wrapMode == mode && lines == old(lines) && align == old(align) && maxWidth == old(maxWidth)
    {
      wrapMode := mode;
    }

    method SetMaxWidth(width: int)
      modifies this
      ensures maxWidth == width && lines == old(lines) && align == old(align) && wrapMode == old(wrapMode)
    {
      maxWidth := width;
    }

    /**
     * wrap(width): the lines as they are for WrapMode::None or width <= 0;
     * otherwise, line by line, what WrapsTo allows, in order.
     */
    method Wrap(width: int) returns (result: seq<TextLine>, ghost texts: seq<seq<Bytes>>, ghost blocks: seq<seq<TextLine>>)
      ensures wrapMode == None || width <= 0 ==> result == lines
      ensures wrapMode != None && width > 0 ==>
                |texts| == |blocks| == |lines| && result == Concat(blocks) &&
                forall i :: 0 <= i < |lines| ==> WrapsTo(lines[i], wrapMode, width, texts[i], blocks[i])
    {
      texts, blocks := [], [];
      if wrapMode == None || width <= 0 {
        return lines, texts, blocks;
      }
      result, texts, blocks := WrapLines(lines, wrapMode, width);
    }
  }

  /** The outer loop of wrap, line by line. */
  method WrapLines(ls: seq<TextLine>, mode: WrapMode, width: int)
    returns (result: seq<TextLine>, ghost texts: seq<seq<Bytes>>, ghost blocks: seq<seq<TextLine>>)
    requires mode != None && width > 0
    ensures |texts| == |blocks| == |ls| && result == Concat(blocks)
    ensures forall i :: 0 <= i < |ls| ==> WrapsTo(ls[i], mode, width, texts[i], blocks[i])
  {
    texts, blocks := [], [];
    result := [];
    var i := 0;
    while i < |ls|
      invariant 0 <= i <= |ls| && |texts| == |blocks| == i && result == Concat(blocks)
      invariant forall j :: 0 <= j < i ==> WrapsTo(ls[j], mode, width, texts[j], blocks[j])
    {
      var pieces, block := WrapLine(ls[i], mode, width);
      ConcatSnoc(blocks, block);
      result := result + block;
      texts, blocks := texts + [pieces], blocks + [block];
      i := i + 1;
    }
  }

  /** The loop of setText: one single-span line per '\n'-separated piece, at least one line. */
  method BuildLines(content: Bytes, style: Styles.Style) returns (built: seq<TextLine>)
    ensures built == SplitLines(content, style)
  {
    built := [];
    var start := 0;
    ghost var pieces: seq<Bytes> := [];
    while start < |content|
      invariant 0 <= start <= |content|
      invariant pieces + Pieces(content, start) == Pieces(content, 0)
      invariant built == Single(pieces, style)
    {
      var end := Find(content, '\n', start);
      var piece;
      if end == |content| {
        piece := content[start..];
      } else {
        piece := content[start..end];
      }
      PiecesStep(content, start, pieces);
      SingleSnoc(pieces, piece, style);
      start := if end == |content| then |content| else end + 1;
      built := built + [Append(TextLine([]), piece, style)];
      pieces := pieces + [piece];
    }
    if built == [] {
      built := [TextLine([])];
    }
  }

  /** Taking one piece off the front keeps the pieces seen plus the pieces left the same. */
  lemma PiecesStep(content: Bytes, start: nat, pieces: seq<Bytes>)
    requires start < |content|
    ensures var end := Find(content, '\n', start);
            var piece := if end == |content| then content[start..] else content[start..end];
            var next := if end == |content| then |content| else end + 1;
            pieces + Pieces(content, start) == (pieces + [piece]) + Pieces(content, next)
  {
  }

  lemma SingleSnoc(texts: seq<Bytes>, text: Bytes, style: Styles.Style)
    ensures Single(texts + [text], style) == Single(texts, style) + [Append(TextLine([]), text, style)]
  {
    assert [TextSpan(text, style)] == [] + [TextSpan(text, style)];
  }

  /** One pass of the outer loop of wrap: what becomes of one line. */
  method WrapLine(inputLine: TextLine, mode: WrapMode, width: int) returns (pieces: seq<Bytes>, block: seq<TextLine>)
    requires mode != None && width > 0
    ensures WrapsTo(inputLine, mode, width, pieces, block)
  {
    var fullText, defaultStyle := Flatten(inputLine);
    var fullWidth := DisplayWidth(fullText);
    pieces := [];
    if fullWidth <= width {
      block := [inputLine];
    } else {
      if mode == Word {
        pieces := WordWrap(fullText, width);
      } else {
        pieces := Chunk(fullText, width);
      }
      block := Single(pieces, defaultStyle);
    }
  }

  /** The first loop of wrap: the line's text, and the style its pieces get. */
  method Flatten(line: TextLine) returns (fullText: Bytes, defaultStyle: Styles.Style)
    ensures fullText == LineText(line) && defaultStyle == DefaultStyle(line.spans)
  {
    fullText := [];
    defaultStyle := Styles.Plain;
    var i := 0;
    while i < |line.spans|
      invariant 0 <= i <= |line.spans|
      invariant fullText == SpansText(line.spans[..i]) && defaultStyle == DefaultStyle(line.spans[..i])
    {
      var span := line.spans[i];
      SpansTextSnoc(line.spans, i);
      assert line.spans[..i + 1][..i] == line.spans[..i];
      fullText := fullText + span.text;
      if |fullText| == |span.text| {
        defaultStyle := span.style;
      }
      i := i + 1;
    }
    assert line.spans[..i] == line.spans;
  }
}
