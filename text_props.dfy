/** What setText, text() and wrap of src/tui/Text.cpp promise, stated on their specifications. */
module TextProps {
  import opened Utf8
  import opened TextWidth
  import opened WordWraps
  import opened Texts
  import TextWidthProps
  import Styles

  // ---------------------------------------------------------------------------
  // setText and text()

  /** No piece of setText holds a '\n'. */
  lemma {:induction false} PiecesHaveNoNewline(content: Bytes, start: nat)
    requires start <= |content|
    ensures forall j :: 0 <= j < |Pieces(content, start)| ==> '\n' !in Pieces(content, start)[j]
    decreases |content| - start
  {
    if start < |content| {
      var end := Find(content, '\n', start);
      if end < |content| {
        PiecesHaveNoNewline(content, end + 1);
      }
    }
  }

  /**
   * Joining the pieces with '\n' gives back content[start..], less the one
   * '\n' that ends content, if any.
   */
  lemma {:induction false} JoinPieces(content: Bytes, start: nat)
    requires start < |content|
    ensures JoinNewline(Pieces(content, start)) == content[start..Kept(content)]
    decreases |content| - start
  {
    var end := Find(content, '\n', start);
    var tail := Kept(content);
    if end == |content| {
      assert content[|content| - 1] != '\n';
      assert content[start..tail] == content[start..];
    } else if end + 1 == |content| {
      assert Pieces(content, start) == [content[start..end]];
    } else {
      var rest := Pieces(content, end + 1);
      assert JoinNewline(rest) == content[end + 1..tail] by {
        JoinPieces(content, end + 1);
      }
      assert Pieces(content, start) == [content[start..end]] + rest;
      assert rest != [];
      JoinCons(content[start..end], rest);
      SliceAtNewline(content, start, end, tail);
    }
  }

  /** Where the text read back ends: before the '\n' that ends content, if any. */
  function Kept(content: Bytes): (k: nat)
    requires content != []
    ensures |content| - 1 <= k <= |content|
  {
    if content[|content| - 1] == '\n' then |content| - 1 else |content|
  }

  lemma JoinCons(a: Bytes, rest: seq<Bytes>)
    requires rest != []
    ensures JoinNewline([a] + rest) == a + ['\n'] + JoinNewline(rest)
  {
    assert ([a] + rest)[1..] == rest;
  }

  lemma SliceAtNewline(content: Bytes, start: nat, end: nat, tail: nat)
    requires start <= end < tail <= |content| && content[end] == '\n'
    ensures content[start..tail] == content[start..end] + ['\n'] + content[end + 1..tail]
  {
  }

  /** The texts of the lines setText builds are its pieces. */
  lemma LineTextsOfSingle(texts: seq<Bytes>, style: Styles.Style)
    ensures LineTexts(Single(texts, style)) == texts
  {
  }

  /**
   * setText keeps at least one line and none of its lines holds a '\n';
   * text() after setText(content) gives content back, less the '\n' that
   * ends it, if any.
   */
  lemma SetTextThenText(content: Bytes, style: Styles.Style)
    ensures var lines := SplitLines(content, style);
            && |lines| >= 1
            && (forall j :: 0 <= j < |lines| ==> '\n' !in LineText(lines[j]))
            && JoinLines(lines) == if content == [] then [] else content[..Kept(content)]
  {
    var lines := SplitLines(content, style);
    var pieces := Pieces(content, 0);
    PiecesHaveNoNewline(content, 0);
    if content == [] {
      OneLineOfNothing();
    } else {
      JoinPieces(content, 0);
      assert content[0..] == content;
      LineTextsOfSingle(pieces, style);
    }
  }

  lemma OneLineOfNothing()
    ensures JoinLines([TextLine([])]) == [] && LineText(TextLine([])) == []
  {
    assert LineTexts([TextLine([])]) == [[]];
  }

  /** The "basic text" scenario: text() after setText(s) is s when s does not end in '\n'. */
  lemma RoundTrip(content: Bytes, style: Styles.Style)
    requires content == [] || content[|content| - 1] != '\n'
    ensures JoinLines(SplitLines(content, style)) == content
  {
    SetTextThenText(content, style);
  }

  /** A trailing '\n' does not come back: "a\n" reads back as "a". */
  lemma TrailingNewlineIsLost(style: Styles.Style)
    ensures JoinLines(SplitLines("a\n", style)) == "a"
  {
    SetTextThenText("a\n", style);
  }

  // ---------------------------------------------------------------------------
  // The character mode of wrap

  lemma {:induction false} ConcatCons<T>(b: seq<T>, blocks: seq<seq<T>>)
    ensures Concat([b] + blocks) == b + Concat(blocks)
    decreases |blocks|
  {
    if blocks != [] {
      var front := blocks[..|blocks| - 1];
      assert ([b] + blocks)[..|blocks|] == [b] + front;
      ConcatCons(b, front);
    }
  }

  /** A prefix is never wider than the whole. */
  lemma WidthOfPrefix(s: Bytes, i: nat)
    requires i <= |s|
    ensures Width(s[..i]) <= Width(s)
  {
    assert s == s[..i] + s[i..];
    TextWidthProps.WidthAppend(s[..i], s[i..]);
  }

  /** When the whole text fits, the intended cut takes all of it. */
  lemma {:induction false} BoundaryCutTakesAll(text: Bytes, target: int, i: nat)
    requires i <= |text| && Width(text) <= target
    ensures BoundaryCut(text, target, i) == |text|
    decreases |text| - i
  {
    if i < |text| {
      WidthSnoc(text, i);
      WidthOfPrefix(text, i + 1);
      BoundaryCutTakesAll(text, target, i + 1);
    }
  }

  /** When the whole text is narrower than target, the source's cut takes all of it. */
  lemma {:induction false} LeadCutTakesAll(text: Bytes, target: int, i: nat)
    requires i <= |text| && Width(text) < target
    ensures LeadCut(text, target, i) == |text|
    decreases |text| - i
  {
    if i < |text| {
      WidthOfPrefix(text, i);
      LeadCutTakesAll(text, target, i + 1);
    }
  }

  /** One piece of the intended cut: not empty, width columns unless it is the rest, ending on a boundary. */
  lemma BoundaryPiece(rest: Bytes, width: int)
    requires rest != [] && width > 0
    ensures var k := BoundaryCut(rest, width, 0);
            1 <= k && Width(rest[..k]) <= width &&
            (k < |rest| ==> Width(rest[..k]) == width && !IsContinuation(rest[k]))
  {
    assert rest[..0] == [];
    if Width(rest) <= width {
      BoundaryCutTakesAll(rest, width, 0);
      assert rest[..|rest|] == rest;
    } else {
      BoundaryCutEndsOnBoundary(rest, width, 0);
    }
  }

  /** One piece of the source's cut: not empty and at most width columns. */
  lemma LeadPiece(rest: Bytes, width: int)
    requires rest != [] && width > 0
    ensures var k := LeadCut(rest, width, 0);
            1 <= k && Width(rest[..k]) <= width && (k < |rest| ==> Width(rest[..k]) == width)
  {
    assert rest[..0] == [];
    if Width(rest) < width {
      LeadCutTakesAll(rest, width, 0);
      assert rest[..|rest|] == rest;
    } else {
      LeadCutEndsOnLeadByte(rest, width, 0);
    }
  }

  /**
   * Pieces of text in the corrected character mode: put back together they
   * are the text; each is non-empty and at most width columns, all but the
   * last exactly width; and every piece after the first starts a codepoint.
   */
  predicate CharPieces(cs: seq<Bytes>, text: Bytes, width: int)
  {
    && Concat(cs) == text
    && (forall j :: 0 <= j < |cs| ==> cs[j] != [] && Width(cs[j]) <= width)
    && (forall j :: 0 <= j < |cs| - 1 ==> Width(cs[j]) == width)
    && (forall j :: 0 < j < |cs| ==> !IsContinuation(cs[j][0]))
    && (cs != [] ==> text != [] && cs[0][0] == text[0])
  }

  /** The corrected character mode cuts any text into CharPieces. */
  lemma {:induction false} ChunksContract(rest: Bytes, width: int)
    requires width > 0
    ensures CharPieces(Chunks(rest, width), rest, width)
    decreases |rest|
  {
    if rest != [] {
      var k := BoundaryCut(rest, width, 0);
      BoundaryPiece(rest, width);
      var tail := Chunks(rest[k..], width);
      assert Chunks(rest, width) == [rest[..k]] + tail;
      assert rest[..k] + rest[k..] == rest;
      ChunksContract(rest[k..], width);
      PrependPiece(rest[..k], rest[k..], tail, width);
    }
  }

  /** One more piece in front of CharPieces. */
  lemma PrependPiece(piece: Bytes, after: Bytes, tail: seq<Bytes>, width: int)
    requires piece != [] && Width(piece) <= width
    requires after != [] ==> Width(piece) == width && !IsContinuation(after[0])
    requires CharPieces(tail, after, width)
    ensures CharPieces([piece] + tail, piece + after, width)
  {
    var cs := [piece] + tail;
    assert Concat(cs) == piece + after by {
      ConcatCons(piece, tail);
    }
    forall j | 0 <= j < |cs|
      ensures cs[j] != [] && Width(cs[j]) <= width
    {
      if j > 0 {
        assert cs[j] == tail[j - 1];
      }
    }
    forall j | 0 <= j < |cs| - 1
      ensures Width(cs[j]) == width
    {
      if j > 0 {
        assert cs[j] == tail[j - 1];
      }
    }
    forall j | 0 < j < |cs|
      ensures !IsContinuation(cs[j][0])
    {
      assert cs[j] == tail[j - 1];
    }
  }

  /**
   * The character mode as written: the pieces put back together are the
   * text, and each is non-empty and at most width columns.
   */
  lemma {:induction false} ChunksAsWrittenCover(rest: Bytes, width: int)
    requires width > 0
    ensures var cs := ChunksAsWritten(rest, width);
            && Concat(cs) == rest
            && (forall j :: 0 <= j < |cs| ==> cs[j] != [] && Width(cs[j]) <= width)
    decreases |rest|
  {
    if rest != [] {
      var k := LeadCut(rest, width, 0);
      LeadPiece(rest, width);
      var tail := ChunksAsWritten(rest[k..], width);
      ChunksAsWrittenCover(rest[k..], width);
      ConcatCons(rest[..k], tail);
      assert rest[..k] + rest[k..] == rest;
      var cs := [rest[..k]] + tail;
      assert forall j :: 0 < j < |cs| ==> cs[j] == tail[j - 1];
    }
  }

  /** "éé" (U+00E9 twice) in UTF-8. */
  const TwoAccented: Bytes := seq(4, j => if j % 2 == 0 then '\U{C3}' else '\U{A9}')

  /**
   * Character wrapping of "éé" at width 1 as written cuts after each lead
   * byte: the pieces are C3, A9 C3 and A9, so the second and third start with
   * a continuation byte. The corrected cut gives "é" and "é".
   */
  lemma CharWrapSplitsCodepoint()
    ensures ChunksAsWritten(TwoAccented, 1) == [TwoAccented[..1], TwoAccented[1..3], TwoAccented[3..]]
    ensures IsContinuation(TwoAccented[1]) && IsContinuation(TwoAccented[3])
    ensures Chunks(TwoAccented, 1) == [TwoAccented[..2], TwoAccented[2..]]
    ensures !IsContinuation(TwoAccented[0]) && !IsContinuation(TwoAccented[2])
  {
    var t := TwoAccented;
    assert t[..0] == [] && t[..1] == [t[0]];
    assert Width(t[..1]) == 1;
    assert LeadCut(t, 1, 0) == 1;
    var r1 := t[1..];
    assert r1[..0] == [] && r1[..1] == [t[1]] && r1[..2] == [t[1], t[2]];
    assert Width([t[1]]) == 0 by { assert [t[1]][..0] == []; }
    assert Width([t[1], t[2]]) == 1 by { assert [t[1], t[2]][..1] == [t[1]]; }
    assert LeadCut(r1, 1, 2) == 2;
    assert LeadCut(r1, 1, 1) == 2;
    assert LeadCut(r1, 1, 0) == 2;
    var r2 := r1[2..];
    assert r2 == t[3..] && r2[..0] == [];
    assert LeadCut(r2, 1, 0) == 1;
    assert r2[1..] == [] && r2[..1] == r2;
    assert ChunksAsWritten(r2, 1) == [r2];
    assert ChunksAsWritten(r1, 1) == [r1[..2]] + [r2];
    assert r1[..2] == t[1..3] && t[1..][2..] == t[3..];
    assert ChunksAsWritten(t, 1) == [t[..1]] + ChunksAsWritten(r1, 1);
    assert Width([t[0], t[1]]) == 1 by { assert [t[0], t[1]][..1] == [t[0]]; }
    assert t[..2] == [t[0], t[1]];
    assert BoundaryCut(t, 1, 2) == 2;
    assert BoundaryCut(t, 1, 1) == 2;
    assert BoundaryCut(t, 1, 0) == 2;
    var s1 := t[2..];
    assert s1 == [t[2], t[3]] && s1[..0] == [] && s1[..1] == [t[2]];
    assert BoundaryCut(s1, 1, 0) == 2;
    assert s1[2..] == [] && s1[..2] == s1;
    assert Chunks(s1, 1) == [s1];
    assert Chunks(t, 1) == [t[..2]] + Chunks(s1, 1);
  }

  // ---------------------------------------------------------------------------
  // wrap

  /**
   * What wrap makes of one line: a line that fits stays as it is; otherwise
   * every new line is a single span in the line's default style, no wider
   * than width in character mode and no wider than width unless it is one
   * word in word mode, and together they hold the line's text (character
   * mode) or its words in order (word mode).
   */
  lemma WrapsToContract(line: TextLine, mode: WrapMode, width: int, texts: seq<Bytes>, block: seq<TextLine>)
    requires width > 0 && WrapsTo(line, mode, width, texts, block)
    ensures Width(LineText(line)) <= width ==> block == [line]
    ensures Width(LineText(line)) > width ==>
              && |block| >= 1
              && (forall j :: 0 <= j < |block| ==>
                    block[j].spans == [TextSpan(LineTexts(block)[j], DefaultStyle(line.spans))])
              && (mode != Word ==> Concat(LineTexts(block)) == LineText(line) &&
                                   forall j :: 0 <= j < |block| ==> Width(LineText(block[j])) <= width)
              && (mode == Word ==> WordsOfLines(LineTexts(block)) == Words(LineText(line)) &&
                                   forall j :: 0 <= j < |block| ==>
                                     Width(LineText(block[j])) <= width || |Words(LineText(block[j]))| == 1)
  {
    var full := LineText(line);
    if Width(full) > width {
      LineTextsOfSingle(texts, DefaultStyle(line.spans));
      if mode != Word {
        CharModeBlock(full, width, texts, block);
      }
    }
  }

  /** The character-mode half of WrapsToContract, for the pieces of a line too wide to fit. */
  lemma CharModeBlock(full: Bytes, width: int, texts: seq<Bytes>, block: seq<TextLine>)
    requires width > 0 && Width(full) > width && texts == Chunks(full, width) && LineTexts(block) == texts
    ensures |block| >= 1 && Concat(LineTexts(block)) == full
    ensures forall j :: 0 <= j < |block| ==> Width(LineText(block[j])) <= width
  {
    ChunksContract(full, width);
    assert full != [];
    assert texts != [];
    forall j | 0 <= j < |block|
      ensures Width(LineText(block[j])) <= width
    {
      assert LineText(block[j]) == texts[j];
    }
  }

  /** The style of the pieces is that of the first span with text. */
  lemma {:induction false} DefaultStyleIsFirstWithText(spans: seq<TextSpan>, j: nat)
    requires j < |spans| && spans[j].text != [] && SpansText(spans[..j]) == []
    ensures DefaultStyle(spans) == spans[j].style
    decreases |spans|
  {
    var n := |spans|;
    if j < n - 1 {
      FrontHasText(spans, j);
      DefaultStyleIsFirstWithText(spans[..n - 1], j);
    } else {
      assert spans[..n - 1] == spans[..j];
    }
  }

  /** When span j < the last has text, so do the spans before the last, and they agree with spans up to j. */
  lemma FrontHasText(spans: seq<TextSpan>, j: nat)
    requires j < |spans| - 1 && spans[j].text != []
    ensures var front := spans[..|spans| - 1];
            SpansText(front) != [] && front[..j] == spans[..j] && front[j] == spans[j]
  {
    var front := spans[..|spans| - 1];
    assert front[..j] == spans[..j];
    SpansTextSnoc(front, j);
    PrefixOfEmpty(front, j + 1);
  }

  /** A text that is empty has empty prefixes: contrapositively, a non-empty prefix makes it non-empty. */
  lemma {:induction false} PrefixOfEmpty(spans: seq<TextSpan>, i: nat)
    requires i <= |spans| && SpansText(spans[..i]) != []
    ensures SpansText(spans) != []
    decreases |spans| - i
  {
    if i < |spans| {
      SpansTextSnoc(spans, i);
      PrefixOfEmpty(spans, i + 1);
    } else {
      assert spans[..i] == spans;
    }
  }
}
