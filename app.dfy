/**
 * The parts of App::Impl in src/mychat/App.cpp that are logic rather than
 * orchestration: the text-to-speech feed (a <think> tag filter followed by
 * a sentence splitter), the grapheme offsets of the input line, the
 * horizontal scroll of the input box and its height.
 */
module AppImpl {
  import opened Utf8
  import opened Options

  // ---------------------------------------------------------------------------
  // Input box layout

  const InputBoxMinHeight := 3
  const InputBoxMaxHeight := 10

  /** computeInputBoxHeight for an input of the given line count. */
  function InputBoxHeight(lines: int): (h: int)
    ensures InputBoxMinHeight <= h <= InputBoxMaxHeight
    ensures 1 <= lines <= InputBoxMaxHeight - 2 ==> h == lines + 2
    ensures lines < 1 ==> h == InputBoxMinHeight
    ensures lines > InputBoxMaxHeight - 2 ==> h == InputBoxMaxHeight
  {
    var contentHeight := if lines < 1 then 1 else if lines > InputBoxMaxHeight - 2 then InputBoxMaxHeight - 2 else lines;
    if InputBoxMinHeight >= contentHeight + 2 then InputBoxMinHeight else contentHeight + 2
  }

  // ---------------------------------------------------------------------------
  // calculateGraphemePositions

  /** The sequence length a UTF-8 lead byte announces; 1 for any other byte. */
  function LeadLength(b: Byte): (n: nat)
    ensures 1 <= n <= 4
  {
    if b as int < 0x80 then 1
    else if 0xC0 <= b as int < 0xE0 then 2
    else if 0xE0 <= b as int < 0xF0 then 3
    else if 0xF0 <= b as int < 0xF8 then 4
    else 1
  }

  /** The offsets the scan pushes once it has reached offset i. */
  function PositionsFrom(text: Bytes, i: nat): seq<nat>
    decreases |text| - i
  {
    if i >= |text| then []
    else
      var next := i + LeadLength(text[i]);
      (if next <= |text| then [next] else []) + PositionsFrom(text, next)
  }

  /** calculateGraphemePositions: 0, then the offset after every codepoint that fits in the text. */
  function GraphemePositions(text: Bytes): seq<nat>
  {
    [0] + PositionsFrom(text, 0)
  }

  method CalculateGraphemePositions(text: Bytes) returns (positions: seq<nat>)
    ensures positions == GraphemePositions(text)
  {
    positions := [0];
    var i := 0;
    while i < |text|
      invariant positions + PositionsFrom(text, i) == GraphemePositions(text)
      decreases |text| - i
    {
      var ch := text[i];
      var charLen := 1;
      if ch as int < 0x80 {
        charLen := 1;
      } else if 0xC0 <= ch as int < 0xE0 {
        charLen := 2;
      } else if 0xE0 <= ch as int < 0xF0 {
        charLen := 3;
      } else if 0xF0 <= ch as int < 0xF8 {
        charLen := 4;
      }
      ghost var piece := if i + charLen <= |text| then [i + charLen] else [];
      assert PositionsFrom(text, i) == piece + PositionsFrom(text, i + charLen);
      ghost var before := positions;
      i := i + charLen;
      if i <= |text| {
        positions := positions + [i];
      }
      assert positions == before + piece;
      assert (before + piece) + PositionsFrom(text, i) == before + (piece + PositionsFrom(text, i));
    }
  }

  // ---------------------------------------------------------------------------
  // updateInputScrollOffset

  /** The index of the first offset at or after the cursor, or the last index when there is none. */
  function CursorGrapheme(positions: seq<nat>, cursorByte: int): (g: nat)
    ensures positions != [] ==> g < |positions|
    ensures positions == [] ==> g == 0
    ensures forall j :: 0 <= j < g && j < |positions| ==> positions[j] < cursorByte
    ensures (g < |positions| && positions[g] >= cursorByte) || g + 1 >= |positions|
    decreases |positions|
  {
    if |positions| <= 1 then 0
    else if positions[0] >= cursorByte then 0
    else 1 + CursorGrapheme(positions[1..], cursorByte)
  }

  method FindCursorGrapheme(positions: seq<nat>, cursorByte: int) returns (cursorGrapheme: nat)
    ensures cursorGrapheme == CursorGrapheme(positions, cursorByte)
  {
    cursorGrapheme := 0;
    for i := 0 to |positions|
      invariant forall j :: 0 <= j < i ==> positions[j] < cursorByte
      invariant (i == 0 && cursorGrapheme == 0) || (i > 0 && cursorGrapheme == i - 1)
    {
      if positions[i] >= cursorByte {
        cursorGrapheme := i;
        CursorGraphemeIs(positions, cursorByte, i);
        return;
      }
      cursorGrapheme := i;
    }
    if positions != [] {
      CursorGraphemeIs(positions, cursorByte, |positions| - 1);
    }
  }

  /** The index CursorGrapheme finds is the one its characterisation names. */
  lemma {:induction false} CursorGraphemeIs(positions: seq<nat>, cursorByte: int, g: nat)
    requires g < |positions|
    requires forall j :: 0 <= j < g ==> positions[j] < cursorByte
    requires positions[g] >= cursorByte || g == |positions| - 1
    ensures CursorGrapheme(positions, cursorByte) == g
    decreases |positions|
  {
    if g > 0 && |positions| > 1 {
      assert positions[0] < cursorByte;
      CursorGraphemeIs(positions[1..], cursorByte, g - 1);
    }
  }

  function Max(a: int, b: int): int
  {
    if a >= b then a else b
  }

  function Min(a: int, b: int): int
  {
    if a <= b then a else b
  }

  /** How many columns show text, after the overflow indicators. */
  function EffectiveWidth(offset: int, total: int, availableWidth: int): (w: int)
    ensures w >= 1
  {
    var hasLeftOverflow := offset > 0;
    var hasRightOverflow := total - offset > availableWidth;
    var w := availableWidth - (if hasLeftOverflow then 1 else 0) - (if hasRightOverflow then 1 else 0);
    Max(1, w)
  }

  /** The scroll offset updateInputScrollOffset leaves for the cursor at grapheme g of total. */
  function Scrolled(offset: int, g: int, total: int, availableWidth: int): (r: int)
    requires g >= 0
    ensures 0 <= r <= Max(0, total - 1)
    ensures r <= g
    ensures g < r + EffectiveWidth(offset, total, availableWidth) || r == Max(0, total - 1)
  {
    var effectiveWidth := EffectiveWidth(offset, total, availableWidth);
    var o := if g < offset then g
      else if g >= offset + effectiveWidth then g - effectiveWidth + 1
      else offset;
    Min(Max(0, o), Max(0, total - 1))
  }

  // ---------------------------------------------------------------------------
  // feedTtsToken: the <think> filter

  const ThinkOpen: Bytes := "<think>"
  const ThinkClose: Bytes := "</think>"

  /** The filter's state: the pending tag characters, whether inside <think>, and the text kept. */
  datatype Filter = Filter(tagBuffer: Bytes, insideThink: bool, sentence: Bytes)

  /** One character through the tag filter. */
  function FilterChar(f: Filter, ch: Byte): Filter
  {
    if f.tagBuffer != [] then
      var tag := f.tagBuffer + [ch];
      if tag == ThinkOpen then Filter([], true, f.sentence)
      else if tag == ThinkClose then Filter([], false, f.sentence)
      else if tag <= ThinkOpen || tag <= ThinkClose then Filter(tag, f.insideThink, f.sentence)
      else Filter([], f.insideThink, if f.insideThink then f.sentence else f.sentence + tag)
    else if ch == '<' then Filter(['<'], f.insideThink, f.sentence)
    else Filter(f.tagBuffer, f.insideThink, if f.insideThink then f.sentence else f.sentence + [ch])
  }

  /** A whole token through the tag filter, character by character. */
  function FilterAll(f: Filter, token: Bytes): Filter
    decreases |token|
  {
    if token == [] then f else FilterChar(FilterAll(f, token[..|token| - 1]), token[|token| - 1])
  }

  // ---------------------------------------------------------------------------
  // feedTtsToken: sentences

  predicate IsStop(b: Byte)
  {
    b == '.' || b == '!' || b == '?'
  }

  /** Position p ends a sentence: a '\n', or the space after '.', '!' or '?'. */
  predicate EndsSentence(buf: Bytes, p: nat)
  {
    p < |buf| && (buf[p] == '\n' || (p >= 1 && buf[p] == ' ' && IsStop(buf[p - 1])))
  }

  /** The scan of feedTtsToken from index i: where the first sentence ends. */
  function BoundaryFrom(buf: Bytes, i: nat): (pos: Option<nat>)
    ensures pos.Some? ==> i <= pos.value < |buf|
    decreases |buf| - i
  {
    if i >= |buf| then None
    else if buf[i] == '\n' then Some(i)
    else if IsStop(buf[i]) && i + 1 < |buf| && buf[i + 1] == ' ' then Some(i + 1)
    else BoundaryFrom(buf, i + 1)
  }

  function Boundary(buf: Bytes): (pos: Option<nat>)
    ensures pos.Some? ==> pos.value < |buf|
  {
    BoundaryFrom(buf, 0)
  }

  /** The sentence with trailing spaces and newlines removed. */
  function TrimEnd(s: Bytes): (r: Bytes)
    ensures r <= s
    ensures r == [] || (r[|r| - 1] != ' ' && r[|r| - 1] != '\n')
    ensures forall k :: |r| <= k < |s| ==> s[k] == ' ' || s[k] == '\n'
    decreases |s|
  {
    if s != [] && (s[|s| - 1] == ' ' || s[|s| - 1] == '\n') then TrimEnd(s[..|s| - 1]) else s
  }

  /** The sentences cut from buf, trimmed, empty ones dropped. */
  function Sentences(buf: Bytes): seq<Bytes>
    decreases |buf|
  {
    match Boundary(buf)
    case None => []
    case Some(pos) =>
      var sentence := TrimEnd(buf[..pos + 1]);
      (if sentence == [] then [] else [sentence]) + Sentences(buf[pos + 1..])
  }

  /** What stays in the buffer once no sentence end is left. */
  function Remainder(buf: Bytes): Bytes
    decreases |buf|
  {
    match Boundary(buf)
    case None => buf
    case Some(pos) => Remainder(buf[pos + 1..])
  }

  /** The TTS fields of App::Impl, as values. */
  datatype Tts = Tts(
    hasSpeaker: bool,
    enabled: bool,
    tagBuffer: Bytes,
    insideThink: bool,
    sentenceBuffer: Bytes,
    pending: seq<Bytes>)

  /** feedTtsToken. */
  function Feed(t: Tts, token: Bytes): Tts
  {
    if !t.hasSpeaker || !t.enabled then t
    else
      var f := FilterAll(Filter(t.tagBuffer, t.insideThink, t.sentenceBuffer), token);
      Tts(t.hasSpeaker, t.enabled, f.tagBuffer, f.insideThink, Remainder(f.sentence), t.pending + Sentences(f.sentence))
  }

  // ---------------------------------------------------------------------------
  // App::Impl

  class Impl {
    /** Whether a TTS speaker was created. */
    var hasSpeaker: bool
    var ttsEnabled: bool
    var ttsTagBuffer: Bytes
    var ttsInsideThink: bool
    var sentenceBuffer: Bytes
    var ttsPendingSentences: seq<Bytes>
    var inputScrollOffset: int

    function TtsState(): Tts
      reads this
    {
      Tts(hasSpeaker, ttsEnabled, ttsTagBuffer, ttsInsideThink, sentenceBuffer, ttsPendingSentences)
    }

    constructor(hasSpeaker: bool, ttsEnabled: bool)
      ensures TtsState() == Tts(hasSpeaker, ttsEnabled, [], false, [], [])
      ensures inputScrollOffset == 0
    {
      this.hasSpeaker := hasSpeaker;
      this.ttsEnabled := ttsEnabled;
      ttsTagBuffer := [];
      ttsInsideThink := false;
      sentenceBuffer := [];
      ttsPendingSentences := [];
      inputScrollOffset := 0;
    }

    method FeedTtsToken(token: Bytes)
      modifies this
      ensures TtsState() == Feed(old(TtsState()), token)
      ensures !hasSpeaker || !ttsEnabled ==> TtsState() == old(TtsState())
      ensures inputScrollOffset == old(inputScrollOffset)
    {
      if !hasSpeaker || !ttsEnabled {
        return;
      }
      FilterToken(token);
      SplitSentences();
    }

    /** The character loop of feedTtsToken. */
    method FilterToken(token: Bytes)
      modifies this
      ensures Filter(ttsTagBuffer, ttsInsideThink, sentenceBuffer)
        == FilterAll(old(Filter(ttsTagBuffer, ttsInsideThink, sentenceBuffer)), token)
      ensures hasSpeaker == old(hasSpeaker) && ttsEnabled == old(ttsEnabled)
      ensures ttsPendingSentences == old(ttsPendingSentences) && inputScrollOffset == old(inputScrollOffset)
    {
      var f := FilterLoop(Filter(ttsTagBuffer, ttsInsideThink, sentenceBuffer), token);
      ttsTagBuffer, ttsInsideThink, sentenceBuffer := f.tagBuffer, f.insideThink, f.sentence;
    }

    /** The sentence loop of feedTtsToken. */
    method SplitSentences()
      modifies this
      ensures sentenceBuffer == Remainder(old(sentenceBuffer))
      ensures ttsPendingSentences == old(ttsPendingSentences) + Sentences(old(sentenceBuffer))
      ensures hasSpeaker == old(hasSpeaker) && ttsEnabled == old(ttsEnabled)
      ensures ttsTagBuffer == old(ttsTagBuffer) && ttsInsideThink == old(ttsInsideThink)
      ensures inputScrollOffset == old(inputScrollOffset)
    {
      sentenceBuffer, ttsPendingSentences := SentenceLoop(sentenceBuffer, ttsPendingSentences);
    }

    method UpdateInputScrollOffset(text: Bytes, cursorByte: int, availableWidth: int)
      modifies this
      ensures var positions := GraphemePositions(text);
        inputScrollOffset == Scrolled(old(inputScrollOffset), CursorGrapheme(positions, cursorByte), |positions| - 1, availableWidth)
      ensures TtsState() == old(TtsState())
    {
      var graphemes := CalculateGraphemePositions(text);
      var cursorGrapheme := FindCursorGrapheme(graphemes, cursorByte);
      var hasLeftOverflow := inputScrollOffset > 0;
      var totalGraphemes := |graphemes| - 1;
      var hasRightOverflow := totalGraphemes - inputScrollOffset > availableWidth;
      var effectiveWidth := availableWidth;
      if hasLeftOverflow {
        effectiveWidth := effectiveWidth - 1;
      }
      if hasRightOverflow {
        effectiveWidth := effectiveWidth - 1;
      }
      effectiveWidth := Max(1, effectiveWidth);
      if cursorGrapheme < inputScrollOffset {
        inputScrollOffset := cursorGrapheme;
      } else if cursorGrapheme >= inputScrollOffset + effectiveWidth {
        inputScrollOffset := cursorGrapheme - effectiveWidth + 1;
      }
      inputScrollOffset := Max(0, inputScrollOffset);
      inputScrollOffset := Min(inputScrollOffset, Max(0, totalGraphemes - 1));
    }
  }

  /**
   * The character loop of feedTtsToken, on the three fields it changes:
   * ttsTagBuffer, ttsInsideThink and sentenceBuffer.
   */
  method FilterLoop(start: Filter, token: Bytes) returns (f: Filter)
    ensures f == FilterAll(start, token)
  {
    var ttsTagBuffer: Bytes, ttsInsideThink: bool, sentenceBuffer: Bytes := start.tagBuffer, start.insideThink, start.sentence;
    for i := 0 to |token|
      invariant Filter(ttsTagBuffer, ttsInsideThink, sentenceBuffer) == FilterAll(start, token[..i])
    {
      assert token[..i + 1][..i] == token[..i];
      var ch := token[i];
      if ttsTagBuffer != [] {
        ttsTagBuffer := ttsTagBuffer + [ch];
        if ttsTagBuffer == ThinkOpen {
          ttsInsideThink := true;
          ttsTagBuffer := [];
          continue;
        }
        if ttsTagBuffer == ThinkClose {
          ttsInsideThink := false;
          ttsTagBuffer := [];
          continue;
        }
        if ttsTagBuffer <= ThinkOpen || ttsTagBuffer <= ThinkClose {
          continue;
        }
        if !ttsInsideThink {
          sentenceBuffer := sentenceBuffer + ttsTagBuffer;
        }
        ttsTagBuffer := [];
        continue;
      }
      if ch == '<' {
        ttsTagBuffer := ['<'];
        continue;
      }
      if !ttsInsideThink {
        sentenceBuffer := sentenceBuffer + [ch];
      }
    }
    assert token[..|token|] == token;
    return Filter(ttsTagBuffer, ttsInsideThink, sentenceBuffer);
  }

  /** The sentence loop of feedTtsToken, on sentenceBuffer and ttsPendingSentences. */
  method SentenceLoop(buffer: Bytes, pending: seq<Bytes>) returns (sentenceBuffer: Bytes, ttsPendingSentences: seq<Bytes>)
    ensures sentenceBuffer == Remainder(buffer)
    ensures ttsPendingSentences == pending + Sentences(buffer)
  {
    sentenceBuffer, ttsPendingSentences := buffer, pending;
    while true
      invariant Remainder(sentenceBuffer) == Remainder(buffer)
      invariant ttsPendingSentences + Sentences(sentenceBuffer) == pending + Sentences(buffer)
      decreases |sentenceBuffer|
    {
      var found := FindBoundary(sentenceBuffer);
      if found.None? {
        break;
      }
      var pos := found.value;
      ghost var before, spoken := sentenceBuffer, ttsPendingSentences;
      CutSentence(before, pos);
      var sentence := sentenceBuffer[..pos + 1];
      sentenceBuffer := sentenceBuffer[pos + 1..];
      sentence := TrimSentence(sentence);
      ghost var piece := if sentence == [] then [] else [sentence];
      if sentence != [] {
        ttsPendingSentences := ttsPendingSentences + [sentence];
      }
      assert (spoken + piece) + Sentences(sentenceBuffer) == spoken + (piece + Sentences(sentenceBuffer));
    }
  }

  /** Cutting at the first sentence end takes one sentence off the front. */
  lemma CutSentence(buf: Bytes, pos: nat)
    requires Boundary(buf) == Some(pos)
    ensures var sentence := TrimEnd(buf[..pos + 1]);
      Sentences(buf) == (if sentence == [] then [] else [sentence]) + Sentences(buf[pos + 1..])
    ensures Remainder(buf) == Remainder(buf[pos + 1..])
  {
  }

  /** The scan for a sentence end. */
  method FindBoundary(buf: Bytes) returns (pos: Option<nat>)
    ensures pos == Boundary(buf)
  {
    for i := 0 to |buf|
      invariant BoundaryFrom(buf, i) == Boundary(buf)
    {
      var ch := buf[i];
      if ch == '\n' {
        return Some(i);
      }
      if IsStop(ch) && i + 1 < |buf| && buf[i + 1] == ' ' {
        return Some(i + 1);
      }
    }
    return None;
  }

  /** The trimming loop: pop ' ' and '\n' off the end. */
  method TrimSentence(s: Bytes) returns (r: Bytes)
    ensures r == TrimEnd(s)
  {
    r := s;
    while r != [] && (r[|r| - 1] == ' ' || r[|r| - 1] == '\n')
      invariant TrimEnd(r) == TrimEnd(s)
      decreases |r|
    {
      r := r[..|r| - 1];
    }
  }
}
