/**
 * What the App::Impl helpers of src/mychat/App.cpp guarantee: the grapheme
 * offsets step through the text by lead-byte lengths, the <think> filter
 * hides think blocks and passes other text through, the sentence splitter
 * leaves no sentence end behind and pushes only trimmed, non-empty
 * sentences, and the input scroll only moves when the cursor is out of view.
 */
module AppProps {
  import opened Utf8
  import opened Options
  import opened AppImpl

  // ---------------------------------------------------------------------------
  // calculateGraphemePositions

  /**
   * From offset i the offsets step by the length the lead byte announces,
   * never pass the end of the text, and stop only at the end or before a
   * sequence the text cuts short.
   */
  lemma {:induction false} PositionsStep(text: Bytes, i: nat)
    requires i <= |text|
    ensures var p := [i] + PositionsFrom(text, i);
      && (forall k :: 0 <= k < |p| ==> p[k] <= |text|)
      && (forall k :: 0 <= k < |p| - 1 ==> p[k] < |text| && p[k + 1] == p[k] + LeadLength(text[p[k]]))
      && (p[|p| - 1] == |text| || p[|p| - 1] + LeadLength(text[p[|p| - 1]]) > |text|)
    decreases |text| - i
  {
    if i < |text| {
      var next := i + LeadLength(text[i]);
      if next <= |text| {
        PositionsStep(text, next);
        var p := [i] + PositionsFrom(text, i);
        assert p == [i] + ([next] + PositionsFrom(text, next));
      }
    }
  }

  /** The offsets start at 0, increase strictly and end within the text. */
  lemma GraphemePositionsIncrease(text: Bytes)
    ensures var p := GraphemePositions(text);
      && p[0] == 0
      && (forall k :: 0 <= k < |p| ==> p[k] <= |text|)
      && (forall j, k :: 0 <= j < k < |p| ==> p[j] < p[k])
  {
    PositionsStep(text, 0);
    var p := GraphemePositions(text);
    forall j, k | 0 <= j < k < |p|
      ensures p[j] < p[k]
    {
      Ascending(p, j, k);
    }
  }

  lemma {:induction false} Ascending(p: seq<nat>, j: nat, k: nat)
    requires forall m :: 0 <= m < |p| - 1 ==> p[m] < p[m + 1]
    requires j < k < |p|
    ensures p[j] < p[k]
    decreases k - j
  {
    if j + 1 < k {
      Ascending(p, j + 1, k);
    }
  }

  /** ASCII text has an offset for every byte. */
  lemma {:induction false} AsciiPositions(text: Bytes, i: nat)
    requires i <= |text| && forall k :: 0 <= k < |text| ==> text[k] as int < 0x80
    ensures |PositionsFrom(text, i)| == |text| - i
    decreases |text| - i
  {
    if i < |text| {
      AsciiPositions(text, i + 1);
    }
  }

  // ---------------------------------------------------------------------------
  // updateInputScrollOffset

  /** A cursor already in view does not move the scroll offset. */
  lemma ScrollStaysWhenVisible(offset: int, g: nat, total: int, availableWidth: int)
    requires 0 <= offset <= g < offset + EffectiveWidth(offset, total, availableWidth)
    requires offset <= Max(0, total - 1)
    ensures Scrolled(offset, g, total, availableWidth) == offset
  {
  }

  /** A cursor left of the view scrolls the view so that it starts at the cursor. */
  lemma ScrollLeftToCursor(offset: int, g: nat, total: int, availableWidth: int)
    requires g < offset && g <= Max(0, total - 1)
    ensures Scrolled(offset, g, total, availableWidth) == g
  {
  }

  // ---------------------------------------------------------------------------
  // The <think> filter

  /** The tag buffer is empty or a proper prefix of one of the two tags. */
  predicate TagPending(f: Filter)
  {
    f.tagBuffer == [] || (f.tagBuffer[0] == '<' && (f.tagBuffer < ThinkOpen || f.tagBuffer < ThinkClose))
  }

  lemma FilterCharKeepsTag(f: Filter, ch: Byte)
    requires TagPending(f)
    ensures TagPending(FilterChar(f, ch))
  {
    if f.tagBuffer != [] {
      var tag := f.tagBuffer + [ch];
      assert tag[0] == '<';
      if tag != ThinkOpen && tag != ThinkClose && (tag <= ThinkOpen || tag <= ThinkClose) {
        assert tag < ThinkOpen || tag < ThinkClose;
      }
    }
  }

  lemma {:induction false} FilterAllKeepsTag(f: Filter, token: Bytes)
    requires TagPending(f)
    ensures TagPending(FilterAll(f, token))
    decreases |token|
  {
    if token != [] {
      FilterAllKeepsTag(f, token[..|token| - 1]);
      FilterCharKeepsTag(FilterAll(f, token[..|token| - 1]), token[|token| - 1]);
    }
  }

  lemma {:induction false} FilterAllAppend(f: Filter, a: Bytes, b: Bytes)
    ensures FilterAll(f, a + b) == FilterAll(FilterAll(f, a), b)
    decreases |b|
  {
    if b == [] {
      assert a + b == a;
    } else {
      FilterAllAppend(f, a, b[..|b| - 1]);
      assert (a + b)[..|a + b| - 1] == a + b[..|b| - 1];
    }
  }

  /** Inside a think block no character reaches the sentence buffer. */
  lemma InsideThinkKeepsSentence(f: Filter, ch: Byte)
    requires f.insideThink
    ensures FilterChar(f, ch).sentence == f.sentence
  {
  }

  /** A '<' that stops matching both tags is flushed with the character that broke it, outside think. */
  lemma BrokenTagIsFlushed(f: Filter, ch: Byte)
    requires f.tagBuffer != [] && !f.insideThink
    requires var tag := f.tagBuffer + [ch]; !(tag <= ThinkOpen) && !(tag <= ThinkClose)
    ensures FilterChar(f, ch) == Filter([], false, f.sentence + f.tagBuffer + [ch])
  {
    var tag := f.tagBuffer + [ch];
    assert tag != ThinkOpen && tag != ThinkClose;
  }

  /** Text without '<' passes through the filter unchanged when outside think. */
  lemma {:induction false} PlainTextPasses(s: Bytes, text: Bytes)
    requires '<' !in text
    ensures FilterAll(Filter([], false, s), text) == Filter([], false, s + text)
    decreases |text|
  {
    if text != [] {
      var front := text[..|text| - 1];
      assert '<' !in front by {
        assert forall k :: 0 <= k < |front| ==> front[k] == text[k];
      }
      PlainTextPasses(s, front);
      assert s + text == (s + front) + [text[|text| - 1]];
    }
  }

  /** Text without '<' is dropped inside think. */
  lemma {:induction false} ThinkTextDropped(s: Bytes, text: Bytes)
    requires '<' !in text
    ensures FilterAll(Filter([], true, s), text) == Filter([], true, s)
    decreases |text|
  {
    if text != [] {
      var front := text[..|text| - 1];
      assert '<' !in front by {
        assert forall k :: 0 <= k < |front| ==> front[k] == text[k];
      }
      ThinkTextDropped(s, front);
    }
  }

  /** While the buffered characters stay a proper prefix of a tag, the filter keeps buffering. */
  lemma {:induction false} TagPrefix(t: Bytes, k: nat, inside: bool, s: Bytes)
    requires t == ThinkOpen || t == ThinkClose
    requires 1 <= k < |t|
    ensures FilterAll(Filter([], inside, s), t[..k]) == Filter(t[..k], inside, s)
    decreases k
  {
    var f := Filter([], inside, s);
    if k == 1 {
      assert t[..1][..0] == [];
    } else {
      TagPrefix(t, k - 1, inside, s);
      assert t[..k][..k - 1] == t[..k - 1];
      TagGrows(t, k, inside, s);
    }
  }

  /** One more character of a tag, while the tag is still incomplete, stays buffered. */
  lemma TagGrows(t: Bytes, k: nat, inside: bool, s: Bytes)
    requires t == ThinkOpen || t == ThinkClose
    requires 2 <= k < |t|
    ensures FilterChar(Filter(t[..k - 1], inside, s), t[k - 1]) == Filter(t[..k], inside, s)
  {
    var tag := t[..k - 1] + [t[k - 1]];
    assert tag == t[..k] && tag <= t;
    assert tag != ThinkOpen && tag != ThinkClose by {
      assert |tag| == 7 ==> tag[1] == '/';
    }
  }

  lemma OpenTag(s: Bytes, inside: bool)
    ensures FilterAll(Filter([], inside, s), ThinkOpen) == Filter([], true, s)
  {
    var t := ThinkOpen;
    TagPrefix(t, 6, inside, s);
    assert t[..7][..6] == t[..6];
    assert t[..7] == t;
  }

  lemma CloseTag(s: Bytes, inside: bool)
    ensures FilterAll(Filter([], inside, s), ThinkClose) == Filter([], false, s)
  {
    var t := ThinkClose;
    TagPrefix(t, 7, inside, s);
    assert t[..8][..7] == t[..7];
    assert t[..8] == t;
  }

  /**
   * A think block, tags included, never reaches the sentence buffer: after
   * "<think>", a body without '<' and "</think>" the filter is where it was.
   */
  lemma ThinkBlockHidden(s: Bytes, body: Bytes)
    requires '<' !in body
    ensures FilterAll(Filter([], false, s), ThinkOpen + body + ThinkClose) == Filter([], false, s)
  {
    FilterAllAppend(Filter([], false, s), ThinkOpen + body, ThinkClose);
    FilterAllAppend(Filter([], false, s), ThinkOpen, body);
    OpenTag(s, false);
    ThinkTextDropped(s, body);
    CloseTag(s, true);
  }

  // ---------------------------------------------------------------------------
  // Sentences

  /** The scan stops at index q. */
  predicate ScanStops(buf: Bytes, q: nat)
  {
    q < |buf| && (buf[q] == '\n' || (IsStop(buf[q]) && q + 1 < |buf| && buf[q + 1] == ' '))
  }

  /** The scan from i returns a sentence end and passes no index where it would stop. */
  lemma {:induction false} BoundaryFromIsFirst(buf: Bytes, i: nat)
    ensures BoundaryFrom(buf, i).Some? ==> EndsSentence(buf, BoundaryFrom(buf, i).value)
    ensures BoundaryFrom(buf, i).Some? ==> forall q :: i <= q && q + 1 < BoundaryFrom(buf, i).value ==> !ScanStops(buf, q)
    ensures BoundaryFrom(buf, i).Some? && BoundaryFrom(buf, i).value > i && buf[BoundaryFrom(buf, i).value] == '\n'
      ==> !ScanStops(buf, BoundaryFrom(buf, i).value - 1)
    ensures BoundaryFrom(buf, i).None? ==> forall q :: i <= q < |buf| ==> !ScanStops(buf, q)
    decreases |buf| - i
  {
    if i < |buf| && !ScanStops(buf, i) {
      BoundaryFromIsFirst(buf, i + 1);
    }
  }

  /**
   * Boundary finds the first position that ends a sentence, and finds none
   * exactly when no position ends one.
   */
  lemma BoundaryIsFirstEnd(buf: Bytes)
    ensures Boundary(buf).Some? ==>
      (EndsSentence(buf, Boundary(buf).value) && forall q :: 0 <= q < Boundary(buf).value ==> !EndsSentence(buf, q))
    ensures Boundary(buf).None? <==> forall q :: 0 <= q < |buf| ==> !EndsSentence(buf, q)
  {
    BoundaryFromIsFirst(buf, 0);
    if Boundary(buf).Some? {
      var p := Boundary(buf).value;
      forall q | 0 <= q < p
        ensures !EndsSentence(buf, q)
      {
        assert !ScanStops(buf, q) || q + 1 == p;
        if q >= 1 {
          assert !ScanStops(buf, q - 1);
        }
      }
    } else {
      forall q | 0 <= q < |buf|
        ensures !EndsSentence(buf, q)
      {
        assert !ScanStops(buf, q);
        if q >= 1 {
          assert !ScanStops(buf, q - 1);
        }
      }
    }
  }

  /** No sentence end is left in what stays in the buffer. */
  lemma {:induction false} RemainderHasNoEnd(buf: Bytes)
    ensures forall q :: 0 <= q < |Remainder(buf)| ==> !EndsSentence(Remainder(buf), q)
    decreases |buf|
  {
    match Boundary(buf)
    case None =>
      BoundaryIsFirstEnd(buf);
    case Some(pos) =>
      RemainderHasNoEnd(buf[pos + 1..]);
  }

  /** What stays in the buffer is its tail. */
  lemma {:induction false} RemainderIsTail(buf: Bytes)
    ensures |Remainder(buf)| <= |buf| && Remainder(buf) == buf[|buf| - |Remainder(buf)|..]
    decreases |buf|
  {
    match Boundary(buf)
    case None =>
    case Some(pos) =>
      RemainderIsTail(buf[pos + 1..]);
  }

  /** Every sentence pushed is non-empty and ends in neither ' ' nor '\n'. */
  lemma {:induction false} SentencesAreTrimmed(buf: Bytes)
    ensures forall k :: 0 <= k < |Sentences(buf)| ==>
      Sentences(buf)[k] != [] && Sentences(buf)[k][|Sentences(buf)[k]| - 1] != ' ' && Sentences(buf)[k][|Sentences(buf)[k]| - 1] != '\n'
    decreases |buf|
  {
    match Boundary(buf)
    case None =>
    case Some(pos) =>
      SentencesAreTrimmed(buf[pos + 1..]);
  }

  /** After feedTtsToken the sentence buffer holds no sentence end. */
  lemma FeedLeavesNoSentenceEnd(t: Tts, token: Bytes)
    ensures var b := Feed(t, token).sentenceBuffer;
      t.hasSpeaker && t.enabled ==> forall q :: 0 <= q < |b| ==> !EndsSentence(b, q)
  {
    if t.hasSpeaker && t.enabled {
      RemainderHasNoEnd(FilterAll(Filter(t.tagBuffer, t.insideThink, t.sentenceBuffer), token).sentence);
    }
  }

  /** feedTtsToken only appends to the pending sentences. */
  lemma FeedAppendsSentences(t: Tts, token: Bytes)
    ensures t.pending <= Feed(t, token).pending
    ensures forall k :: |t.pending| <= k < |Feed(t, token).pending| ==> Feed(t, token).pending[k] != []
  {
    if t.hasSpeaker && t.enabled {
      SentencesAreTrimmed(FilterAll(Filter(t.tagBuffer, t.insideThink, t.sentenceBuffer), token).sentence);
    }
  }
}
