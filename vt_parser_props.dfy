/** What the byte-at-a-time parser guarantees, stated over its pure model. */
module VtParserProps {
  import opened Utf8
  import opened Decimal
  import opened CharConv
  import opened Options
  import K = KeyCodes
  import Mod = Modifiers
  import opened InputEvents
  import opened VtParser

  // ---------------------------------------------------------------------
  // Incremental feeding

  /**
   * Feeding a ++ b in one call is feeding a, then b from wherever a left the
   * parser: the same events in the same order, and the same final state.
   */
  lemma {:induction false} FoldAppend(step: (Vt, Byte) -> Emitted, p: Vt, a: Bytes, b: Bytes)
    ensures FoldBytes(step, p, a + b).next == FoldBytes(step, FoldBytes(step, p, a).next, b).next
    ensures FoldBytes(step, p, a + b).events
            == FoldBytes(step, p, a).events + FoldBytes(step, FoldBytes(step, p, a).next, b).events
    decreases |b|
  {
    if b == [] {
      assert a + b == a;
    } else {
      var b' := b[..|b| - 1];
      assert (a + b)[..|a + b| - 1] == a + b';
      assert (a + b)[|a + b| - 1] == b[|b| - 1];
      FoldAppend(step, p, a, b');
    }
  }

  lemma RunAppend(p: Vt, a: Bytes, b: Bytes)
    ensures Run(p, a + b).next == Run(Run(p, a).next, b).next
    ensures Run(p, a + b).events == Run(p, a).events + Run(Run(p, a).next, b).events
  {
    FoldAppend(Step, p, a, b);
  }

  /** One more byte at the end is one more step. */
  lemma RunSnoc(p: Vt, s: Bytes, x: Byte)
    ensures Run(p, s + [x]).next == Step(Run(p, s).next, x).next
    ensures Run(p, s + [x]).events == Run(p, s).events + Step(Run(p, s).next, x).events
  {
    assert (s + [x])[..|s|] == s;
  }

  lemma RunOne(p: Vt, b: Byte)
    ensures Run(p, [b]) == Step(p, b)
  {
    RunSnoc(p, [], b);
    assert [] + [b] == [b];
    assert Run(p, []) == Emitted(p, []);
  }

  /** The split sequence of the source's incremental-feeding test: ESC, then '[', then 'A'. */
  lemma IncrementalCursorUp()
    ensures Run(Initial, "\U{1B}").events == []
    ensures Run(Run(Initial, "\U{1B}").next, "[").events == []
    ensures Run(Run(Run(Initial, "\U{1B}").next, "[").next, "A").events == [Key(PlainKey(K.Up))]
    ensures Run(Run(Run(Initial, "\U{1B}").next, "[").next, "A").next.state == Ground
  {
    RunOne(Initial, '\U{1B}');
    var p1 := Run(Initial, "\U{1B}").next;
    RunOne(p1, '[');
    var p2 := Run(p1, "[").next;
    RunOne(p2, 'A');
  }

  // ---------------------------------------------------------------------
  // Ground

  lemma GroundBytes(p: Vt, b: Byte)
    requires p.state == Ground
    ensures ' ' <= b <= '\U{7E}' ==> Step(p, b) == Emitted(p, [Key(KeyEvent(b as int, Mod.None, b as int))])
    ensures b == '\r' || b == '\n' ==> Step(p, b) == Emitted(p, [Key(PlainKey(K.Enter))])
    ensures b == '\t' ==> Step(p, b) == Emitted(p, [Key(PlainKey(K.Tab))])
    ensures b == '\U{08}' || b == '\U{7F}' ==> Step(p, b) == Emitted(p, [Key(PlainKey(K.Backspace))])
    ensures b == EscByte ==> Step(p, b) == Emitted(p.(state := Escape), [])
    ensures b < ' ' && b !in "\r\n\t\U{08}\U{1B}" ==>
              Step(p, b) == Emitted(p, [Key(KeyEvent(b as int + 0x60, Mod.Ctrl, b as int + 0x60))])
  {
  }

  /**
   * A lead byte 110xxxxx, 1110xxxx or 11110xxx starts a sequence expecting
   * 1, 2 or 3 continuation bytes; any other byte with the high bit set is
   * dropped without an event and without leaving Ground.
   */
  lemma GroundLeadBytes(p: Vt, b: Byte)
    requires p.state == Ground && b >= '\U{80}'
    ensures Step(p, b).events == []
    ensures Step(p, b).next.utf8Buf == [b]
    ensures 0xC0 <= b as int < 0xE0 ==> Step(p, b).next == p.(utf8Buf := [b], utf8Remaining := 1, state := Utf8Sequence)
    ensures 0xE0 <= b as int < 0xF0 ==> Step(p, b).next == p.(utf8Buf := [b], utf8Remaining := 2, state := Utf8Sequence)
    ensures 0xF0 <= b as int < 0xF8 ==> Step(p, b).next == p.(utf8Buf := [b], utf8Remaining := 3, state := Utf8Sequence)
    ensures (b as int < 0xC0 || b as int >= 0xF8) ==> Step(p, b).next == p.(utf8Buf := [b])
  {
  }

  // ---------------------------------------------------------------------
  // UTF-8

  /** A byte that is no continuation byte abandons the partial sequence and is handled as in Ground. */
  lemma BrokenSequence(p: Vt, b: Byte)
    requires p.state == Utf8Sequence && !IsContinuation(b)
    ensures Step(p, b) == Step(p.(utf8Buf := [], state := Ground), b)
  {
  }

  lemma DecodeEncode2(cp: U32)
    requires 0x80 <= cp < 0x800
    ensures DecodeUtf8(EncodeUtf8(cp)) == cp
  {
    var r := EncodeUtf8(cp);
    assert r[0] as int % 32 == cp / 64;
    assert r[1] as int % 64 == cp % 64;
  }

  lemma DecodeEncode3(cp: U32)
    requires 0x800 <= cp < 0x10000
    ensures DecodeUtf8(EncodeUtf8(cp)) == cp
  {
    var r := EncodeUtf8(cp);
    assert r[0] as int % 16 == cp / 4096;
    assert r[1] as int % 64 == cp / 64 % 64;
    assert r[2] as int % 64 == cp % 64;
    assert cp / 64 == (cp / 4096) * 64 + cp / 64 % 64;
  }

  /** A number split into a leading part and three base-64 digits. */
  lemma Base64Digits(cp: nat)
    ensures cp == (cp / 262144) * 262144 + (cp / 4096 % 64) * 4096 + (cp / 64 % 64) * 64 + cp % 64
  {
    assert cp / 4096 == (cp / 262144) * 64 + cp / 4096 % 64;
    assert cp / 64 == (cp / 4096) * 64 + cp / 64 % 64;
    assert cp == (cp / 64) * 64 + cp % 64;
  }

  lemma DecodeEncode4(cp: U32)
    requires 0x10000 <= cp < 0x110000
    ensures DecodeUtf8(EncodeUtf8(cp)) == cp
  {
    var r := EncodeUtf8(cp);
    var lead, d1, d2, d3 := cp / 262144, cp / 4096 % 64, cp / 64 % 64, cp % 64;
    assert r[0] as int % 8 == lead;
    assert r[1] as int % 64 == d1;
    assert r[2] as int % 64 == d2;
    assert r[3] as int % 64 == d3;
    Base64Digits(cp);
  }

  /** emitUtf8 inverts the encoder for every codepoint that needs more than one byte. */
  lemma DecodeEncode(cp: U32)
    requires 0x80 <= cp < 0x110000
    ensures DecodeUtf8(EncodeUtf8(cp)) == cp
  {
    if cp < 0x800 {
      DecodeEncode2(cp);
    } else if cp < 0x10000 {
      DecodeEncode3(cp);
    } else {
      DecodeEncode4(cp);
    }
  }

  /** Part of an announced sequence: the parser holds the bytes and waits for the rest. */
  lemma {:induction false} RunPartialSequence(p: Vt, s: Bytes, k: nat)
    requires p.state == Ground
    requires |s| >= 2 && s[0] >= '\U{80}' && ExpectedContinuations(s[0]) == |s| - 1
    requires forall i :: 1 <= i < |s| ==> IsContinuation(s[i])
    requires 1 <= k < |s|
    ensures Run(p, s[..k]) == Emitted(p.(utf8Buf := s[..k], utf8Remaining := |s| - k, state := Utf8Sequence), [])
  {
    if k == 1 {
      assert s[..1] == [s[0]];
      RunOne(p, s[0]);
    } else {
      RunPartialSequence(p, s, k - 1);
      RunSnoc(p, s[..k - 1], s[k - 1]);
      assert s[..k - 1] + [s[k - 1]] == s[..k];
    }
  }

  /** A lead byte with all the continuation bytes it announces emits what emitUtf8 decodes. */
  lemma RunWholeSequence(p: Vt, s: Bytes)
    requires p.state == Ground
    requires |s| >= 2 && s[0] >= '\U{80}' && ExpectedContinuations(s[0]) == |s| - 1
    requires forall i :: 1 <= i < |s| ==> IsContinuation(s[i])
    ensures Run(p, s) == Emitted(p.(utf8Buf := [], utf8Remaining := 0), EmitUtf8(s))
  {
    var n := |s|;
    RunPartialSequence(p, s, n - 1);
    RunSnoc(p, s[..n - 1], s[n - 1]);
    assert s[..n - 1] + [s[n - 1]] == s;
  }

  /**
   * Feeding the encoding of a codepoint from 0x80 up to 0x10FFFF in Ground
   * yields exactly one key carrying that codepoint and returns to Ground.
   */
  lemma EncodedCodepoint(p: Vt, cp: U32)
    requires p.state == Ground
    requires 0x80 <= cp < 0x110000
    ensures Run(p, EncodeUtf8(cp)) == Emitted(p.(utf8Buf := [], utf8Remaining := 0), [Key(CodepointKey(cp))])
  {
    var r := EncodeUtf8(cp);
    DecodeEncode(cp);
    assert ExpectedContinuations(r[0]) == |r| - 1;
    RunWholeSequence(p, r);
  }

  // ---------------------------------------------------------------------
  // Escape, SS3 and timeout

  lemma EscapeBytes(p: Vt, b: Byte)
    requires p.state == Escape
    ensures b == '[' ==> Step(p, b) == Emitted(p.(paramBuf := [], state := CsiEntry), [])
    ensures b == 'O' ==> Step(p, b) == Emitted(p.(state := Ss3), [])
    ensures b == '\r' || b == '\n' ==> Step(p, b) == Emitted(p.(state := Ground), [Key(KeyEvent(K.Enter, Mod.Alt, 0))])
    ensures ' ' <= b <= '\U{7E}' && b != '[' && b != 'O' ==>
              Step(p, b) == Emitted(p.(state := Ground), [Key(KeyEvent(b as int, Mod.Alt, b as int))])
    ensures !(' ' <= b <= '\U{7E}') && b != '\r' && b != '\n' ==>
              Step(p, b).events == [Key(PlainKey(K.Escape))] + Step(p.(state := Ground), b).events
              && Step(p, b).next == Step(p.(state := Ground), b).next
  {
  }

  /** SS3 consumes exactly one byte and is back in Ground whatever that byte was. */
  lemma Ss3Bytes(p: Vt, b: Byte)
    requires p.state == Ss3
    ensures Step(p, b).next == p.(state := Ground)
    ensures |Step(p, b).events| <= 1
    ensures b == 'P' ==> Step(p, b).events == [Key(PlainKey(K.F1))]
    ensures b == 'S' ==> Step(p, b).events == [Key(PlainKey(K.F4))]
    ensures b == 'A' ==> Step(p, b).events == [Key(PlainKey(K.Up))]
  {
  }

  /** timeout resolves a pending ESC as the Escape key and otherwise does nothing. */
  lemma TimeoutResolvesBareEscape(p: Vt)
    ensures p.state == Escape ==> TimeoutStep(p) == Emitted(p.(state := Ground), [Key(PlainKey(K.Escape))])
    ensures p.state != Escape ==> TimeoutStep(p) == Emitted(p, [])
  {
  }

  /** The source's bare-ESC test: ESC alone waits, and a timeout turns it into Escape. */
  lemma BareEscapeThenTimeout()
    ensures Run(Initial, "\U{1B}").events == []
    ensures TimeoutStep(Run(Initial, "\U{1B}").next).events == [Key(PlainKey(K.Escape))]
    ensures TimeoutStep(Run(Initial, "\U{1B}").next).next == Initial
  {
    RunOne(Initial, '\U{1B}');
  }

  // ---------------------------------------------------------------------
  // CSI byte classes

  lemma CsiByteClasses(p: Vt, b: Byte)
    requires p.state == CsiEntry || p.state == CsiParam
    ensures IsParamByte(b) ==> Step(p, b) == Emitted(p.(paramBuf := p.paramBuf + [b], state := CsiParam), [])
    ensures ' ' <= b <= '\U{2F}' ==> Step(p, b) == Emitted(p.(paramBuf := p.paramBuf + [b]), [])
    ensures '\U{40}' <= b <= '\U{7E}' ==> Step(p, b).events == DispatchStep(p, b).events
    ensures '\U{40}' <= b <= '\U{7E}' ==>
              Step(p, b).next.state == (if b == '~' && p.paramBuf == "200" then PasteBody else Ground)
    ensures b == ':' || b == '=' || b < ' ' || b > '\U{7E}' ==> Step(p, b) == Emitted(p.(state := Ground), [])
  {
  }

  /** Digits, separators and markers only ever accumulate. */
  lemma {:induction false} RunParamBytes(p: Vt, s: Bytes)
    requires p.state == CsiEntry || p.state == CsiParam
    requires forall i :: 0 <= i < |s| ==> IsParamByte(s[i])
    ensures Run(p, s) == Emitted(p.(paramBuf := p.paramBuf + s, state := if s == [] then p.state else CsiParam), [])
    decreases |s|
  {
    if s != [] {
      var s' := s[..|s| - 1];
      RunParamBytes(p, s');
      assert p.paramBuf + s' + [s[|s| - 1]] == p.paramBuf + s;
    }
  }

  // ---------------------------------------------------------------------
  // CSI parameters round-trip with the decimal text the output side writes

  lemma {:induction false} SplitJoin(parts: seq<Bytes>)
    requires |parts| >= 1
    requires forall i :: 0 <= i < |parts| ==> ';' !in parts[i]
    ensures Split(Join(parts)) == parts
  {
    if |parts| == 1 {
      SplitWithoutSeparator(parts[0]);
    } else {
      var s := Join(parts);
      var k := |parts[0]|;
      assert s[k] == ';';
      assert s[..k] == parts[0];
      assert s[k + 1..] == Join(parts[1..]);
      SplitAtFirstSeparator(s, k);
      SplitJoin(parts[1..]);
    }
  }

  lemma NoSeparatorInIntText(n: int)
    ensures ';' !in IntText(n)
  {
    var t := IntText(n);
    var m: nat := if n < 0 then -n else n;
    assert AllDigits(NatText(m));
    assert forall i :: 0 <= i < |t| ==> t[i] == '-' || IsDigit(t[i]);
  }

  /**
   * Integers written in decimal and joined with ';' (as the SGR and CUP
   * writers do) parse back to the same list.
   */
  lemma CsiParamsOfJoinedValues(values: seq<I32>)
    requires |values| >= 1
    ensures CsiParams(Join(DecimalTexts(values))) == values
  {
    var parts := DecimalTexts(values);
    forall i | 0 <= i < |parts| ensures ';' !in parts[i] {
      NoSeparatorInIntText(values[i]);
    }
    SplitJoin(parts);
    assert Join(parts) != [] by {
      JoinNonEmpty(parts);
    }
    forall i | 0 <= i < |values| ensures ParamValue(parts[i]) == values[i] {
      FromCharsOfIntText(values[i]);
    }
    MapPartsPointwise(ParamValue, parts, values);
  }

  lemma {:induction false} JoinNonEmpty(parts: seq<Bytes>)
    requires |parts| >= 1 && parts[0] != []
    ensures Join(parts) != []
  {
  }

  // ---------------------------------------------------------------------
  // CSI dispatch

  /** The modifier encoding 1 + bits is decoded back to the same bits. */
  lemma DecodeModifiersRoundTrip(m: Mod.Modifier)
    requires m < 16
    ensures DecodeModifiers(m as int + 1) == m
  {
    var n := m as int;
    assert n / 1 % 2 == 1 <==> m & 1 != 0;
  }

  lemma DecodeModifiersOfSmallParams(param: int)
    requires param <= 1
    ensures DecodeModifiers(param) == Mod.None
  {
  }

  /** A first part that starts with a marker never parses, so its value is 0. */
  lemma MarkedPartIsZero(part: Bytes)
    requires part != [] && (part[0] == '>' || part[0] == '?' || part[0] == '<')
    ensures ParamValue(part) == 0
  {
  }

  lemma {:induction false} FirstPartStartsWith(s: Bytes)
    requires s != [] && s[0] != ';'
    ensures Split(s)[0] != [] && Split(s)[0][0] == s[0]
  {
  }

  /** Sequences with a '>' or '?' marker produce no event, whatever their final byte. */
  lemma PrivateMarkersIgnored(p: Vt, finalByte: Byte)
    requires p.paramBuf != [] && (p.paramBuf[0] == '>' || p.paramBuf[0] == '?')
    ensures DispatchStep(p, finalByte) == Emitted(p, [])
  {
    FirstPartStartsWith(p.paramBuf);
    MarkedPartIsZero(Split(p.paramBuf)[0]);
  }

  /** CSI ... u: the Kitty keyboard protocol keys. */
  lemma KittyKeys(params: seq<int>)
    ensures var code := if params == [] then 0 else params[0];
            var mods := if |params| >= 2 then DecodeModifiers(params[1]) else Mod.None;
            && (code == 13 ==> KittyKey(params) == Some(KeyEvent(K.Enter, mods, 0)))
            && (code == 9 ==> KittyKey(params) == Some(KeyEvent(K.Tab, mods, 0)))
            && (code == 127 ==> KittyKey(params) == Some(KeyEvent(K.Backspace, mods, 0)))
            && (code == 27 ==> KittyKey(params) == Some(KeyEvent(K.Escape, mods, 0)))
            && (32 <= code < 0x10000 && code != 127 ==> KittyKey(params) == Some(KeyEvent(code, mods, code)))
            && (code !in {9, 13, 27, 127} && !(32 <= code < 0x10000) ==> KittyKey(params) == None)
  {
  }

  /** CSI n ~: the fixed table; 16, 22 and every code outside the table give no key. */
  lemma TildeTable(params: seq<int>)
    ensures params == [] ==> MapCsiKey('~', params) == None
    ensures params != [] && (params[0] == 16 || params[0] == 22 || params[0] <= 0 || params[0] >= 25) ==>
              MapCsiKey('~', params) == None
    ensures params != [] && params[0] == 3 ==> MapCsiKey('~', params).Some? && MapCsiKey('~', params).value.key == K.Delete
    ensures params != [] && params[0] == 24 ==> MapCsiKey('~', params).Some? && MapCsiKey('~', params).value.key == K.F12
  {
  }

  // ---------------------------------------------------------------------
  // SGR mouse

  /** Classification of the button parameter, as the source's mouse tests expect. */
  lemma SgrMouseButtons(x: int, y: int)
    ensures SgrMouse(64, x, y, false).kind == ScrollUp
    ensures SgrMouse(65, x, y, false).kind == ScrollDown
    ensures SgrMouse(0, x, y, false) == MouseEvent(Press, 0, x, y, Mod.None)
    ensures SgrMouse(0, x, y, true) == MouseEvent(Release, 0, x, y, Mod.None)
    ensures SgrMouse(2, x, y, false) == MouseEvent(Press, 2, x, y, Mod.None)
    ensures SgrMouse(32, x, y, false) == MouseEvent(Move, 0, x, y, Mod.None)
    ensures SgrMouse(28, x, y, false) == MouseEvent(Press, 0, x, y, Mod.Shift | Mod.Alt | Mod.Ctrl)
  {
  }

  /**
   * An SGR mouse report ESC [ < b ; x ; y M (or m) fed in Ground yields
   * exactly one mouse event decoded from b, x and y, and ends in Ground.
   */
  lemma SgrMouseReport(p: Vt, raw: I32, x: I32, y: I32, finalByte: Byte)
    requires p.state == Ground
    requires raw >= 0 && x >= 0 && y >= 0
    requires finalByte == 'M' || finalByte == 'm'
    ensures var report := "\U{1B}[<" + Join(DecimalTexts([raw, x, y])) + [finalByte];
            Run(p, report).events == [Mouse(SgrMouse(raw, x, y, finalByte == 'm'))]
            && Run(p, report).next.state == Ground
  {
    var params := Join(DecimalTexts([raw, x, y]));
    var prefix: Bytes := "\U{1B}[<";
    var r := SgrMouseParams(p, raw, x, y);
    RunSnoc(p, prefix + params, finalByte);
    assert ("<" + params)[1..] == params;
    CsiParamsOfJoinedValues([raw, x, y]);
    var e := Mouse(SgrMouse(raw, x, y, finalByte == 'm'));
    assert DispatchStep(r, finalByte) == Emitted(r, [e]);
    assert Step(r, finalByte) == Emitted(r.(state := Ground), [e]);
  }

  /** The report up to its final byte only collects parameter bytes. */
  lemma SgrMouseParams(p: Vt, raw: I32, x: I32, y: I32) returns (r: Vt)
    requires p.state == Ground
    requires raw >= 0 && x >= 0 && y >= 0
    ensures r == p.(paramBuf := "<" + Join(DecimalTexts([raw, x, y])), state := CsiParam)
    ensures Run(p, "\U{1B}[<" + Join(DecimalTexts([raw, x, y]))) == Emitted(r, [])
  {
    var params := Join(DecimalTexts([raw, x, y]));
    forall i | 0 <= i < |params| ensures IsParamByte(params[i]) {
      JoinedDigitsAreParamBytes([raw, x, y], i);
    }
    var prefix: Bytes := "\U{1B}[<";
    CsiPrefix(p, '<');
    var q := p.(paramBuf := "<", state := CsiParam);
    RunParamBytes(q, params);
    assert prefix == "\U{1B}[" + ['<'];
    RunAppend(p, prefix, params);
    JoinNonEmpty(DecimalTexts([raw, x, y]));
    r := q.(paramBuf := "<" + params, state := CsiParam);
  }

  /** ESC [ and one parameter byte, fed in Ground. */
  lemma CsiPrefix(p: Vt, b: Byte)
    requires p.state == Ground && IsParamByte(b)
    ensures Run(p, "\U{1B}[" + [b]) == Emitted(p.(paramBuf := [b], state := CsiParam), [])
  {
    var s1: Bytes := ['\U{1B}'];
    RunOne(p, '\U{1B}');
    var s2 := s1 + ['['];
    RunSnoc(p, s1, '[');
    RunSnoc(p, s2, b);
    assert s2 + [b] == "\U{1B}[" + [b];
  }

  lemma JoinedDigitsAreParamBytes(values: seq<I32>, i: nat)
    requires |values| >= 1
    requires forall j :: 0 <= j < |values| ==> values[j] >= 0
    requires i < |Join(DecimalTexts(values))|
    ensures IsParamByte(Join(DecimalTexts(values))[i])
    decreases |values|
  {
    var t := DecimalTexts(values);
    assert AllDigits(NatText(values[0]));
    if |values| > 1 {
      assert DecimalTexts(values[1..]) == t[1..];
      if i > |t[0]| {
        assert Join(t)[i] == Join(t[1..])[i - |t[0]| - 1];
        JoinedDigitsAreParamBytes(values[1..], i - |t[0]| - 1);
      }
    }
  }

  // ---------------------------------------------------------------------
  // Bracketed paste

  /** ESC [ 2 0 0 ~ in Ground starts a paste with an empty buffer. */
  lemma PasteStart(p: Vt)
    requires p.state == Ground
    ensures Run(p, "\U{1B}[200~") == Emitted(p.(paramBuf := "200", pasteBuf := [], state := PasteBody), [])
  {
    var s5: Bytes := "\U{1B}[200";
    PasteIntroducer(p);
    RunSnoc(p, s5, '~');
    assert s5 + ['~'] == "\U{1B}[200~";
  }

  /** ESC [ 2 0 0 collects the parameter text 200. */
  lemma PasteIntroducer(p: Vt)
    requires p.state == Ground
    ensures Run(p, "\U{1B}[200") == Emitted(p.(paramBuf := "200", state := CsiParam), [])
  {
    var s1: Bytes := ['\U{1B}'];
    RunOne(p, '\U{1B}');
    var s2 := s1 + ['['];
    RunSnoc(p, s1, '[');
    var s3 := s2 + ['2'];
    RunSnoc(p, s2, '2');
    var s4 := s3 + ['0'];
    RunSnoc(p, s3, '0');
    RunSnoc(p, s4, '0');
    assert s4 + ['0'] == "\U{1B}[200";
  }

  /** Bytes other than ESC only accumulate in the paste buffer. */
  lemma {:induction false} RunPasteText(p: Vt, text: Bytes)
    requires p.state == PasteBody
    requires EscByte !in p.pasteBuf && EscByte !in text
    ensures Run(p, text) == Emitted(p.(pasteBuf := p.pasteBuf + text), [])
    decreases |text|
  {
    if text != [] {
      var t' := text[..|text| - 1];
      RunPasteText(p, t');
      var buf := p.pasteBuf + text;
      assert p.pasteBuf + t' + [text[|text| - 1]] == buf;
      assert EscByte !in buf;
      if |buf| >= |PasteEnd| {
        assert buf[|buf| - |PasteEnd|..][0] != PasteEnd[0];
      }
    }
  }

  /** The terminator completes only with its last byte. */
  lemma RunPasteEnd(p: Vt)
    requires p.state == PasteBody && EscByte !in p.pasteBuf
    ensures Run(p, PasteEnd) == Emitted(p.(pasteBuf := [], state := Ground), [Paste(p.pasteBuf)])
  {
    var t := p.pasteBuf;
    var k := 0;
    while k < |PasteEnd| - 1
      invariant 0 <= k <= |PasteEnd| - 1
      invariant Run(p, PasteEnd[..k]) == Emitted(p.(pasteBuf := t + PasteEnd[..k]), [])
    {
      RunAppend(p, PasteEnd[..k], [PasteEnd[k]]);
      assert PasteEnd[..k] + [PasteEnd[k]] == PasteEnd[..k + 1];
      RunOne(Run(p, PasteEnd[..k]).next, PasteEnd[k]);
      var buf := t + PasteEnd[..k + 1];
      assert t + PasteEnd[..k] + [PasteEnd[k]] == buf;
      if |buf| >= |PasteEnd| {
        assert buf[|buf| - |PasteEnd|] == t[|buf| - |PasteEnd|];
        assert buf[|buf| - |PasteEnd|..][0] != PasteEnd[0];
      }
      k := k + 1;
    }
    RunAppend(p, PasteEnd[..5], [PasteEnd[5]]);
    assert PasteEnd[..5] + [PasteEnd[5]] == PasteEnd;
    RunOne(Run(p, PasteEnd[..5]).next, PasteEnd[5]);
    var buf := t + PasteEnd;
    assert t + PasteEnd[..5] + [PasteEnd[5]] == buf;
    assert buf[|buf| - 6..] == PasteEnd;
    assert buf[..|buf| - 6] == t;
  }

  /**
   * A bracketed paste whose text holds no ESC, fed in Ground, yields exactly
   * one paste event with that text, and the parser is back in Ground with an
   * empty paste buffer.
   */
  lemma BracketedPaste(p: Vt, text: Bytes)
    requires p.state == Ground
    requires EscByte !in text
    ensures var input := "\U{1B}[200~" + text + PasteEnd;
            Run(p, input) == Emitted(p.(paramBuf := "200", pasteBuf := [], state := Ground), [Paste(text)])
  {
    var start: Bytes := "\U{1B}[200~";
    PasteStart(p);
    var q := p.(paramBuf := "200", pasteBuf := [], state := PasteBody);
    RunPasteText(q, text);
    assert [] + text == text;
    var r := q.(pasteBuf := text);
    RunPasteEnd(r);
    RunAppend(p, start, text);
    RunAppend(p, start + text, PasteEnd);
  }

  /** The source's paste test. */
  lemma PasteHelloWorld()
    ensures Run(Initial, "\U{1B}[200~" + "Hello, world!" + "\U{1B}[201~").events == [Paste("Hello, world!")]
  {
    BracketedPaste(Initial, "Hello, world!");
  }
}
