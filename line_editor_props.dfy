/**
 * Properties of the line editor: how keys are dispatched, typing and its
 * undo by Backspace, the kill ring, word movement, history, and the path
 * from the bytes a terminal sends to the action the editor returns.
 */
module LineEditorProps {
  import opened Utf8
  import K = KeyCodes
  import Mod = Modifiers
  import opened InputEvents
  import opened LineEditor
  import VP = VtParser
  import VPP = VtParserProps

  // ---------------------------------------------------------------------
  // Events as a user produces them

  /** A plain character key: its code and its codepoint are the byte itself. */
  function CharEvent(c: Byte): InputEvent
  {
    Key(KeyEvent(K.KeyCodeFromCodepoint(c as int), Mod.None, c as int))
  }

  /** A letter held with Ctrl. */
  function CtrlEvent(c: Byte): InputEvent
  {
    Key(KeyEvent(K.KeyCodeFromCodepoint(c as int), Mod.Ctrl, c as int))
  }

  /** A letter held with Alt. */
  function AltEvent(c: Byte): InputEvent
  {
    Key(KeyEvent(K.KeyCodeFromCodepoint(c as int), Mod.Alt, c as int))
  }

  /** A named key without modifiers. */
  function Press(key: K.KeyCode): InputEvent
  {
    Key(PlainKey(key))
  }

  /** Bytes that are printable ASCII (or DEL), each its own printable key. */
  predicate PrintableAscii(text: Bytes)
  {
    forall i :: 0 <= i < |text| ==> ' ' <= text[i] <= '\U{7F}'
  }

  /** Types text one CharEvent per byte, keeping only the final state. */
  function Type(f: Field, text: Bytes): (r: Field)
    requires Valid(f)
    ensures Valid(r)
    decreases |text|
  {
    if text == [] then f else Type(ProcessEvent(f, CharEvent(text[0])).field, text[1..])
  }

  // ---------------------------------------------------------------------
  // Dispatch

  /** Enter submits whatever the modifiers and codepoint; the text stays as it is. */
  lemma EnterSubmits(f: Field, mods: Mod.Modifier, cp: U32)
    requires Valid(f)
    ensures ProcessEvent(f, Key(KeyEvent(K.Enter, mods, cp))) == Outcome(f.(lastWasKill := false), Submit)
  {
  }

  /** Ctrl+C aborts and changes nothing at all, not even the run of kills. */
  lemma CtrlCAborts(f: Field)
    requires Valid(f)
    ensures ProcessEvent(f, CtrlEvent('c')) == Outcome(f, Abort)
  {
  }

  /** Ctrl+D is end-of-file exactly on an empty line; otherwise it deletes at the cursor. */
  lemma CtrlDEofOrDelete(f: Field)
    requires Valid(f)
    ensures ProcessEvent(f, CtrlEvent('d')).action == Eof <==> f.buffer == []
    ensures f.buffer == [] ==> ProcessEvent(f, CtrlEvent('d')) == Outcome(f, Eof)
    ensures f.buffer != [] ==> ProcessEvent(f, CtrlEvent('d')) == Outcome(DeleteChar(f).(lastWasKill := false), Changed)
  {
  }

  /**
   * A printable key held with neither Ctrl nor Alt inserts its codepoint,
   * with Shift or Super as well: the codepoint is not case-mapped.
   */
  lemma PrintableKeyInserts(f: Field, k: KeyEvent)
    requires Valid(f)
    requires k.codepoint != 0 && K.IsPrintable(k.key)
    requires !Mod.HasModifier(k.modifiers, Mod.Ctrl) && !Mod.HasModifier(k.modifiers, Mod.Alt)
    ensures ProcessEvent(f, Key(k)) == Outcome(InsertCodepoint(f, k.codepoint).(lastWasKill := false), Changed)
  {
  }

  /** Shift with a letter inserts the letter as sent, lower case included. */
  lemma ShiftedLetterInsertedAsSent(f: Field, c: Byte)
    requires Valid(f) && 'a' <= c <= 'z'
    ensures ProcessEvent(f, Key(KeyEvent(c as int, Mod.Shift, c as int))).field.buffer
            == f.buffer[..f.cursor] + [c] + f.buffer[f.cursor..]
  {
    PrintableKeyInserts(f, KeyEvent(c as int, Mod.Shift, c as int));
  }

  /** Mouse and resize events are not consumed and leave the editor as it was. */
  lemma OtherEventsIgnored(f: Field, m: MouseEvent, columns: int, rows: int)
    requires Valid(f)
    ensures ProcessEvent(f, Mouse(m)) == Outcome(f, None)
    ensures ProcessEvent(f, Resize(columns, rows)) == Outcome(f, None)
  {
  }

  /** A paste is inserted verbatim at the cursor, whatever bytes it holds. */
  lemma PasteInsertsVerbatim(f: Field, text: Bytes)
    requires Valid(f)
    ensures var r := ProcessEvent(f, Paste(text));
            && r.action == Changed && !r.field.lastWasKill
            && r.field.buffer == f.buffer[..f.cursor] + text + f.buffer[f.cursor..]
            && r.field.cursor == f.cursor + |text|
  {
  }

  // ---------------------------------------------------------------------
  // Typing and its undo

  lemma EncodeAscii(c: Byte)
    requires c < '\U{80}'
    ensures EncodeUtf8(c as int) == [c]
  {
  }

  /** One printable ASCII key inserts its byte at the cursor and ends a run of kills. */
  lemma TypeOne(f: Field, c: Byte)
    requires Valid(f) && ' ' <= c <= '\U{7F}'
    ensures ProcessEvent(f, CharEvent(c)).field
            == f.(buffer := f.buffer[..f.cursor] + [c] + f.buffer[f.cursor..], cursor := f.cursor + 1, lastWasKill := false)
  {
    EncodeAscii(c);
    PrintableKeyInserts(f, KeyEvent(c as int, Mod.None, c as int));
  }

  lemma InsertSplits(a: Bytes, c: Byte, b: Bytes, rest: Bytes)
    ensures (a + [c] + b)[..|a| + 1] == a + [c] && (a + [c] + b)[|a| + 1..] == b
    ensures a + [c] + rest == a + ([c] + rest)
  {
  }

  /** Typing printable ASCII inserts exactly those bytes at the cursor and moves past them. */
  lemma {:induction false} TypeInsertsText(f: Field, text: Bytes)
    requires Valid(f) && PrintableAscii(text)
    ensures Type(f, text) == f.(buffer := f.buffer[..f.cursor] + text + f.buffer[f.cursor..],
                                cursor := f.cursor + |text|,
                                lastWasKill := f.lastWasKill && text == [])
    decreases |text|
  {
    if text == [] {
      assert f.buffer[..f.cursor] + f.buffer[f.cursor..] == f.buffer;
    } else {
      var c := text[0];
      TypeOne(f, c);
      var g := ProcessEvent(f, CharEvent(c)).field;
      InsertSplits(f.buffer[..f.cursor], c, f.buffer[f.cursor..], text[1..]);
      assert text == [c] + text[1..];
      assert PrintableAscii(text[1..]);
      TypeInsertsText(g, text[1..]);
    }
  }

  lemma EmptyAround(e: Bytes, text: Bytes)
    requires e == []
    ensures e[..0] + text + e[0..] == text
  {
    assert e[..0] == [] == e[0..];
  }

  /** The state after typing text into a fresh editor. */
  lemma TypedIntoFresh(text: Bytes)
    requires PrintableAscii(text)
    ensures Type(Initial, text) == Initial.(buffer := text, cursor := |text|)
  {
    var f := Initial;
    TypeInsertsText(f, text);
    assert f.buffer[..f.cursor] + text + f.buffer[f.cursor..] == text by {
      EmptyAround(f.buffer, text);
    }
  }

  /** The lead byte of an encoding is never a continuation byte. */
  lemma LeadIsNotContinuation(cp: U32)
    requires cp < 0x110000
    ensures !IsContinuation(EncodeUtf8(cp)[0])
  {
  }

  /** Backspace right after typing any codepoint restores the editor exactly. */
  lemma BackspaceUndoesInsert(f: Field, cp: U32)
    requires Valid(f) && cp < 0x110000
    ensures DeleteCharBackward(InsertCodepoint(f, cp)) == f
  {
    var e := EncodeUtf8(cp);
    var g := InsertCodepoint(f, cp);
    LeadIsNotContinuation(cp);
    var prev := PrevBoundary(g.buffer, g.cursor);
    assert g.buffer[f.cursor..g.cursor] == e;
    assert !IsContinuation(g.buffer[f.cursor]);
    assert forall j :: f.cursor < j < g.cursor ==> IsContinuation(g.buffer[j]) by {
      forall j | f.cursor < j < g.cursor
        ensures IsContinuation(g.buffer[j])
      {
        assert g.buffer[j] == e[j - f.cursor];
      }
    }
    assert prev == f.cursor;
    assert g.buffer[..prev] + g.buffer[g.cursor..] == f.buffer;
  }

  // ---------------------------------------------------------------------
  // ASCII boundaries and words

  predicate Ascii(s: Bytes)
  {
    forall i :: 0 <= i < |s| ==> s[i] < '\U{80}'
  }

  /** In ASCII text every position is a codepoint boundary. */
  lemma AsciiBoundaries(s: Bytes, pos: nat)
    requires Ascii(s) && pos <= |s|
    ensures pos < |s| ==> NextBoundary(s, pos) == pos + 1
    ensures pos > 0 ==> PrevBoundary(s, pos) == pos - 1
  {
    if pos + 1 < |s| {
      assert !IsContinuation(s[pos + 1]);
    }
    if pos > 0 {
      assert !IsContinuation(s[pos - 1]);
    }
  }

  lemma {:induction false} SkipNonWordStops(buf: Bytes, pos: nat, end: nat)
    requires Ascii(buf) && pos <= end <= |buf|
    requires forall i :: pos <= i < end ==> !WordChar(buf[i])
    requires end == |buf| || WordChar(buf[end])
    ensures SkipNonWord(buf, pos) == end
    decreases end - pos
  {
    if pos < end {
      AsciiBoundaries(buf, pos);
      SkipNonWordStops(buf, pos + 1, end);
    }
  }

  lemma {:induction false} SkipWordCharsStops(buf: Bytes, pos: nat, end: nat)
    requires Ascii(buf) && pos <= end <= |buf|
    requires forall i :: pos <= i < end ==> WordChar(buf[i])
    requires end == |buf| || !WordChar(buf[end])
    ensures SkipWordChars(buf, pos) == end
    decreases end - pos
  {
    if pos < end {
      AsciiBoundaries(buf, pos);
      SkipWordCharsStops(buf, pos + 1, end);
    }
  }

  lemma {:induction false} BackOverNonWordStops(buf: Bytes, start: nat, pos: nat)
    requires Ascii(buf) && start <= pos <= |buf|
    requires forall i :: start <= i < pos ==> !WordChar(buf[i])
    requires start == 0 || WordChar(buf[start - 1])
    ensures BackOverNonWord(buf, pos) == start
    decreases pos - start
  {
    AsciiBoundaries(buf, pos);
    if start < pos {
      BackOverNonWordStops(buf, start, pos - 1);
    }
  }

  lemma {:induction false} BackOverWordCharsStops(buf: Bytes, start: nat, pos: nat)
    requires Ascii(buf) && start <= pos <= |buf|
    requires forall i :: start <= i < pos ==> WordChar(buf[i])
    requires start == 0 || !WordChar(buf[start - 1])
    ensures BackOverWordChars(buf, pos) == start
    decreases pos - start
  {
    AsciiBoundaries(buf, pos);
    if start < pos {
      BackOverWordCharsStops(buf, start, pos - 1);
    }
  }

  /**
   * In ASCII text, forward-word from pos ends right after the next word:
   * past the separators in [pos, start) and the word in [start, end).
   */
  lemma ForwardWordEndsAfterNextWord(buf: Bytes, pos: nat, start: nat, end: nat)
    requires Ascii(buf) && pos <= start <= end <= |buf|
    requires forall i :: pos <= i < start ==> !WordChar(buf[i])
    requires start == |buf| || WordChar(buf[start])
    requires forall i :: start <= i < end ==> WordChar(buf[i])
    requires end == |buf| || !WordChar(buf[end])
    ensures ForwardWord(buf, pos) == end
  {
    SkipNonWordStops(buf, pos, start);
    SkipWordCharsStops(buf, start, end);
  }

  /**
   * In ASCII text, backward-word from pos lands on the start of the
   * previous word: back over the separators in [end, pos) and the word in
   * [start, end).
   */
  lemma BackwardWordStartsPreviousWord(buf: Bytes, start: nat, end: nat, pos: nat)
    requires Ascii(buf) && start <= end <= pos <= |buf|
    requires forall i :: end <= i < pos ==> !WordChar(buf[i])
    requires end == 0 || WordChar(buf[end - 1])
    requires forall i :: start <= i < end ==> WordChar(buf[i])
    requires start == 0 || !WordChar(buf[start - 1])
    ensures BackwardWord(buf, pos) == start
  {
    BackOverNonWordStops(buf, end, pos);
    BackOverWordCharsStops(buf, start, end);
  }

  const HelloWorld: Bytes := "hello world"

  lemma HelloWorldIsAscii()
    ensures Ascii(HelloWorld) && |HelloWorld| == 11 && HelloWorld[5] == ' '
    ensures forall i :: 0 <= i < 5 ==> WordChar(HelloWorld[i])
    ensures forall i :: 6 <= i < 11 ==> WordChar(HelloWorld[i])
  {
  }

  /** Alt+F from the start of "hello world" stops after "hello". */
  lemma HelloForward()
    ensures ForwardWord(HelloWorld, 0) == 5
  {
    HelloWorldIsAscii();
    ForwardWordEndsAfterNextWord(HelloWorld, 0, 0, 5);
  }

  /** Alt+B after "hello" goes back to 0. */
  lemma HelloBackward()
    ensures BackwardWord(HelloWorld, 5) == 0
  {
    HelloWorldIsAscii();
    BackwardWordStartsPreviousWord(HelloWorld, 0, 5, 5);
  }

  /** Ctrl+Left from the end stops before "world". */
  lemma WorldBackward()
    ensures BackwardWord(HelloWorld, 11) == 6
  {
    HelloWorldIsAscii();
    BackwardWordStartsPreviousWord(HelloWorld, 6, 11, 11);
  }

  // ---------------------------------------------------------------------
  // Key bindings

  /** Ctrl+K kills to the end of the line and keeps the run of kills going. */
  lemma KillToEndBinding(f: Field)
    requires Valid(f)
    ensures ProcessEvent(f, CtrlEvent('k')) == Outcome(KillToEnd(f), Changed)
  {
  }

  /** Ctrl+U kills to the start of the line and keeps the run of kills going. */
  lemma KillToStartBinding(f: Field)
    requires Valid(f)
    ensures ProcessEvent(f, CtrlEvent('u')) == Outcome(KillToStart(f), Changed)
  {
  }

  /** Ctrl+W kills the previous word and keeps the run of kills going. */
  lemma BackwardWordKillBinding(f: Field)
    requires Valid(f)
    ensures ProcessEvent(f, CtrlEvent('w')) == Outcome(KillWordBackward(f), Changed)
  {
  }

  /** Alt+D kills the next word and keeps the run of kills going. */
  lemma ForwardWordKillBinding(f: Field)
    requires Valid(f)
    ensures ProcessEvent(f, AltEvent('d')) == Outcome(KillWord(f), Changed)
  {
  }

  /** Ctrl+Y yanks and ends the run of kills. */
  lemma YankBinding(f: Field)
    requires Valid(f)
    ensures ProcessEvent(f, CtrlEvent('y')) == Done(Yank(f), Changed)
  {
  }

  /** Alt+Y rotates the yank and ends the run of kills. */
  lemma YankPopBinding(f: Field)
    requires Valid(f)
    ensures ProcessEvent(f, AltEvent('y')) == Done(YankPop(f), Changed)
  {
  }

  /** A Ctrl or Alt letter that is not bound is not consumed, and the state stays as it was. */
  lemma UnboundLetterIgnored(f: Field, c: Byte)
    requires Valid(f) && ' ' < c < '\U{80}'
    ensures !IsCtrlBinding(c as int) ==> ProcessEvent(f, CtrlEvent(c)) == Outcome(f, None)
    ensures !IsAltBinding(c as int) ==> ProcessEvent(f, AltEvent(c)) == Outcome(f, None)
  {
  }

  /** Alt+D at the start of "hello world" leaves " world". */
  lemma HelloWorldKillWord()
    ensures KillWord(Initial.(buffer := HelloWorld, cursor := 0)).buffer == " world"
  {
    HelloForward();
  }

  /** Ctrl+W at the end of "hello world" leaves "hello ". */
  lemma HelloWorldKillWordBackward()
    ensures KillWordBackward(Initial.(buffer := HelloWorld, cursor := 11)).buffer == "hello "
  {
    WorldBackward();
  }

  // ---------------------------------------------------------------------
  // The kill ring

  /**
   * Ctrl+K then Ctrl+Y puts the line back. After another kill the killed
   * text was appended to the newest entry, so that entry comes back whole.
   */
  lemma KillToEndThenYank(f: Field)
    requires Valid(f) && f.cursor < |f.buffer|
    ensures var merged := if f.lastWasKill && f.killRing != [] then f.killRing[|f.killRing| - 1] else [];
            var g := Yank(KillToEnd(f));
            && g.buffer == f.buffer[..f.cursor] + merged + f.buffer[f.cursor..]
            && g.cursor == |f.buffer| + |merged|
  {
  }

  /** Ctrl+U then Ctrl+Y, outside a run of kills, puts the line back with the cursor where it was. */
  lemma KillToStartThenYank(f: Field)
    requires Valid(f) && 0 < f.cursor && !f.lastWasKill
    ensures var g := Yank(KillToStart(f));
            g.buffer == f.buffer && g.cursor == f.cursor
  {
    var killed := f.buffer[..f.cursor];
    var k := KillToStart(f);
    assert k.buffer == f.buffer[f.cursor..] && k.cursor == 0;
    assert k.killRing[|k.killRing| - 1] == killed;
    assert killed + f.buffer[f.cursor..] == f.buffer;
  }

  /** Ctrl+U then Ctrl+K empties the line and leaves all of it in one entry. */
  lemma KillsAccumulate(f: Field)
    requires Valid(f) && 0 < f.cursor && !f.lastWasKill
    ensures var g := KillToEnd(KillToStart(f));
            g.buffer == [] && g.killRing != [] && g.killRing[|g.killRing| - 1] == f.buffer
  {
    var k := KillToStart(f);
    assert k.buffer == f.buffer[f.cursor..];
    assert k.killRing[|k.killRing| - 1] == f.buffer[..f.cursor];
    if k.buffer != [] {
      assert k.buffer[0..] == k.buffer;
    }
  }

  /**
   * Alt+Y right after Ctrl+Y is the same as yanking the next older entry
   * directly (the newest again when it is the only one).
   */
  lemma YankPopAfterYank(g: Field)
    requires Valid(g) && g.killRing != []
    ensures var n := |g.killRing|;
            var i := if n == 1 then 0 else n - 2;
            YankPop(Yank(g)) == InsertText(g.(killRingIndex := i), g.killRing[i])
  {
    var n := |g.killRing|;
    var f := Yank(g);
    var top := g.killRing[n - 1];
    var removed := RemoveYanked(f);
    assert f.cursor == g.cursor + |top|;
    assert removed.buffer == f.buffer[..g.cursor] + f.buffer[f.cursor..];
    assert f.buffer[..g.cursor] == g.buffer[..g.cursor];
    assert removed.buffer == g.buffer;
    assert removed == g.(killRingIndex := n - 1);
  }

  /** "abc" typed into a fresh editor (TypedIntoFresh) and killed with Ctrl+U. */
  lemma KilledAbc()
    ensures KillToStart(Initial.(buffer := "abc", cursor := 3)) == Initial.(killRing := ["abc"], lastWasKill := true)
  {
    var f := Initial.(buffer := "abc", cursor := 3);
    assert f.buffer[..3] == "abc" && f.buffer[3..] == [];
  }

  /**
   * Alt+Y does not check that the previous command was a yank: after typing
   * "xyz" over an empty line it erases those three bytes, because the
   * current entry "abc" is three bytes long.
   */
  lemma YankPopErasesTypedText()
    ensures var f := Type(KillToStart(Initial.(buffer := "abc", cursor := 3)), "xyz");
            f.buffer == "xyz" && YankPop(f).buffer == "abc"
  {
    KilledAbc();
    var killed := Initial.(killRing := ["abc"], lastWasKill := true);
    TypeInsertsText(killed, "xyz");
    var f := Type(killed, "xyz");
    assert f == killed.(buffer := "xyz", cursor := 3, lastWasKill := false);
    assert RemoveYanked(f).buffer == [];
  }

  /** The test "abc", Ctrl+U, "x", Ctrl+Y gives "xabc". */
  lemma YankAfterTyping()
    ensures Yank(Type(KillToStart(Initial.(buffer := "abc", cursor := 3)), "x")).buffer == "xabc"
  {
    KilledAbc();
    var killed := Initial.(killRing := ["abc"], lastWasKill := true);
    TypeInsertsText(killed, "x");
  }

  lemma FooBarWord()
    ensures BackwardWord("foo bar", 7) == 4
  {
    var s: Bytes := "foo bar";
    assert Ascii(s) && s[3] == ' ';
    BackwardWordStartsPreviousWord(s, 4, 7, 7);
  }

  lemma FooWord()
    ensures BackwardWord("foo ", 4) == 0
  {
    var t: Bytes := "foo ";
    assert Ascii(t) && t[3] == ' ';
    BackwardWordStartsPreviousWord(t, 0, 3, 4);
  }

  /** The pieces of a line after the bytes in [first, end) were cut out. */
  lemma CutSlices(buf: Bytes, second: nat, first: nat, end: nat)
    requires second <= first <= end <= |buf|
    ensures (buf[..first] + buf[end..])[..second] == buf[..second]
    ensures (buf[..first] + buf[end..])[second..first] == buf[second..first]
    ensures (buf[..first] + buf[end..])[first..] == buf[end..]
  {
  }

  /**
   * Two Ctrl+W in a row leave one kill-ring entry holding the second word
   * killed after the first, the reverse of their order in the line.
   */
  lemma ConsecutiveBackwardKills(f: Field)
    requires Valid(f) && !f.lastWasKill
    ensures var once := KillWordBackward(f);
            var twice := KillWordBackward(once);
            var first, second := once.cursor, twice.cursor;
            && second <= first <= f.cursor
            && twice.buffer == f.buffer[..second] + f.buffer[f.cursor..]
            && (first < f.cursor ==>
                  twice.killRing[|twice.killRing| - 1] == f.buffer[first..f.cursor] + f.buffer[second..first])
  {
    CutSlices(f.buffer, KillWordBackward(KillWordBackward(f)).cursor, KillWordBackward(f).cursor, f.cursor);
  }

  /** Ctrl+W at the end of "foo bar" kills "bar" into a new entry. */
  lemma FooBarKilledOnce()
    ensures KillWordBackward(Initial.(buffer := "foo bar", cursor := 7))
            == Initial.(buffer := "foo ", cursor := 4, killRing := ["bar"], lastWasKill := true)
  {
    FooBarWord();
    var s: Bytes := "foo bar";
    assert s[..4] == "foo " && s[4..7] == "bar" && s[7..] == [];
  }

  /** A second Ctrl+W kills "foo " and appends it after "bar": yanking gives "barfoo ", not "foo bar". */
  lemma FooKilledAfterBar()
    ensures KillWordBackward(Initial.(buffer := "foo ", cursor := 4, killRing := ["bar"], lastWasKill := true))
            == Initial.(buffer := [], cursor := 0, killRing := ["barfoo "], lastWasKill := true)
  {
    FooWord();
    var t: Bytes := "foo ";
    assert t[..0] == [] && t[0..4] == t && t[4..] == [];
    var bar: Bytes := "bar";
    assert bar + t == "barfoo ";
  }

  // ---------------------------------------------------------------------
  // Transpose

  /** Swapping two adjacent segments of a line keeps its bytes. */
  lemma SwapPermutes(buf: Bytes, p: nat, q: nat, n: nat)
    requires p <= q <= n <= |buf|
    ensures multiset(buf[..p] + (buf[q..n] + buf[p..q]) + buf[n..]) == multiset(buf)
  {
    assert buf == buf[..p] + buf[p..q] + buf[q..n] + buf[n..];
  }

  /** Ctrl+T rearranges the line and never adds or drops a byte. */
  lemma TransposePermutes(f: Field)
    requires Valid(f)
    ensures multiset(Transpose(f).buffer) == multiset(f.buffer)
  {
    if f.cursor > 0 && |f.buffer| >= 2 {
      var pos := if f.cursor == |f.buffer| then PrevBoundary(f.buffer, f.cursor) else f.cursor;
      SwapPermutes(f.buffer, PrevBoundary(f.buffer, pos), pos, NextBoundary(f.buffer, pos));
    }
  }

  /** The test: "ab" with the cursor at the end becomes "ba". */
  lemma TransposeAb()
    ensures Transpose(Initial.(buffer := "ab", cursor := 2)).buffer == "ba"
  {
    var s: Bytes := "ab";
    assert Ascii(s);
    AsciiBoundaries(s, 2);
    AsciiBoundaries(s, 1);
  }

  // ---------------------------------------------------------------------
  // History

  /** Up then Down comes back to the same history position, restoring an edited line. */
  lemma HistoryPrevThenNext(f: Field)
    requires Valid(f) && f.historyIndex > 0
    ensures var g := HistoryNext(HistoryPrev(f));
            && g.historyIndex == f.historyIndex
            && g.cursor == |g.buffer|
            && (f.historyIndex < |f.history| ==> g.buffer == f.history[f.historyIndex])
            && (f.historyIndex == |f.history| ==> g.buffer == f.buffer && g.savedLine == [])
  {
  }

  /** Adding the newest entry again changes nothing. */
  lemma AddHistoryIdempotent(f: Field, entry: Bytes)
    requires Valid(f)
    ensures AddHistory(AddHistory(f, entry), entry) == AddHistory(f, entry)
  {
  }

  /** The tests "history navigation" and "history preserves current line". */
  lemma HistoryScenarios()
    ensures var f := AddHistory(AddHistory(Initial, "first"), "second");
            var up1 := ProcessEvent(f, Press(K.Up)).field;
            var up2 := ProcessEvent(up1, Press(K.Up)).field;
            var down1 := ProcessEvent(up2, Press(K.Down)).field;
            var down2 := ProcessEvent(down1, Press(K.Down)).field;
            up1.buffer == "second" && up2.buffer == "first" && down1.buffer == "second" && down2.buffer == []
    ensures var f := Initial.(history := ["old"], historyIndex := 1, buffer := "new", cursor := 3);
            var up := ProcessEvent(f, Press(K.Up)).field;
            up.buffer == "old" && ProcessEvent(up, Press(K.Down)).field.buffer == "new"
  {
  }

  /**
   * setMaxHistory as written leaves the history index as it was: after
   * three entries and setMaxHistory(1) the index is 3 while one entry is
   * left, so the next Up reads entry 2 of a history of size 1.
   */
  lemma SetMaxHistoryAsWrittenOverruns()
    ensures var f := AddHistory(AddHistory(AddHistory(Initial, "a"), "b"), "c");
            var g := SetMaxHistoryAsWritten(f, 1);
            && g.history == ["c"] && g.historyIndex == 3
            && !Valid(g)
            && g.historyIndex - 1 >= |g.history|
  {
    AddedThree();
  }

  /** Adding "a", "b" and "c" to a fresh editor keeps all three, the index just past them. */
  lemma AddedThree()
    ensures var f := AddHistory(AddHistory(AddHistory(Initial, "a"), "b"), "c");
            f == Initial.(history := ["a", "b", "c"], historyIndex := 3)
  {
    var f1 := AddHistory(Initial, "a");
    AddsNewEntry(Initial, "a");
    var f2 := AddHistory(f1, "b");
    AddsNewEntry(f1, "b");
    assert f2.history == ["a", "b"];
    AddsNewEntry(f2, "c");
    assert f2.history + ["c"] == ["a", "b", "c"];
  }

  lemma AddsNewEntry(f: Field, entry: Bytes)
    requires Valid(f) && entry != [] && |f.history| < f.maxHistory
    requires f.history == [] || f.history[|f.history| - 1] != entry
    ensures AddHistory(f, entry) == f.(history := f.history + [entry], historyIndex := |f.history| + 1)
  {
  }

  /** The as-written setMaxHistory keeps the invariant exactly when the index still fits. */
  lemma SetMaxHistoryAsWrittenValidIff(f: Field, n: nat)
    requires Valid(f)
    ensures Valid(SetMaxHistoryAsWritten(f, n)) <==> f.historyIndex <= |NewestEntries(f.history, n)|
    ensures f.historyIndex <= |NewestEntries(f.history, n)| ==> SetMaxHistory(f, n) == SetMaxHistoryAsWritten(f, n)
  {
  }

  /** With the index clamped the same steps leave a usable history: Up shows "c". */
  lemma SetMaxHistoryClamped()
    ensures var f := AddHistory(AddHistory(AddHistory(Initial, "a"), "b"), "c");
            var g := SetMaxHistory(f, 1);
            && g.history == ["c"] && g.historyIndex == 1
            && HistoryPrev(g).buffer == "c"
  {
    AddedThree();
  }

  // ---------------------------------------------------------------------
  // From terminal bytes to editor actions

  /** Byte 0x03 from the terminal is Ctrl+C, and the editor answers Abort. */
  lemma CtrlCFromTerminal(f: Field)
    requires Valid(f)
    ensures VP.Run(VP.Initial, "\U{03}").events == [CtrlEvent('c')]
    ensures ProcessEvent(f, VP.Run(VP.Initial, "\U{03}").events[0]) == Outcome(f, Abort)
  {
    VPP.RunOne(VP.Initial, '\U{03}');
    VPP.GroundBytes(VP.Initial, '\U{03}');
  }

  /** Byte 0x04 from the terminal is Ctrl+D, end-of-file on an empty line. */
  lemma CtrlDFromTerminal(f: Field)
    requires Valid(f)
    ensures VP.Run(VP.Initial, "\U{04}").events == [CtrlEvent('d')]
    ensures ProcessEvent(f, VP.Run(VP.Initial, "\U{04}").events[0]).action == Eof <==> f.buffer == []
  {
    VPP.RunOne(VP.Initial, '\U{04}');
    VPP.GroundBytes(VP.Initial, '\U{04}');
    CtrlDEofOrDelete(f);
  }

  /**
   * A codepoint beyond the Basic Multilingual Plane typed at the terminal
   * reaches the editor as a key whose code is the codepoint itself. From
   * U+10000 to U+1000A that code is a named key (U+10000 submits); above,
   * the key is not printable and is dropped. Pasted, the same text is
   * inserted.
   */
  lemma AstralCodepointTyped(f: Field, cp: U32)
    requires Valid(f) && 0x10000 <= cp < 0x110000
    ensures VP.Run(VP.Initial, EncodeUtf8(cp)).events == [Key(KeyEvent(cp, Mod.None, cp))]
    ensures cp == K.Enter ==> ProcessEvent(f, Key(KeyEvent(cp, Mod.None, cp))).action == Submit
    ensures cp > K.End ==> ProcessEvent(f, Key(KeyEvent(cp, Mod.None, cp))) == Outcome(f, None)
    ensures ProcessEvent(f, Paste(EncodeUtf8(cp))).field.buffer == f.buffer[..f.cursor] + EncodeUtf8(cp) + f.buffer[f.cursor..]
  {
    VPP.EncodedCodepoint(VP.Initial, cp);
  }

  /** A bracketed paste from the terminal is inserted verbatim, even bytes that as keys would edit or submit. */
  lemma BracketedPasteInserted(f: Field, text: Bytes)
    requires Valid(f) && VP.EscByte !in text
    ensures var events := VP.Run(VP.Initial, "\U{1B}[200~" + text + VP.PasteEnd).events;
            && events == [Paste(text)]
            && ProcessEvent(f, events[0]).field.buffer == f.buffer[..f.cursor] + text + f.buffer[f.cursor..]
  {
    VPP.BracketedPaste(VP.Initial, text);
  }
}
