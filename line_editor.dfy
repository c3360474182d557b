/**
 * What each editing operation of the line editor (src/tui/InputField.cpp)
 * does to the editor's state, as functions on a value of that state.
 *
 * The class InputFields.InputField keeps the same fields and its methods are
 * proved to follow these functions. Cursor movement by grapheme cluster is
 * modelled by movement by UTF-8 codepoint (NextBoundary, PrevBoundary).
 */
module LineEditor {
  import opened Utf8
  import K = KeyCodes
  import Mod = Modifiers
  import opened InputEvents

  /** InputFieldAction. */
  datatype Action = Changed | Submit | Abort | Eof | None

  const MaxKillRing: nat := 16
  const DefaultMaxHistory: nat := 100

  /** Every field of an InputField. */
  datatype Field = Field(
    buffer: Bytes,
    cursor: nat,
    prompt: Bytes,
    history: seq<Bytes>,
    historyIndex: nat,
    savedLine: Bytes,
    maxHistory: nat,
    killRing: seq<Bytes>,
    killRingIndex: nat,
    lastWasKill: bool)

  /** The result of handling one event: the new state and the action returned. */
  datatype Outcome = Outcome(field: Field, action: Action)

  /** A default-constructed InputField. */
  const Initial: Field := Field([], 0, [], [], 0, [], DefaultMaxHistory, [], 0, false)

  /**
   * What every operation keeps: the cursor inside the buffer, the history
   * index at most one past the newest entry, at most maxHistory entries, at
   * most 16 kill-ring entries, and a kill-ring index that names an entry
   * (or is 0 while the ring is empty).
   */
  predicate Valid(f: Field)
  {
    && f.cursor <= |f.buffer|
    && f.historyIndex <= |f.history|
    && |f.history| <= f.maxHistory
    && |f.killRing| <= MaxKillRing
    && (f.killRingIndex < |f.killRing| || f.killRingIndex == 0)
  }

  // ---------------------------------------------------------------------
  // Words

  /** isWordCharAt: every byte except space, tab, LF and CR. */
  predicate WordChar(b: Byte)
  {
    b != ' ' && b != '\t' && b != '\n' && b != '\r'
  }

  /** The first loop of moveForwardWord: skip codepoints that start with a non-word byte. */
  function SkipNonWord(buf: Bytes, pos: nat): (r: nat)
    requires pos <= |buf|
    ensures pos <= r <= |buf|
    ensures r == |buf| || WordChar(buf[r])
    ensures pos < |buf| && !WordChar(buf[pos]) ==> pos < r
    decreases |buf| - pos
  {
    if pos < |buf| && !WordChar(buf[pos]) then SkipNonWord(buf, NextBoundary(buf, pos)) else pos
  }

  /** The second loop of moveForwardWord: skip codepoints that start with a word byte. */
  function SkipWordChars(buf: Bytes, pos: nat): (r: nat)
    requires pos <= |buf|
    ensures pos <= r <= |buf|
    ensures r == |buf| || !WordChar(buf[r])
    ensures pos < |buf| && WordChar(buf[pos]) ==> pos < r
    decreases |buf| - pos
  {
    if pos < |buf| && WordChar(buf[pos]) then SkipWordChars(buf, NextBoundary(buf, pos)) else pos
  }

  /** moveForwardWord: past any separators, then past the word. */
  function ForwardWord(buf: Bytes, pos: nat): (r: nat)
    requires pos <= |buf|
    ensures pos <= r <= |buf|
    ensures pos < |buf| ==> pos < r
    ensures r == |buf| || !WordChar(buf[r])
  {
    SkipWordChars(buf, SkipNonWord(buf, pos))
  }

  /** The first loop of moveBackwardWord: back over codepoints that start with a non-word byte. */
  function BackOverNonWord(buf: Bytes, pos: nat): (r: nat)
    requires pos <= |buf|
    ensures r <= pos
    ensures r == 0 || WordChar(buf[PrevBoundary(buf, r)])
    ensures pos > 0 && !WordChar(buf[PrevBoundary(buf, pos)]) ==> r < pos
  {
    if pos > 0 && !WordChar(buf[PrevBoundary(buf, pos)]) then BackOverNonWord(buf, PrevBoundary(buf, pos)) else pos
  }

  /** The second loop of moveBackwardWord: back over codepoints that start with a word byte. */
  function BackOverWordChars(buf: Bytes, pos: nat): (r: nat)
    requires pos <= |buf|
    ensures r <= pos
    ensures r == 0 || !WordChar(buf[PrevBoundary(buf, r)])
    ensures pos > 0 && WordChar(buf[PrevBoundary(buf, pos)]) ==> r < pos
  {
    if pos > 0 && WordChar(buf[PrevBoundary(buf, pos)]) then BackOverWordChars(buf, PrevBoundary(buf, pos)) else pos
  }

  /** moveBackwardWord: back over any separators, then back to the start of the word. */
  function BackwardWord(buf: Bytes, pos: nat): (r: nat)
    requires pos <= |buf|
    ensures r <= pos
    ensures pos > 0 ==> r < pos
    ensures r == 0 || !WordChar(buf[PrevBoundary(buf, r)])
  {
    BackOverWordChars(buf, BackOverNonWord(buf, pos))
  }

  // ---------------------------------------------------------------------
  // Insertion and the kill ring

  /** insertText: the text goes in at the cursor and the cursor moves past it. */
  function InsertText(f: Field, text: Bytes): (r: Field)
    requires Valid(f)
    ensures Valid(r)
    ensures r.cursor == f.cursor + |text| && |r.buffer| == |f.buffer| + |text|
    ensures r.buffer[..f.cursor] == f.buffer[..f.cursor]
    ensures r.buffer[f.cursor..r.cursor] == text
    ensures r.buffer[r.cursor..] == f.buffer[f.cursor..]
    ensures r == f.(buffer := r.buffer, cursor := r.cursor)
  {
    f.(buffer := f.buffer[..f.cursor] + text + f.buffer[f.cursor..], cursor := f.cursor + |text|)
  }

  /** insertCodepoint: the UTF-8 encoding of cp goes in at the cursor. */
  function InsertCodepoint(f: Field, cp: U32): (r: Field)
    requires Valid(f)
    ensures Valid(r)
    ensures r.cursor == f.cursor + |EncodeUtf8(cp)|
    ensures r.buffer == f.buffer[..f.cursor] + EncodeUtf8(cp) + f.buffer[f.cursor..]
  {
    InsertText(f, EncodeUtf8(cp))
  }

  /**
   * pushKillRing: empty text is ignored; right after a kill the text is
   * appended to the newest entry; otherwise it becomes the newest entry and
   * the oldest is dropped beyond 16.
   */
  function PushKillRing(ring: seq<Bytes>, lastWasKill: bool, text: Bytes): (r: seq<Bytes>)
    requires |ring| <= MaxKillRing
    ensures |ring| <= |r| <= MaxKillRing
    ensures text == [] ==> r == ring
    ensures text != [] ==> r != []
    ensures text != [] && lastWasKill && ring != [] ==>
              r[..|r| - 1] == ring[..|ring| - 1] && r[|r| - 1] == ring[|ring| - 1] + text
    ensures text != [] && !(lastWasKill && ring != []) ==>
              r[|r| - 1] == text && r[..|r| - 1] == (if |ring| == MaxKillRing then ring[1..] else ring)
  {
    if text == [] then ring
    else if lastWasKill && ring != [] then ring[..|ring| - 1] + [ring[|ring| - 1] + text]
    else
      var pushed := ring + [text];
      if |pushed| > MaxKillRing then pushed[1..] else pushed
  }

  /** Removes buffer[start..end] and records it in the kill ring; the cursor goes to start. */
  function Kill(f: Field, start: nat, end: nat): (r: Field)
    requires Valid(f) && start <= end <= |f.buffer|
    ensures Valid(r)
    ensures r.buffer == f.buffer[..start] + f.buffer[end..] && r.cursor == start
    ensures r.killRing == PushKillRing(f.killRing, f.lastWasKill, f.buffer[start..end])
    ensures r.lastWasKill
  {
    f.(buffer := f.buffer[..start] + f.buffer[end..], cursor := start,
       killRing := PushKillRing(f.killRing, f.lastWasKill, f.buffer[start..end]),
       lastWasKill := true)
  }

  /** Ctrl+K: kill from the cursor to the end. */
  function KillToEnd(f: Field): (r: Field)
    requires Valid(f)
    ensures Valid(r) && r.lastWasKill && r.cursor == f.cursor
    ensures r.buffer + f.buffer[f.cursor..] == f.buffer
    ensures r.killRing == PushKillRing(f.killRing, f.lastWasKill, f.buffer[f.cursor..])
  {
    if f.cursor < |f.buffer| then
      assert f.buffer[f.cursor..|f.buffer|] == f.buffer[f.cursor..];
      Kill(f, f.cursor, |f.buffer|)
    else assert f.buffer[f.cursor..] == []; f.(lastWasKill := true)
  }

  /** Ctrl+U: kill from the start to the cursor. */
  function KillToStart(f: Field): (r: Field)
    requires Valid(f)
    ensures Valid(r) && r.lastWasKill && r.cursor == 0
    ensures f.buffer[..f.cursor] + r.buffer == f.buffer
    ensures r.killRing == PushKillRing(f.killRing, f.lastWasKill, f.buffer[..f.cursor])
  {
    if f.cursor > 0 then Kill(f, 0, f.cursor) else f.(lastWasKill := true)
  }

  /** Alt+D: kill from the cursor to the end of the next word. */
  function KillWord(f: Field): (r: Field)
    requires Valid(f)
    ensures Valid(r) && r.lastWasKill && r.cursor == f.cursor
    ensures var end := ForwardWord(f.buffer, f.cursor);
            r.buffer == f.buffer[..f.cursor] + f.buffer[end..]
            && r.killRing == PushKillRing(f.killRing, f.lastWasKill, f.buffer[f.cursor..end])
  {
    var end := ForwardWord(f.buffer, f.cursor);
    if end > f.cursor then Kill(f, f.cursor, end) else f.(lastWasKill := true)
  }

  /** Ctrl+W, Ctrl+Backspace, Alt+Backspace: kill back to the start of the previous word. */
  function KillWordBackward(f: Field): (r: Field)
    requires Valid(f)
    ensures Valid(r) && r.lastWasKill
    ensures r.cursor == BackwardWord(f.buffer, f.cursor)
    ensures r.buffer == f.buffer[..r.cursor] + f.buffer[f.cursor..]
    ensures r.killRing == PushKillRing(f.killRing, f.lastWasKill, f.buffer[r.cursor..f.cursor])
  {
    var start := BackwardWord(f.buffer, f.cursor);
    if start < f.cursor then Kill(f, start, f.cursor) else f.(cursor := start, lastWasKill := true)
  }

  /** Ctrl+Y: insert the newest kill-ring entry. */
  function Yank(f: Field): (r: Field)
    requires Valid(f)
    ensures Valid(r)
    ensures f.killRing == [] ==> r == f
    ensures f.killRing != [] ==>
              r == InsertText(f.(killRingIndex := |f.killRing| - 1), f.killRing[|f.killRing| - 1])
  {
    if f.killRing == [] then f
    else
      var index := |f.killRing| - 1;
      InsertText(f.(killRingIndex := index), f.killRing[index])
  }

  /**
   * The first half of Alt+Y: remove as many bytes before the cursor as the
   * current entry has, when the cursor is that far in. The bytes removed are
   * not compared with the entry.
   */
  function RemoveYanked(f: Field): (r: Field)
    requires Valid(f) && f.killRing != []
    ensures Valid(r) && r.killRing == f.killRing && r.killRingIndex == f.killRingIndex
    ensures var n := |f.killRing[f.killRingIndex]|;
            if f.cursor >= n then
              r.cursor == f.cursor - n && r.buffer == f.buffer[..r.cursor] + f.buffer[f.cursor..]
            else r == f
  {
    if f.killRingIndex < |f.killRing| && f.cursor >= |f.killRing[f.killRingIndex]| then
      var n := |f.killRing[f.killRingIndex]|;
      f.(buffer := f.buffer[..f.cursor - n] + f.buffer[f.cursor..], cursor := f.cursor - n)
    else f
  }

  /** Alt+Y: replace the yanked entry by the next older one, wrapping from the oldest to the newest. */
  function YankPop(f: Field): (r: Field)
    requires Valid(f)
    ensures Valid(r)
    ensures f.killRing == [] ==> r == f
    ensures f.killRing != [] ==>
              && r.killRing == f.killRing
              && r.killRingIndex == (if f.killRingIndex == 0 then |f.killRing| - 1 else f.killRingIndex - 1)
              && r == InsertText(RemoveYanked(f).(killRingIndex := r.killRingIndex), f.killRing[r.killRingIndex])
  {
    if f.killRing == [] then f
    else
      var index := if f.killRingIndex == 0 then |f.killRing| - 1 else f.killRingIndex - 1;
      InsertText(RemoveYanked(f).(killRingIndex := index), f.killRing[index])
  }

  // ---------------------------------------------------------------------
  // Deletion and movement

  /** Delete: remove the codepoint at the cursor; nothing at the end. */
  function DeleteChar(f: Field): (r: Field)
    requires Valid(f)
    ensures Valid(r) && r.cursor == f.cursor
    ensures f.cursor == |f.buffer| ==> r == f
    ensures f.cursor < |f.buffer| ==>
              r == f.(buffer := f.buffer[..f.cursor] + f.buffer[NextBoundary(f.buffer, f.cursor)..])
  {
    if f.cursor >= |f.buffer| then f
    else f.(buffer := f.buffer[..f.cursor] + f.buffer[NextBoundary(f.buffer, f.cursor)..])
  }

  /** Backspace: remove the codepoint before the cursor and move there; nothing at 0. */
  function DeleteCharBackward(f: Field): (r: Field)
    requires Valid(f)
    ensures Valid(r)
    ensures f.cursor == 0 ==> r == f
    ensures f.cursor > 0 ==>
              var prev := PrevBoundary(f.buffer, f.cursor);
              r == f.(buffer := f.buffer[..prev] + f.buffer[f.cursor..], cursor := prev)
  {
    if f.cursor == 0 then f
    else
      var prev := PrevBoundary(f.buffer, f.cursor);
      f.(buffer := f.buffer[..prev] + f.buffer[f.cursor..], cursor := prev)
  }

  function MoveToStart(f: Field): (r: Field)
    requires Valid(f)
    ensures Valid(r) && r == f.(cursor := 0)
  {
    f.(cursor := 0)
  }

  function MoveToEnd(f: Field): (r: Field)
    requires Valid(f)
    ensures Valid(r) && r == f.(cursor := |f.buffer|)
  {
    f.(cursor := |f.buffer|)
  }

  function MoveForwardChar(f: Field): (r: Field)
    requires Valid(f)
    ensures Valid(r) && r == f.(cursor := r.cursor)
    ensures f.cursor < |f.buffer| ==> f.cursor < r.cursor
    ensures f.cursor == |f.buffer| ==> r == f
  {
    f.(cursor := NextBoundary(f.buffer, f.cursor))
  }

  function MoveBackwardChar(f: Field): (r: Field)
    requires Valid(f)
    ensures Valid(r) && r == f.(cursor := r.cursor)
    ensures f.cursor > 0 ==> r.cursor < f.cursor
    ensures f.cursor == 0 ==> r == f
  {
    f.(cursor := PrevBoundary(f.buffer, f.cursor))
  }

  function MoveForwardWord(f: Field): (r: Field)
    requires Valid(f)
    ensures Valid(r) && r == f.(cursor := ForwardWord(f.buffer, f.cursor))
  {
    f.(cursor := ForwardWord(f.buffer, f.cursor))
  }

  function MoveBackwardWord(f: Field): (r: Field)
    requires Valid(f)
    ensures Valid(r) && r == f.(cursor := BackwardWord(f.buffer, f.cursor))
  {
    f.(cursor := BackwardWord(f.buffer, f.cursor))
  }

  /**
   * Ctrl+T: swap the codepoint before the cursor with the one at it (the
   * two before the cursor when it is at the end); the cursor goes past both.
   */
  function Transpose(f: Field): (r: Field)
    requires Valid(f)
    ensures Valid(r) && |r.buffer| == |f.buffer|
    ensures f.cursor == 0 || |f.buffer| < 2 ==> r == f
    ensures f.cursor > 0 && |f.buffer| >= 2 ==>
              var (prevPos, pos, nextPos) := SwapPoints(f);
              && r.cursor == nextPos
              && r.buffer[..prevPos] == f.buffer[..prevPos]
              && r.buffer[prevPos..prevPos + (nextPos - pos)] == f.buffer[pos..nextPos]
              && r.buffer[prevPos + (nextPos - pos)..nextPos] == f.buffer[prevPos..pos]
              && r.buffer[nextPos..] == f.buffer[nextPos..]
  {
    if f.cursor == 0 || |f.buffer| < 2 then f
    else
      var (prevPos, pos, nextPos) := SwapPoints(f);
      var first := f.buffer[prevPos..pos];
      var second := f.buffer[pos..nextPos];
      f.(buffer := f.buffer[..prevPos] + (second + first) + f.buffer[nextPos..], cursor := nextPos)
  }

  /**
   * The codepoints Ctrl+T swaps: prevPos..pos and pos..nextPos, where pos is
   * the cursor, or the codepoint before it when the cursor is at the end.
   */
  function SwapPoints(f: Field): (p: (nat, nat, nat))
    requires Valid(f) && f.cursor > 0 && |f.buffer| >= 2
    ensures p.0 <= p.1 < p.2 <= |f.buffer|
    ensures p.1 == if f.cursor == |f.buffer| then PrevBoundary(f.buffer, f.cursor) else f.cursor
    ensures p.0 == PrevBoundary(f.buffer, p.1) && p.2 == NextBoundary(f.buffer, p.1)
  {
    var pos := if f.cursor == |f.buffer| then PrevBoundary(f.buffer, f.cursor) else f.cursor;
    (PrevBoundary(f.buffer, pos), pos, NextBoundary(f.buffer, pos))
  }

  // ---------------------------------------------------------------------
  // History

  /** Up, Ctrl+P: show the previous entry, saving the edited line when leaving it. */
  function HistoryPrev(f: Field): (r: Field)
    requires Valid(f)
    ensures Valid(r)
    ensures f.history == [] ==> r == f
    ensures f.history != [] ==> r.savedLine == (if f.historyIndex == |f.history| then f.buffer else f.savedLine)
    ensures f.history != [] && f.historyIndex == 0 ==> r == f.(savedLine := r.savedLine)
    ensures f.history != [] && f.historyIndex > 0 ==>
              r.historyIndex == f.historyIndex - 1
              && r.buffer == f.history[r.historyIndex] && r.cursor == |r.buffer|
              && r == f.(savedLine := r.savedLine, historyIndex := r.historyIndex, buffer := r.buffer, cursor := r.cursor)
  {
    if f.history == [] then f
    else
      var g := if f.historyIndex == |f.history| then f.(savedLine := f.buffer) else f;
      if g.historyIndex > 0 then
        var index := g.historyIndex - 1;
        g.(historyIndex := index, buffer := f.history[index], cursor := |f.history[index]|)
      else g
  }

  /** Down, Ctrl+N: show the next entry, or the saved line (then cleared) past the newest. */
  function HistoryNext(f: Field): (r: Field)
    requires Valid(f)
    ensures Valid(r)
    ensures f.historyIndex == |f.history| ==> r == f
    ensures f.historyIndex < |f.history| ==>
              && r.historyIndex == f.historyIndex + 1 && r.cursor == |r.buffer|
              && (r.historyIndex == |f.history| ==> r.buffer == f.savedLine && r.savedLine == [])
              && (r.historyIndex < |f.history| ==> r.buffer == f.history[r.historyIndex] && r.savedLine == f.savedLine)
              && r == f.(historyIndex := r.historyIndex, buffer := r.buffer, cursor := r.cursor, savedLine := r.savedLine)
  {
    if f.historyIndex >= |f.history| then f
    else
      var index := f.historyIndex + 1;
      var g :=
        if index == |f.history| then f.(historyIndex := index, buffer := f.savedLine, savedLine := [])
        else f.(historyIndex := index, buffer := f.history[index]);
      g.(cursor := |g.buffer|)
  }

  /**
   * addHistory: empty lines and repeats of the newest entry are ignored;
   * otherwise the entry is appended, the oldest dropped beyond maxHistory,
   * and the index reset past the newest.
   */
  function AddHistory(f: Field, entry: Bytes): (r: Field)
    requires Valid(f)
    ensures Valid(r)
    ensures entry == [] || (f.history != [] && f.history[|f.history| - 1] == entry) ==> r == f
    ensures !(entry == [] || (f.history != [] && f.history[|f.history| - 1] == entry)) ==>
              && r.historyIndex == |r.history|
              && r.history == (if |f.history| == f.maxHistory then (f.history + [entry])[1..] else f.history + [entry])
              && r == f.(history := r.history, historyIndex := r.historyIndex)
  {
    if entry == [] || (f.history != [] && f.history[|f.history| - 1] == entry) then f
    else
      var pushed := f.history + [entry];
      var kept := if |pushed| > f.maxHistory then pushed[1..] else pushed;
      f.(history := kept, historyIndex := |kept|)
  }

  /** The newest n entries (all of them when there are at most n). */
  function NewestEntries(history: seq<Bytes>, n: nat): (r: seq<Bytes>)
    ensures |r| == if |history| <= n then |history| else n
    ensures r == history[|history| - |r|..]
  {
    if |history| <= n then history else history[|history| - n..]
  }

  /**
   * setMaxHistory as the source writes it: the oldest entries are dropped
   * but the history index is left as it was, so it can point past the end.
   */
  function SetMaxHistoryAsWritten(f: Field, n: nat): Field
  {
    f.(maxHistory := n, history := NewestEntries(f.history, n))
  }

  /** setMaxHistory with the index reset past the newest remaining entry, as addHistory leaves it. */
  function SetMaxHistory(f: Field, n: nat): (r: Field)
    requires Valid(f)
    ensures Valid(r)
    ensures r.maxHistory == n && r.history == NewestEntries(f.history, n)
    ensures f.historyIndex <= |r.history| ==> r.historyIndex == f.historyIndex
    ensures f.historyIndex > |r.history| ==> r.historyIndex == |r.history|
  {
    var kept := NewestEntries(f.history, n);
    f.(maxHistory := n, history := kept, historyIndex := if f.historyIndex > |kept| then |kept| else f.historyIndex)
  }

  function Clear(f: Field): (r: Field)
    requires Valid(f)
    ensures Valid(r) && r == f.(buffer := [], cursor := 0)
  {
    f.(buffer := [], cursor := 0)
  }

  function SetText(f: Field, text: Bytes): (r: Field)
    requires Valid(f)
    ensures Valid(r) && r == f.(buffer := text, cursor := |text|)
  {
    f.(buffer := text, cursor := |text|)
  }

  // ---------------------------------------------------------------------
  // Events

  /** An action that also ends a run of kills. */
  function Done(f: Field, action: Action): (r: Outcome)
    ensures r.field == f.(lastWasKill := false) && r.action == action
  {
    Outcome(f.(lastWasKill := false), action)
  }

  predicate IsCode(cp: U32, c: char)
  {
    cp == c as int
  }

  /** The letters bound under Ctrl. */
  predicate IsCtrlBinding(cp: U32)
  {
    || IsCode(cp, 'a') || IsCode(cp, 'e') || IsCode(cp, 'f') || IsCode(cp, 'b') || IsCode(cp, 'p')
    || IsCode(cp, 'n') || IsCode(cp, 'k') || IsCode(cp, 'u') || IsCode(cp, 'w') || IsCode(cp, 'y')
    || IsCode(cp, 't') || IsCode(cp, 'd') || IsCode(cp, 'c')
  }

  /** The letters bound under Alt. */
  predicate IsAltBinding(cp: U32)
  {
    IsCode(cp, 'f') || IsCode(cp, 'b') || IsCode(cp, 'd') || IsCode(cp, 'y')
  }

  /** The Ctrl+letter switch of handleKey. */
  function CtrlKey(f: Field, cp: U32): (r: Outcome)
    requires Valid(f)
    ensures Valid(r.field)
  {
    if IsCode(cp, 'a') then Done(MoveToStart(f), Changed)
    else if IsCode(cp, 'e') then Done(MoveToEnd(f), Changed)
    else if IsCode(cp, 'f') then Done(MoveForwardChar(f), Changed)
    else if IsCode(cp, 'b') then Done(MoveBackwardChar(f), Changed)
    else if IsCode(cp, 'p') then Done(HistoryPrev(f), Changed)
    else if IsCode(cp, 'n') then Done(HistoryNext(f), Changed)
    else if IsCode(cp, 'k') then Outcome(KillToEnd(f), Changed)
    else if IsCode(cp, 'u') then Outcome(KillToStart(f), Changed)
    else if IsCode(cp, 'w') then Outcome(KillWordBackward(f), Changed)
    else if IsCode(cp, 'y') then Done(Yank(f), Changed)
    else if IsCode(cp, 't') then Done(Transpose(f), Changed)
    else if IsCode(cp, 'd') then
      if f.buffer == [] then Outcome(f, Eof) else Done(DeleteChar(f), Changed)
    else if IsCode(cp, 'c') then Outcome(f, Abort)
    else Outcome(f, None)
  }

  /** The Alt+letter switch of handleKey. */
  function AltKey(f: Field, cp: U32): (r: Outcome)
    requires Valid(f)
    ensures Valid(r.field)
  {
    if IsCode(cp, 'f') then Done(MoveForwardWord(f), Changed)
    else if IsCode(cp, 'b') then Done(MoveBackwardWord(f), Changed)
    else if IsCode(cp, 'd') then Outcome(KillWord(f), Changed)
    else if IsCode(cp, 'y') then Done(YankPop(f), Changed)
    else Outcome(f, None)
  }

  /**
   * handleKey: the named keys first, whatever the modifiers; then the
   * Ctrl and Alt letter bindings; then a printable key inserts its
   * codepoint; anything else is not consumed.
   */
  function HandleKey(f: Field, key: KeyEvent): (r: Outcome)
    requires Valid(f)
    ensures Valid(r.field)
  {
    var ctrl := Mod.HasModifier(key.modifiers, Mod.Ctrl);
    var alt := Mod.HasModifier(key.modifiers, Mod.Alt);
    if key.key == K.Enter then Done(f, Submit)
    else if key.key == K.Tab || key.key == K.Escape then Done(f, None)
    else if key.key == K.Backspace then
      if ctrl || alt then Outcome(KillWordBackward(f), Changed) else Done(DeleteCharBackward(f), Changed)
    else if key.key == K.Delete then Done(DeleteChar(f), Changed)
    else if key.key == K.Up then Done(HistoryPrev(f), Changed)
    else if key.key == K.Down then Done(HistoryNext(f), Changed)
    else if key.key == K.Left then
      Done(if ctrl then MoveBackwardWord(f) else MoveBackwardChar(f), Changed)
    else if key.key == K.Right then
      Done(if ctrl then MoveForwardWord(f) else MoveForwardChar(f), Changed)
    else if key.key == K.Home then Done(MoveToStart(f), Changed)
    else if key.key == K.End then Done(MoveToEnd(f), Changed)
    else if ctrl && key.codepoint != 0 && IsCtrlBinding(key.codepoint) then CtrlKey(f, key.codepoint)
    else if alt && key.codepoint != 0 && IsAltBinding(key.codepoint) then AltKey(f, key.codepoint)
    else if key.codepoint != 0 && !ctrl && !alt && K.IsPrintable(key.key) then
      Done(InsertCodepoint(f, key.codepoint), Changed)
    else Outcome(f, None)
  }

  /** processEvent: keys go to handleKey, a paste inserts its text, anything else is ignored. */
  function ProcessEvent(f: Field, event: InputEvent): (r: Outcome)
    requires Valid(f)
    ensures Valid(r.field)
  {
    match event
    case Key(k) => HandleKey(f, k)
    case Paste(text) => Done(InsertText(f, text), Changed)
    case _ => Outcome(f, None)
  }
}
