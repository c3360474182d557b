/**
 * The line editor as the source keeps it (src/tui/InputField.cpp): an object
 * whose methods update its fields in place. Every method is proved to do what
 * the function of the same name in LineEditor says, and so to keep
 * LineEditor.Valid.
 */
module InputFields {
  import opened Utf8
  import K = KeyCodes
  import Mod = Modifiers
  import opened InputEvents
  import E = LineEditor

  class InputField {
    var buffer: Bytes
    var cursor: nat
    var prompt: Bytes
    var history: seq<Bytes>
    var historyIndex: nat
    var savedLine: Bytes
    var maxHistory: nat
    var killRing: seq<Bytes>
    var killRingIndex: nat
    var lastWasKill: bool

    /** The fields as one value. */
    function Snapshot(): E.Field
      reads this
    {
      E.Field(buffer, cursor, prompt, history, historyIndex, savedLine, maxHistory, killRing, killRingIndex, lastWasKill)
    }

    predicate Valid()
      reads this
    {
      E.Valid(Snapshot())
    }

    constructor()
      ensures Snapshot() == E.Initial && Valid()
    {
      buffer := [];
      cursor := 0;
      prompt := [];
      history := [];
      historyIndex := 0;
      savedLine := [];
      maxHistory := E.DefaultMaxHistory;
      killRing := [];
      killRingIndex := 0;
      lastWasKill := false;
    }

    method ProcessEvent(event: InputEvent) returns (action: E.Action)
      requires Valid()
      modifies this
      ensures E.Outcome(Snapshot(), action) == E.ProcessEvent(old(Snapshot()), event)
      ensures Valid()
    {
      match event
      case Key(k) =>
        action := HandleKey(k);
      case Paste(text) =>
        InsertText(text);
        lastWasKill := false;
        action := E.Changed;
      case _ =>
        action := E.None;
    }

    method SetPrompt(p: Bytes)
      modifies this
      ensures Snapshot() == old(Snapshot()).(prompt := p)
    {
      prompt := p;
    }

    method Clear()
      requires Valid()
      modifies this
      ensures Snapshot() == E.Clear(old(Snapshot()))
    {
      buffer := [];
      cursor := 0;
    }

    method SetText(text: Bytes)
      requires Valid()
      modifies this
      ensures Snapshot() == E.SetText(old(Snapshot()), text)
    {
      buffer := text;
      cursor := |text|;
    }

    method AddHistory(entry: Bytes)
      requires Valid()
      modifies this
      ensures Snapshot() == E.AddHistory(old(Snapshot()), entry)
    {
      if entry == [] {
        return;
      }
      if history != [] && history[|history| - 1] == entry {
        return;
      }
      history := history + [entry];
      if |history| > maxHistory {
        history := history[1..];
      }
      historyIndex := |history|;
    }

    /** setMaxHistory, dropping the oldest entries one at a time, with the index kept in range. */
    method SetMaxHistory(n: nat)
      requires Valid()
      modifies this
      ensures Snapshot() == E.SetMaxHistory(old(Snapshot()), n)
    {
      var kept := history;
      while |kept| > n
        invariant kept == history[|history| - |kept|..] && unchanged(this)
        invariant |kept| >= (if |history| <= n then |history| else n)
      {
        kept := kept[1..];
      }
      maxHistory := n;
      history := kept;
      if historyIndex > |history| {
        historyIndex := |history|;
      }
    }

    method HandleKey(key: KeyEvent) returns (action: E.Action)
      requires Valid()
      modifies this
      ensures E.Outcome(Snapshot(), action) == E.HandleKey(old(Snapshot()), key)
    {
      var ctrl := Mod.HasModifier(key.modifiers, Mod.Ctrl);
      var alt := Mod.HasModifier(key.modifiers, Mod.Alt);
      if key.key == K.Enter {
        lastWasKill := false;
        return E.Submit;
      } else if key.key == K.Tab || key.key == K.Escape {
        lastWasKill := false;
        return E.None;
      } else if key.key == K.Backspace {
        if ctrl || alt {
          KillWordBackward();
          return E.Changed;
        }
        DeleteCharBackward();
      } else if key.key == K.Delete {
        DeleteChar();
      } else if key.key == K.Up {
        HistoryPrev();
      } else if key.key == K.Down {
        HistoryNext();
      } else if key.key == K.Left {
        if ctrl {
          MoveBackwardWord();
        } else {
          MoveBackwardChar();
        }
      } else if key.key == K.Right {
        if ctrl {
          MoveForwardWord();
        } else {
          MoveForwardChar();
        }
      } else if key.key == K.Home {
        MoveToStart();
      } else if key.key == K.End {
        MoveToEnd();
      } else if ctrl && key.codepoint != 0 && E.IsCtrlBinding(key.codepoint) {
        action := CtrlKey(key.codepoint);
        return;
      } else if alt && key.codepoint != 0 && E.IsAltBinding(key.codepoint) {
        action := AltKey(key.codepoint);
        return;
      } else if key.codepoint != 0 && !ctrl && !alt && K.IsPrintable(key.key) {
        InsertCodepoint(key.codepoint);
      } else {
        return E.None;
      }
      lastWasKill := false;
      action := E.Changed;
    }

    method CtrlKey(cp: U32) returns (action: E.Action)
      requires Valid()
      modifies this
      ensures E.Outcome(Snapshot(), action) == E.CtrlKey(old(Snapshot()), cp)
    {
      if E.IsCode(cp, 'a') {
        MoveToStart();
      } else if E.IsCode(cp, 'e') {
        MoveToEnd();
      } else if E.IsCode(cp, 'f') {
        MoveForwardChar();
      } else if E.IsCode(cp, 'b') {
        MoveBackwardChar();
      } else if E.IsCode(cp, 'p') {
        HistoryPrev();
      } else if E.IsCode(cp, 'n') {
        HistoryNext();
      } else if E.IsCode(cp, 'k') {
        KillToEnd();
        return E.Changed;
      } else if E.IsCode(cp, 'u') {
        KillToStart();
        return E.Changed;
      } else if E.IsCode(cp, 'w') {
        KillWordBackward();
        return E.Changed;
      } else if E.IsCode(cp, 'y') {
        Yank();
      } else if E.IsCode(cp, 't') {
        Transpose();
      } else if E.IsCode(cp, 'd') {
        if buffer == [] {
          return E.Eof;
        }
        DeleteChar();
      } else if E.IsCode(cp, 'c') {
        return E.Abort;
      } else {
        return E.None;
      }
      lastWasKill := false;
      action := E.Changed;
    }

    method AltKey(cp: U32) returns (action: E.Action)
      requires Valid()
      modifies this
      ensures E.Outcome(Snapshot(), action) == E.AltKey(old(Snapshot()), cp)
    {
      if E.IsCode(cp, 'f') {
        MoveForwardWord();
      } else if E.IsCode(cp, 'b') {
        MoveBackwardWord();
      } else if E.IsCode(cp, 'd') {
        KillWord();
        return E.Changed;
      } else if E.IsCode(cp, 'y') {
        YankPop();
      } else {
        return E.None;
      }
      lastWasKill := false;
      action := E.Changed;
    }

    method PushKillRing(text: Bytes)
      requires |killRing| <= E.MaxKillRing
      modifies this
      ensures Snapshot() == old(Snapshot()).(killRing := E.PushKillRing(old(killRing), old(lastWasKill), text))
    {
      if text == [] {
        return;
      }
      if lastWasKill && killRing != [] {
        killRing := killRing[..|killRing| - 1] + [killRing[|killRing| - 1] + text];
      } else {
        killRing := killRing + [text];
        if |killRing| > E.MaxKillRing {
          killRing := killRing[1..];
        }
      }
    }

    method KillToEnd()
      requires Valid()
      modifies this
      ensures Snapshot() == E.KillToEnd(old(Snapshot()))
    {
      if cursor < |buffer| {
        var killed := buffer[cursor..];
        buffer := buffer[..cursor];
        PushKillRing(killed);
      }
      lastWasKill := true;
    }

    method KillToStart()
      requires Valid()
      modifies this
      ensures Snapshot() == E.KillToStart(old(Snapshot()))
    {
      if cursor > 0 {
        var killed := buffer[..cursor];
        buffer := buffer[cursor..];
        cursor := 0;
        PushKillRing(killed);
      }
      lastWasKill := true;
    }

    method KillWord()
      requires Valid()
      modifies this
      ensures Snapshot() == E.KillWord(old(Snapshot()))
    {
      var start := cursor;
      MoveForwardWord();
      if cursor > start {
        var killed := buffer[start..cursor];
        buffer := buffer[..start] + buffer[cursor..];
        cursor := start;
        PushKillRing(killed);
      }
      lastWasKill := true;
    }

    method KillWordBackward()
      requires Valid()
      modifies this
      ensures Snapshot() == E.KillWordBackward(old(Snapshot()))
    {
      var end := cursor;
      MoveBackwardWord();
      if cursor < end {
        var killed := buffer[cursor..end];
        buffer := buffer[..cursor] + buffer[end..];
        PushKillRing(killed);
      }
      lastWasKill := true;
    }

    method Yank()
      requires Valid()
      modifies this
      ensures Snapshot() == E.Yank(old(Snapshot()))
    {
      if killRing == [] {
        return;
      }
      killRingIndex := |killRing| - 1;
      InsertText(killRing[killRingIndex]);
    }

    method YankPop()
      requires Valid()
      modifies this
      ensures Snapshot() == E.YankPop(old(Snapshot()))
    {
      if killRing == [] {
        return;
      }
      if killRingIndex < |killRing| {
        var n := |killRing[killRingIndex]|;
        if cursor >= n {
          buffer := buffer[..cursor - n] + buffer[cursor..];
          cursor := cursor - n;
        }
      }
      assert Snapshot() == E.RemoveYanked(old(Snapshot()));
      killRingIndex := if killRingIndex == 0 then |killRing| - 1 else killRingIndex - 1;
      InsertText(killRing[killRingIndex]);
    }

    method DeleteChar()
      requires Valid()
      modifies this
      ensures Snapshot() == E.DeleteChar(old(Snapshot()))
    {
      if cursor >= |buffer| {
        return;
      }
      var next := NextUtf8(buffer, cursor);
      buffer := buffer[..cursor] + buffer[next..];
    }

    method DeleteCharBackward()
      requires Valid()
      modifies this
      ensures Snapshot() == E.DeleteCharBackward(old(Snapshot()))
    {
      if cursor == 0 {
        return;
      }
      var prev := PrevUtf8(buffer, cursor);
      buffer := buffer[..prev] + buffer[cursor..];
      cursor := prev;
    }

    method MoveToStart()
      requires Valid()
      modifies this
      ensures Snapshot() == E.MoveToStart(old(Snapshot()))
    {
      cursor := 0;
    }

    method MoveToEnd()
      requires Valid()
      modifies this
      ensures Snapshot() == E.MoveToEnd(old(Snapshot()))
    {
      cursor := |buffer|;
    }

    method MoveForwardChar()
      requires Valid()
      modifies this
      ensures Snapshot() == E.MoveForwardChar(old(Snapshot()))
    {
      cursor := NextUtf8(buffer, cursor);
    }

    method MoveBackwardChar()
      requires Valid()
      modifies this
      ensures Snapshot() == E.MoveBackwardChar(old(Snapshot()))
    {
      cursor := PrevUtf8(buffer, cursor);
    }

    /** moveForwardWord: two loops over codepoints, as the source writes it. */
    method MoveForwardWord()
      requires Valid()
      modifies this
      ensures Snapshot() == E.MoveForwardWord(old(Snapshot()))
    {
      var buf := buffer;
      var size := |buf|;
      var start: nat := cursor;
      var pos: nat := start;
      while pos < size && !E.WordChar(buf[pos])
        invariant pos <= size && unchanged(this)
        invariant E.SkipNonWord(buf, pos) == E.SkipNonWord(buf, start)
        decreases size - pos
      {
        pos := NextUtf8(buf, pos);
      }
      while pos < size && E.WordChar(buf[pos])
        invariant pos <= size && unchanged(this)
        invariant E.SkipWordChars(buf, pos) == E.ForwardWord(buf, start)
        decreases size - pos
      {
        pos := NextUtf8(buf, pos);
      }
      cursor := pos;
    }

    /** moveBackwardWord: two loops over codepoints, as the source writes it. */
    method MoveBackwardWord()
      requires Valid()
      modifies this
      ensures Snapshot() == E.MoveBackwardWord(old(Snapshot()))
    {
      var buf := buffer;
      var start: nat := cursor;
      var pos: nat := start;
      while pos > 0 && !E.WordChar(buf[PrevBoundary(buf, pos)])
        invariant pos <= |buf| && unchanged(this)
        invariant E.BackOverNonWord(buf, pos) == E.BackOverNonWord(buf, start)
      {
        pos := PrevUtf8(buf, pos);
      }
      while pos > 0 && E.WordChar(buf[PrevBoundary(buf, pos)])
        invariant pos <= |buf| && unchanged(this)
        invariant E.BackOverWordChars(buf, pos) == E.BackwardWord(buf, start)
      {
        pos := PrevUtf8(buf, pos);
      }
      cursor := pos;
    }

    method HistoryPrev()
      requires Valid()
      modifies this
      ensures Snapshot() == E.HistoryPrev(old(Snapshot()))
    {
      if history == [] {
        return;
      }
      if historyIndex == |history| {
        savedLine := buffer;
      }
      if historyIndex > 0 {
        historyIndex := historyIndex - 1;
        buffer := history[historyIndex];
        cursor := |buffer|;
      }
    }

    method HistoryNext()
      requires Valid()
      modifies this
      ensures Snapshot() == E.HistoryNext(old(Snapshot()))
    {
      if historyIndex >= |history| {
        return;
      }
      historyIndex := historyIndex + 1;
      if historyIndex == |history| {
        buffer := savedLine;
        savedLine := [];
      } else {
        buffer := history[historyIndex];
      }
      cursor := |buffer|;
    }

    method Transpose()
      requires Valid()
      modifies this
      ensures Snapshot() == E.Transpose(old(Snapshot()))
    {
      if cursor == 0 || |buffer| < 2 {
        return;
      }
      var pos := cursor;
      if pos == |buffer| {
        pos := PrevUtf8(buffer, pos);
      }
      var prevPos := PrevUtf8(buffer, pos);
      var nextPos := NextUtf8(buffer, pos);
      var first := buffer[prevPos..pos];
      var second := buffer[pos..nextPos];
      buffer := buffer[..prevPos] + (second + first) + buffer[nextPos..];
      cursor := nextPos;
    }

    method InsertCodepoint(cp: U32)
      requires Valid()
      modifies this
      ensures Snapshot() == E.InsertCodepoint(old(Snapshot()), cp)
    {
      var utf8 := EncodeUtf8(cp);
      InsertText(utf8);
    }

    method InsertText(text: Bytes)
      requires Valid()
      modifies this
      ensures Snapshot() == E.InsertText(old(Snapshot()), text)
    {
      buffer := buffer[..cursor] + text + buffer[cursor..];
      cursor := cursor + |text|;
    }
  }
}
