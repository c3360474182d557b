/** What the dialogs of src/tui/Dialog.cpp promise, stated on their step functions. */
module DialogProps {
  import opened Utf8
  import K = KeyCodes
  import Mod = Modifiers
  import opened InputEvents
  import M = ListModel
  import B = Boxes
  import Styles
  import CharConv
  import opened Dialogs

  // ---------------------------------------------------------------------------
  // SelectDialog

  /**
   * The selection dialog confirms exactly on Enter over a visible, enabled
   * item, and confirming leaves the list as it was.
   */
  lemma SelectConfirmsEnabledItem(s: M.State, event: InputEvent)
    requires M.WellFormed(s)
    ensures FromListAction(M.ProcessEvent(s, event).action) == Confirmed <==>
              event.Key? && event.k.key == K.Enter &&
              M.SelectedItem(s).Some? && M.SelectedItem(s).value.enabled
    ensures FromListAction(M.ProcessEvent(s, event).action) == Confirmed ==> M.ProcessEvent(s, event).state == s
  {
    if event.Key? && event.k.key == K.Enter {
      assert !M.IsVimKey(event.k, 'j') && !M.IsVimKey(event.k, 'k');
    }
  }

  /** Escape always cancels the selection dialog, whatever the list holds. */
  lemma SelectEscapeCancels(s: M.State, mods: Mod.Modifier, cp: U32)
    requires M.WellFormed(s)
    ensures FromListAction(M.ProcessEvent(s, Key(KeyEvent(K.Escape, mods, cp))).action) == Cancelled
  {
    assert !K.IsPrintable(K.Escape);
  }

  /**
   * calculateBounds on a terminal reported by the window-size query: the
   * list gets min(visible items, maxHeight - 2) rows inside a bordered box,
   * the box is no wider than termCols - 4 and is centred horizontally (the
   * right margin is the left one or one more), and on a terminal tall enough
   * for it the box and the hint line below it stay on screen, with the
   * vertical slack split evenly or with the extra row below.
   */
  lemma BoundsGeometry(config: SelectConfig, itemCount: nat, termCols: CharConv.I32, termRows: CharConv.I32)
    requires 2 <= config.maxHeight && 0 <= config.width && itemCount < 0x8000_0000
    requires 4 <= termCols <= 0xFFFF && 0 <= termRows <= 0xFFFF
    ensures var r := Bounds(config, itemCount, termCols, termRows);
            && r.height == Min(itemCount, config.maxHeight - 2) + 2
            && r.width == Min(config.width, termCols - 4)
            && (r.border != B.None ==> B.InnerHeight(B.Box(r)) == Min(itemCount, config.maxHeight - 2))
            && r.col - 1 >= 2
            && (termCols - (r.col - 1 + r.width) == r.col - 1 || termCols - (r.col - 1 + r.width) == r.col)
            && (termRows >= r.height ==>
                  && 0 <= r.row && r.row + r.height <= termRows
                  && 2 * r.row <= termRows - r.height <= 2 * r.row + 1)
  {
    var height := Min(itemCount, config.maxHeight - 2) + 2;
    var width := Min(config.width, termCols - 4);
    BoundsWithoutWrap(config, itemCount, termCols, termRows, height, width);
  }

  /** On these inputs no step of calculateBounds wraps around. */
  lemma BoundsWithoutWrap(config: SelectConfig, itemCount: nat, termCols: CharConv.I32, termRows: CharConv.I32,
                          height: int, width: int)
    requires 2 <= config.maxHeight && 0 <= config.width && itemCount < 0x8000_0000
    requires 4 <= termCols <= 0xFFFF && 0 <= termRows <= 0xFFFF
    requires height == Min(itemCount, config.maxHeight - 2) + 2 && width == Min(config.width, termCols - 4)
    ensures var r := Bounds(config, itemCount, termCols, termRows);
            r.height == height && r.width == width &&
            r.row == B.TruncDiv(termRows - height, 2) && r.col == (termCols - width) / 2 + 1
  {
    Int32Exact(itemCount);
    Int32Exact(config.maxHeight - 2);
    Int32Exact(height);
    Int32Exact(termCols - 4);
    Int32Exact(termCols - width);
    Int32Exact(termRows - height);
    Int32Exact((termCols - width) / 2 + 1);
    Int32Exact(B.TruncDiv(termRows - height, 2));
  }

  lemma Int32Exact(x: int)
    requires -0x8000_0000 <= x < 0x8000_0000
    ensures B.Int32(x) == x
  {
  }

  /** The default dialog (50 wide, at most 20 high) with five items on an 80x24 terminal. */
  lemma BoundsExample()
    ensures var config := SelectConfig([], [], 50, 20, B.Rounded, Styles.Plain, Styles.Plain, true, "Enter", "Esc");
            var r := Bounds(config, 5, 80, 24);
            r.row == 8 && r.col == 16 && r.width == 50 && r.height == 7
  {
    var config := SelectConfig([], [], 50, 20, B.Rounded, Styles.Plain, Styles.Plain, true, "Enter", "Esc");
    BoundsGeometry(config, 5, 80, 24);
  }

  // ---------------------------------------------------------------------------
  // ConfirmDialog

  /** Enter answers with the highlighted button; Escape always cancels; neither moves the highlight. */
  lemma ConfirmEnterAndEscape(selected: bool, mods: Mod.Modifier, cp: U32)
    ensures var o := ConfirmStep(selected, Key(KeyEvent(K.Enter, mods, cp)));
            (o.result == Confirmed <==> selected) && o.result != None && o.confirmSelected == selected
    ensures ConfirmStep(selected, Key(KeyEvent(K.Escape, mods, cp))) == ConfirmOutcome(selected, Cancelled)
  {
  }

  /** Left always highlights the confirm button; Right and Tab toggle, so two of them cancel out. */
  lemma ConfirmNavigation(selected: bool, first: KeyEvent, second: KeyEvent)
    requires first.key in {K.Right, K.Tab} && second.key in {K.Right, K.Tab}
    ensures ConfirmStep(selected, Key(PlainKey(K.Left))) == ConfirmOutcome(true, Changed)
    ensures ConfirmStep(selected, Key(first)) == ConfirmOutcome(!selected, Changed)
    ensures ConfirmStep(ConfirmStep(selected, Key(first)).confirmSelected, Key(second)).confirmSelected == selected
  {
  }

  /** y/Y confirm and n/N cancel whatever is highlighted, and leave the highlight alone. */
  lemma ConfirmShortcuts(selected: bool, mods: Mod.Modifier, c: char)
    requires c in {'y', 'Y', 'n', 'N'}
    ensures var o := ConfirmStep(selected, Key(KeyEvent(K.KeyCodeFromCodepoint(c as int), mods, c as int)));
            o.confirmSelected == selected && (o.result == Confirmed <==> c in {'y', 'Y'}) &&
            (o.result == Cancelled <==> c in {'n', 'N'})
  {
  }

  /** Anything but a key leaves the confirmation dialog alone. */
  lemma ConfirmIgnoresNonKeys(selected: bool, event: InputEvent)
    requires !event.Key?
    ensures ConfirmStep(selected, event) == ConfirmOutcome(selected, None)
  {
  }

  // ---------------------------------------------------------------------------
  // InputDialog

  /** Within Unicode the dialog's encoder is the standard UTF-8 encoding. */
  lemma DialogUtf8IsStandard(cp: U32)
    requires cp < 0x110000
    ensures DialogUtf8(cp) == EncodeUtf8(cp)
  {
    if cp >= 0x10000 {
      assert cp / 0x40000 < 0x10;
    }
  }

  /** Above U+10FFFF the standard encoder refuses, but the dialog still emits four bytes. */
  lemma DialogUtf8BeyondUnicode(cp: U32)
    requires cp >= 0x110000
    ensures EncodeUtf8(cp) == [] && |DialogUtf8(cp)| == 4
  {
  }

  /** A printable key inserts the UTF-8 encoding of its codepoint at the cursor and moves past it. */
  lemma TypingInsertsEncoding(f: Field, key: KeyEvent)
    requires ValidField(f) && K.IsPrintable(key.key) && key.codepoint < 0x110000
    ensures InputStep(f, Key(key)) == InputOutcome(Insert(f, EncodeUtf8(key.codepoint)), Changed)
  {
    DialogUtf8IsStandard(key.codepoint);
  }

  /** One Backspace; n of them. */
  function Backspace(f: Field): (r: Field)
    requires ValidField(f)
    ensures ValidField(r)
  {
    InputStep(f, Key(PlainKey(K.Backspace))).field
  }

  function Backspaces(f: Field, n: nat): (r: Field)
    requires ValidField(f)
    ensures ValidField(r)
    decreases n
  {
    if n == 0 then f else Backspaces(Backspace(f), n - 1)
  }

  lemma BackspaceAfterInsert(f: Field, t: Bytes, x: Byte)
    requires ValidField(f)
    ensures Backspace(Insert(f, t + [x])) == Insert(f, t)
  {
    var v, c := f.value, f.cursor;
    var g := Insert(f, t + [x]);
    assert g.value == v[..c] + t + [x] + v[c..];
    assert g.value[..g.cursor - 1] == v[..c] + t;
    assert g.value[g.cursor..] == v[c..];
  }

  /**
   * As many Backspaces as bytes were typed or pasted restore the field: the
   * text before the cursor, the text after it and the cursor itself.
   */
  lemma {:induction false} BackspacesUndoInsert(f: Field, t: Bytes)
    requires ValidField(f)
    ensures Backspaces(Insert(f, t), |t|) == f
    decreases |t|
  {
    if t == [] {
      assert f.value[..f.cursor] + [] + f.value[f.cursor..] == f.value;
    } else {
      var front, x := t[..|t| - 1], t[|t| - 1];
      assert t == front + [x];
      BackspaceAfterInsert(f, front, x);
      BackspacesUndoInsert(f, front);
    }
  }

  /** Pasting inserts the text verbatim, so typing a character and pasting it are the same edit. */
  lemma PasteMatchesTyping(f: Field, c: char)
    requires ValidField(f) && ' ' <= c < '\U{7F}'
    ensures InputStep(f, Paste([c as Byte])) == InputStep(f, Key(KeyEvent(c as int, Mod.None, c as int)))
  {
    assert DialogUtf8(c as int) == [c as Byte];
  }

  /** Backspace, Delete, Left and Right stop at the ends of the text and report nothing there. */
  lemma EditsStopAtEdges(f: Field)
    requires ValidField(f)
    ensures f.cursor == 0 ==> InputStep(f, Key(PlainKey(K.Backspace))) == InputOutcome(f, None)
    ensures f.cursor == 0 ==> InputStep(f, Key(PlainKey(K.Left))) == InputOutcome(f, None)
    ensures f.cursor == |f.value| ==> InputStep(f, Key(PlainKey(K.Delete))) == InputOutcome(f, None)
    ensures f.cursor == |f.value| ==> InputStep(f, Key(PlainKey(K.Right))) == InputOutcome(f, None)
    ensures f.cursor > 0 ==> |Backspace(f).value| == |f.value| - 1
    ensures f.cursor < |f.value| ==>
              var d := InputStep(f, Key(PlainKey(K.Delete))).field;
              |d.value| == |f.value| - 1 && d.cursor == f.cursor
  {
  }

  /** Deleting the byte before the cursor is Left then Delete; Left and Right undo each other. */
  lemma CursorMoves(f: Field)
    requires ValidField(f)
    ensures f.cursor > 0 ==>
              var l := InputStep(f, Key(PlainKey(K.Left))).field;
              InputStep(l, Key(PlainKey(K.Delete))).field == Backspace(f) &&
              InputStep(l, Key(PlainKey(K.Right))).field == f
    ensures f.cursor < |f.value| ==>
              InputStep(InputStep(f, Key(PlainKey(K.Right))).field, Key(PlainKey(K.Left))).field == f
    ensures InputStep(f, Key(PlainKey(K.Home))) == InputOutcome(Field(f.value, 0), Changed)
    ensures InputStep(f, Key(PlainKey(K.End))) == InputOutcome(Field(f.value, |f.value|), Changed)
  {
  }

  /** The "text input" scenario: type 'a' into an empty dialog, then Backspace. */
  lemma TypeThenErase()
    ensures var typed := InputStep(Field([], 0), Key(KeyEvent('a' as int, Mod.None, 'a' as int)));
            typed == InputOutcome(Field("a", 1), Changed) &&
            InputStep(typed.field, Key(PlainKey(K.Backspace))) == InputOutcome(Field([], 0), Changed)
  {
    assert DialogUtf8('a' as int) == "a";
  }
}
