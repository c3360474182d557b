/**
 * The modal dialogs of src/tui/Dialog.cpp: a selection dialog wrapping a
 * List, a yes/no confirmation and a one-line text input. Each is an object
 * whose processEvent updates its fields; each method is proved to compute a
 * step function on the dialog's state, and the lemmas below are about those
 * step functions. Rendering is not modelled beyond the geometry of
 * calculateBounds.
 */
module Dialogs {
  import opened Utf8
  import K = KeyCodes
  import Mod = Modifiers
  import opened InputEvents
  import M = ListModel
  import Lists
  import B = Boxes
  import Styles
  import Options
  import CharConv

  datatype DialogResult = None | Changed | Confirmed | Cancelled

  // ---------------------------------------------------------------------------
  // SelectDialog

  datatype SelectConfig = SelectConfig(
    title: Bytes, items: seq<M.Item>, width: CharConv.I32, maxHeight: CharConv.I32,
    border: B.BorderStyle, borderStyle: Styles.Style, titleStyle: Styles.Style,
    dimBackground: bool, confirmHint: Bytes, cancelHint: Bytes)

  /** What processEvent makes of the list's answer. */
  function FromListAction(a: M.Action): (r: DialogResult)
    ensures r == Confirmed <==> a == M.Selected
    ensures r == Cancelled <==> a == M.Cancelled
    ensures r == Changed <==> a == M.Changed
    ensures r == None <==> a == M.Action.None
  {
    match a
    case Selected => Confirmed
    case Cancelled => Cancelled
    case Changed => Changed
    case None => None
  }

  /**
   * The geometry of calculateBounds: as many rows as there are visible items
   * but at most maxHeight - 2, two more for the border, and a width of at most
   * termCols - 4, centred with C++'s truncating division. Each int operation
   * wraps as a 32-bit two's complement value.
   */
  function Bounds(config: SelectConfig, itemCount: nat, termCols: CharConv.I32, termRows: CharConv.I32): B.BoxConfig
  {
    var count := B.Int32(itemCount);
    var contentHeight := Min(count, B.Int32(config.maxHeight - 2));
    var dialogHeight := B.Int32(contentHeight + 2);
    var dialogWidth := Min(config.width, B.Int32(termCols - 4));
    var startRow := B.Int32(B.TruncDiv(B.Int32(termRows - dialogHeight), 2));
    var startCol := B.Int32(B.TruncDiv(B.Int32(termCols - dialogWidth), 2) + 1);
    B.BoxConfig(startRow, startCol, dialogWidth, dialogHeight,
                config.border, config.borderStyle, Options.Some(config.title), B.Center, config.titleStyle,
                1, 1, 0, 0, false, Styles.Plain)
  }

  function Min(a: int, b: int): int
  {
    if a <= b then a else b
  }

  class SelectDialog {
    var config: SelectConfig
    const list: Lists.List

    predicate Valid()
      reads this, list
    {
      list.Valid()
    }

    /** The items move into the list, which selects the first enabled one. */
    constructor(config: SelectConfig)
      ensures this.config == config && list.Snapshot() == M.Initial(config.items) && Valid()
    {
      this.config := config;
      list := new Lists.List(config.items);
    }

    method ProcessEvent(event: InputEvent) returns (r: DialogResult)
      requires Valid()
      modifies list
      ensures Valid()
      ensures list.Snapshot() == M.ProcessEvent(old(list.Snapshot()), event).state
      ensures r == FromListAction(M.ProcessEvent(old(list.Snapshot()), event).action)
    {
      var action := list.ProcessEvent(event);
      match action {
        case Selected => r := Confirmed;
        case Cancelled => r := Cancelled;
        case Changed => r := Changed;
        case None => r := None;
      }
    }

    function SelectedIndex(): nat
      reads this, list
    {
      list.SelectedIndex()
    }

    function SelectedItem(): (r: Options.Option<M.Item>)
      requires Valid()
      reads this, list
    {
      M.SelectedItem(list.Snapshot())
    }

    method SetFilter(filter: Bytes)
      requires Valid()
      modifies list
      ensures list.Snapshot() == M.SetFilter(old(list.Snapshot()), filter) && Valid()
    {
      list.SetFilter(filter);
    }

    method ClearFilter()
      requires Valid()
      modifies list
      ensures list.Snapshot() == M.ClearFilter(old(list.Snapshot())) && Valid()
    {
      list.ClearFilter();
    }

    method SetConfig(config: SelectConfig)
      modifies this, list
      ensures this.config == config && list.Snapshot() == M.SetItems(old(list.Snapshot()), config.items) && Valid()
    {
      this.config := config;
      list.SetItems(config.items);
    }

    function CalculateBounds(termCols: CharConv.I32, termRows: CharConv.I32): B.BoxConfig
      reads this, list
    {
      Bounds(config, |list.visible|, termCols, termRows)
    }
  }

  // ---------------------------------------------------------------------------
  // ConfirmDialog

  datatype ConfirmConfig = ConfirmConfig(
    title: Bytes, message: Bytes, confirmLabel: Bytes, cancelLabel: Bytes,
    defaultConfirm: bool, width: CharConv.I32, border: B.BorderStyle,
    borderStyle: Styles.Style, titleStyle: Styles.Style, messageStyle: Styles.Style,
    dimBackground: bool)

  datatype ConfirmOutcome = ConfirmOutcome(confirmSelected: bool, result: DialogResult)

  /** processEvent of the confirmation dialog on its one piece of state. */
  function ConfirmStep(confirmSelected: bool, event: InputEvent): ConfirmOutcome
  {
    match event
    case Key(k) =>
      if k.key == K.Left then ConfirmOutcome(true, Changed)
      else if k.key == K.Right || k.key == K.Tab then ConfirmOutcome(!confirmSelected, Changed)
      else if k.key == K.Enter then ConfirmOutcome(confirmSelected, if confirmSelected then Confirmed else Cancelled)
      else if k.key == K.Escape then ConfirmOutcome(confirmSelected, Cancelled)
      else if K.IsPrintable(k.key) && (k.codepoint == 'y' as int || k.codepoint == 'Y' as int) then
        ConfirmOutcome(confirmSelected, Confirmed)
      else if K.IsPrintable(k.key) && (k.codepoint == 'n' as int || k.codepoint == 'N' as int) then
        ConfirmOutcome(confirmSelected, Cancelled)
      else ConfirmOutcome(confirmSelected, None)
    case _ => ConfirmOutcome(confirmSelected, None)
  }

  class ConfirmDialog {
    var config: ConfirmConfig
    var confirmSelected: bool

    constructor(config: ConfirmConfig)
      ensures this.config == config && confirmSelected == config.defaultConfirm
    {
      this.config := config;
      confirmSelected := config.defaultConfirm;
    }

    method ProcessEvent(event: InputEvent) returns (r: DialogResult)
      modifies this
      ensures ConfirmOutcome(confirmSelected, r) == ConfirmStep(old(confirmSelected), event)
      ensures config == old(config)
    {
      r := None;
      if event.Key? {
        var key := event.k;
        if key.key == K.Left {
          confirmSelected := true;
          return Changed;
        } else if key.key == K.Right || key.key == K.Tab {
          confirmSelected := !confirmSelected;
          return Changed;
        } else if key.key == K.Enter {
          return if confirmSelected then Confirmed else Cancelled;
        } else if key.key == K.Escape {
          return Cancelled;
        } else if K.IsPrintable(key.key) {
          if key.codepoint == 'y' as int || key.codepoint == 'Y' as int {
            return Confirmed;
          }
          if key.codepoint == 'n' as int || key.codepoint == 'N' as int {
            return Cancelled;
          }
        }
      }
    }

    function IsConfirmSelected(): bool
      reads this
    {
      confirmSelected
    }
  }

  // ---------------------------------------------------------------------------
  // InputDialog

  datatype InputConfig = InputConfig(
    title: Bytes, prompt: Bytes, placeholder: Bytes, initialValue: Bytes,
    width: CharConv.I32, border: B.BorderStyle, borderStyle: Styles.Style,
    titleStyle: Styles.Style, inputStyle: Styles.Style, dimBackground: bool)

  /** The edited text and the byte offset of the cursor in it. */
  datatype Field = Field(value: Bytes, cursor: nat)

  predicate ValidField(f: Field)
  {
    f.cursor <= |f.value|
  }

  datatype InputOutcome = InputOutcome(field: Field, result: DialogResult)

  /**
   * The dialog's own UTF-8 encoder for a typed codepoint. It picks the length
   * from the codepoint alone and never refuses one; the lead byte of the
   * four-byte form is 0xF0 | (cp >> 18) cast to char, whose low eight bits are
   * 0xF0 plus the low four bits of cp >> 18.
   */
  function DialogUtf8(cp: U32): (r: Bytes)
    ensures 1 <= |r| <= 4
  {
    if cp < 0x80 then
      [ByteOf(cp)]
    else if cp < 0x800 then
      [ByteOf(0xC0 + cp / 0x40), ByteOf(0x80 + cp % 0x40)]
    else if cp < 0x10000 then
      [ByteOf(0xE0 + cp / 0x1000), ByteOf(0x80 + cp / 0x40 % 0x40), ByteOf(0x80 + cp % 0x40)]
    else
      [ByteOf(0xF0 + cp / 0x40000 % 0x10), ByteOf(0x80 + cp / 0x1000 % 0x40),
       ByteOf(0x80 + cp / 0x40 % 0x40), ByteOf(0x80 + cp % 0x40)]
  }

  /** Insert text at the cursor and move the cursor past it. */
  function Insert(f: Field, text: Bytes): (r: Field)
    requires ValidField(f)
    ensures ValidField(r) && |r.value| == |f.value| + |text| && r.cursor == f.cursor + |text|
    ensures r.value[..f.cursor] == f.value[..f.cursor] && r.value[f.cursor..r.cursor] == text
    ensures r.value[r.cursor..] == f.value[f.cursor..]
  {
    Field(f.value[..f.cursor] + text + f.value[f.cursor..], f.cursor + |text|)
  }

  function InputKey(f: Field, key: KeyEvent): (r: InputOutcome)
    requires ValidField(f)
    ensures ValidField(r.field)
  {
    var v, c := f.value, f.cursor;
    if key.key == K.Enter then InputOutcome(f, Confirmed)
    else if key.key == K.Escape then InputOutcome(f, Cancelled)
    else if key.key == K.Backspace then
      if c > 0 then InputOutcome(Field(v[..c - 1] + v[c..], c - 1), Changed) else InputOutcome(f, None)
    else if key.key == K.Delete then
      if c < |v| then InputOutcome(Field(v[..c] + v[c + 1..], c), Changed) else InputOutcome(f, None)
    else if key.key == K.Left then
      if c > 0 then InputOutcome(f.(cursor := c - 1), Changed) else InputOutcome(f, None)
    else if key.key == K.Right then
      if c < |v| then InputOutcome(f.(cursor := c + 1), Changed) else InputOutcome(f, None)
    else if key.key == K.Home then InputOutcome(f.(cursor := 0), Changed)
    else if key.key == K.End then InputOutcome(f.(cursor := |v|), Changed)
    else if K.IsPrintable(key.key) then InputOutcome(Insert(f, DialogUtf8(key.codepoint)), Changed)
    else InputOutcome(f, None)
  }

  /** processEvent of the input dialog. */
  function InputStep(f: Field, event: InputEvent): (r: InputOutcome)
    requires ValidField(f)
    ensures ValidField(r.field)
    ensures r.result == None ==> r.field == f
  {
    match event
    case Key(k) => InputKey(f, k)
    case Paste(text) => InputOutcome(Insert(f, text), Changed)
    case _ => InputOutcome(f, None)
  }

  class InputDialog {
    var config: InputConfig
    var value: Bytes
    var cursor: nat

    function Snapshot(): Field
      reads this
    {
      Field(value, cursor)
    }

    predicate Valid()
      reads this
    {
      cursor <= |value|
    }

    constructor(config: InputConfig)
      ensures this.config == config && Snapshot() == Field(config.initialValue, |config.initialValue|) && Valid()
    {
      this.config := config;
      value := config.initialValue;
      cursor := |config.initialValue|;
    }

    method ProcessEvent(event: InputEvent) returns (r: DialogResult)
      requires Valid()
      modifies this
      ensures Valid() && config == old(config)
      ensures InputOutcome(Snapshot(), r) == InputStep(old(Snapshot()), event)
    {
      match event {
        case Key(key) =>
          r := ProcessKey(key);
        case Paste(text) =>
          value := value[..cursor] + text + value[cursor..];
          cursor := cursor + |text|;
          r := Changed;
        case _ =>
          r := None;
      }
    }

    method ProcessKey(key: KeyEvent) returns (r: DialogResult)
      requires Valid()
      modifies this
      ensures Valid() && config == old(config)
      ensures InputOutcome(Snapshot(), r) == InputKey(old(Snapshot()), key)
    {
      r := None;
      if key.key == K.Enter {
        r := Confirmed;
      } else if key.key == K.Escape {
        r := Cancelled;
      } else if key.key == K.Backspace {
        if cursor > 0 {
          value := value[..cursor - 1] + value[cursor..];
          cursor := cursor - 1;
          r := Changed;
        }
      } else if key.key == K.Delete {
        if cursor < |value| {
          value := value[..cursor] + value[cursor + 1..];
          r := Changed;
        }
      } else if key.key == K.Left {
        if cursor > 0 {
          cursor := cursor - 1;
          r := Changed;
        }
      } else if key.key == K.Right {
        if cursor < |value| {
          cursor := cursor + 1;
          r := Changed;
        }
      } else if key.key == K.Home {
        cursor := 0;
        r := Changed;
      } else if key.key == K.End {
        cursor := |value|;
        r := Changed;
      } else if K.IsPrintable(key.key) {
        var utf8 := DialogUtf8(key.codepoint);
        value := value[..cursor] + utf8 + value[cursor..];
        cursor := cursor + |utf8|;
        r := Changed;
      }
    }

    function Value(): Bytes
      reads this
    {
      value
    }

    method SetValue(v: Bytes)
      modifies this
      ensures Snapshot() == Field(v, |v|) && Valid() && config == old(config)
    {
      value := v;
      cursor := |v|;
    }
  }
}
