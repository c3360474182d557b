/**
 * The byte-at-a-time terminal input parser (src/tui/VtParser.cpp).
 *
 * The pure part states what one byte does in each state (GroundStep,
 * EscapeStep, CsiStep, Ss3Step, PasteStep, Utf8Step) and what a run of bytes
 * does (Run). The class Parser keeps the same five fields the source keeps and
 * its methods are proved to follow those functions. Where the source appends
 * to an output vector passed by reference, a method here returns the events
 * it appends.
 */
module VtParser {
  import opened Utf8
  import opened Decimal
  import opened CharConv
  import opened Options
  import K = KeyCodes
  import Mod = Modifiers
  import opened InputEvents

  datatype State = Ground | Escape | CsiEntry | CsiParam | Ss3 | PasteBody | Utf8Sequence

  /** All the state a parser carries between bytes. */
  datatype Vt = Vt(state: State, paramBuf: Bytes, utf8Buf: Bytes, pasteBuf: Bytes, utf8Remaining: int)

  /** The state after some input, and the events that input produced. */
  datatype Emitted = Emitted(next: Vt, events: seq<InputEvent>)

  const Initial: Vt := Vt(Ground, [], [], [], 0)

  const EscByte: Byte := '\U{1B}'

  /** ESC [ 2 0 1 ~, the end of a bracketed paste. */
  const PasteEnd: Bytes := "\U{1B}[201~"

  // ---------------------------------------------------------------------
  // CSI parameters

  /** The parts between ';' separators; a string without ';' is one part. */
  function Split(s: Bytes): (parts: seq<Bytes>)
    ensures |parts| >= 1
  {
    if s == [] then [[]]
    else if s[0] == ';' then [[]] + Split(s[1..])
    else var rest := Split(s[1..]); [[s[0]] + rest[0]] + rest[1..]
  }

  /** The parts joined with ';' between them. */
  function Join(parts: seq<Bytes>): Bytes
    requires |parts| >= 1
  {
    if |parts| == 1 then parts[0] else parts[0] + [';'] + Join(parts[1..])
  }

  /** One parameter: its from_chars value, or 0 when from_chars fails. */
  function ParamValue(part: Bytes): I32
  {
    match FromChars(part)
    case Some(v) => v
    case None => 0
  }

  /** The value of every part, in order; f is ParamValue for the source's parser. */
  function MapParts(f: Bytes -> I32, parts: seq<Bytes>): (r: seq<I32>)
    ensures |r| == |parts|
  {
    if parts == [] then [] else [f(parts[0])] + MapParts(f, parts[1..])
  }

  /** parseCsiParams: splitting an empty buffer gives no parts at all. */
  function CsiParams(buf: Bytes): seq<I32>
  {
    if buf == [] then [] else MapParts(ParamValue, Split(buf))
  }

  lemma {:induction false} SplitAtFirstSeparator(s: Bytes, k: nat)
    requires k < |s| && s[k] == ';'
    requires forall j :: 0 <= j < k ==> s[j] != ';'
    ensures Split(s) == [s[..k]] + Split(s[k + 1..])
  {
    if k > 0 {
      var t := s[1..];
      assert t[k - 1] == ';';
      assert forall j :: 0 <= j < k - 1 ==> t[j] == s[j + 1];
      SplitAtFirstSeparator(t, k - 1);
      assert t[k..] == s[k + 1..];
      assert t[..k - 1] == s[1..k];
      var rest := Split(t);
      assert rest == [s[1..k]] + Split(s[k + 1..]);
      assert Split(s) == [[s[0]] + rest[0]] + rest[1..];
      assert [s[0]] + s[1..k] == s[..k];
    } else {
      assert s[..k] == [];
    }
  }

  lemma {:induction false} SplitWithoutSeparator(s: Bytes)
    requires ';' !in s
    ensures Split(s) == [s]
  {
    if s != [] {
      SplitWithoutSeparator(s[1..]);
      assert [s[0]] + s[1..] == s;
    }
  }

  lemma {:induction false} MapPartsPointwise(f: Bytes -> I32, parts: seq<Bytes>, values: seq<I32>)
    requires |parts| == |values|
    requires forall i :: 0 <= i < |parts| ==> f(parts[i]) == values[i]
    ensures MapParts(f, parts) == values
  {
    if parts != [] {
      MapPartsPointwise(f, parts[1..], values[1..]);
    }
  }

  lemma MapPartsCons(f: Bytes -> I32, part: Bytes, parts: seq<Bytes>)
    ensures MapParts(f, [part] + parts) == [f(part)] + MapParts(f, parts)
  {
    assert ([part] + parts)[1..] == parts;
  }

  /** Splitting at the first separator: its part comes first, then the parts after it. */
  lemma SplitValuesAtSeparator(f: Bytes -> I32, buf: Bytes, start: nat, i: nat)
    requires start <= i < |buf| && buf[i] == ';'
    requires forall j :: start <= j < i ==> buf[j] != ';'
    ensures MapParts(f, Split(buf[start..])) == [f(buf[start..i])] + MapParts(f, Split(buf[i + 1..]))
  {
    var s := buf[start..];
    assert s[..i - start] == buf[start..i];
    assert s[i - start + 1..] == buf[i + 1..];
    assert forall j :: 0 <= j < i - start ==> s[j] == buf[start + j];
    SplitAtFirstSeparator(s, i - start);
    MapPartsCons(f, buf[start..i], Split(buf[i + 1..]));
  }

  /** One separator consumed: the part before it is pushed, and parsing goes on after it. */
  lemma SeparatorStep(f: Bytes -> I32, buf: Bytes, start: nat, i: nat, result: seq<I32>, all: seq<I32>)
    requires start <= i < |buf| && buf[i] == ';'
    requires forall j :: start <= j < i ==> buf[j] != ';'
    requires result + MapParts(f, Split(buf[start..])) == all
    ensures (result + [f(buf[start..i])]) + MapParts(f, Split(buf[i + 1..])) == all
  {
    SplitValuesAtSeparator(f, buf, start, i);
    var v := f(buf[start..i]);
    var rest := MapParts(f, Split(buf[i + 1..]));
    assert result + ([v] + rest) == (result + [v]) + rest;
  }

  /** No separator left: the rest is the last part. */
  lemma LastPartStep(f: Bytes -> I32, buf: Bytes, start: nat, result: seq<I32>, all: seq<I32>)
    requires start <= |buf|
    requires forall j :: start <= j < |buf| ==> buf[j] != ';'
    requires result + MapParts(f, Split(buf[start..])) == all
    ensures result + [f(buf[start..])] == all
  {
    SplitWithoutSeparator(buf[start..]);
    assert MapParts(f, [buf[start..]]) == [f(buf[start..])];
  }

  /**
   * The loop of parseCsiParams: one pass over the bytes, pushing the value
   * of each part as its ';' (or the end) is reached. f converts one part.
   */
  method ConvertParts(f: Bytes -> I32, buf: Bytes) returns (result: seq<I32>)
    ensures result == MapParts(f, Split(buf))
  {
    result := [];
    var start := 0;
    var i := 0;
    while i < |buf|
      invariant start <= i <= |buf|
      invariant forall j :: start <= j < i ==> buf[j] != ';'
      invariant result + MapParts(f, Split(buf[start..])) == MapParts(f, Split(buf))
    {
      if buf[i] == ';' {
        SeparatorStep(f, buf, start, i, result, MapParts(f, Split(buf)));
        result := result + [f(buf[start..i])];
        start := i + 1;
      }
      i := i + 1;
    }
    LastPartStep(f, buf, start, result, MapParts(f, Split(buf)));
    result := result + [f(buf[start..])];
  }

  /** parseCsiParams: nothing for an empty buffer, else from_chars of every part (0 on failure). */
  method ParseCsiParams(buf: Bytes) returns (result: seq<I32>)
    ensures result == CsiParams(buf)
  {
    if buf == [] {
      return [];
    }
    result := ConvertParts(ParamValue, buf);
  }

  // ---------------------------------------------------------------------
  // Keys from CSI parameters

  /** Whether bit (weight) of a C int is set; Dafny's floor division agrees with two's complement. */
  predicate BitSet(x: int, weight: nat)
    requires weight > 0
  {
    (x / weight) % 2 == 1
  }

  /** decodeModifiers: a parameter of at most 1 means none; else param - 1 holds Shift/Alt/Ctrl/Super bits. */
  function DecodeModifiers(param: int): Mod.Modifier
  {
    if param <= 1 then Mod.None
    else
      var bits := param - 1;
      (if BitSet(bits, 1) then Mod.Shift else Mod.None)
      | (if BitSet(bits, 2) then Mod.Alt else Mod.None)
      | (if BitSet(bits, 4) then Mod.Ctrl else Mod.None)
      | (if BitSet(bits, 8) then Mod.Super else Mod.None)
  }

  /** The key of "CSI code ~" (mapCsiKey's inner switch). */
  function TildeKey(code: int): Option<K.KeyCode>
  {
    match code
    case 1 => Some(K.Home)
    case 2 => Some(K.Insert)
    case 3 => Some(K.Delete)
    case 4 => Some(K.End)
    case 5 => Some(K.PageUp)
    case 6 => Some(K.PageDown)
    case 11 => Some(K.F1)
    case 12 => Some(K.F2)
    case 13 => Some(K.F3)
    case 14 => Some(K.F4)
    case 15 => Some(K.F5)
    case 17 => Some(K.F6)
    case 18 => Some(K.F7)
    case 19 => Some(K.F8)
    case 20 => Some(K.F9)
    case 21 => Some(K.F10)
    case 23 => Some(K.F11)
    case 24 => Some(K.F12)
    case _ => None
  }

  /** mapCsiKey: cursor and function keys; the modifier is the second parameter. */
  function MapCsiKey(finalByte: Byte, params: seq<int>): Option<KeyEvent>
  {
    var modifier := if |params| >= 2 then DecodeModifiers(params[1]) else Mod.None;
    var key :=
      if finalByte == 'A' then Some(K.Up)
      else if finalByte == 'B' then Some(K.Down)
      else if finalByte == 'C' then Some(K.Right)
      else if finalByte == 'D' then Some(K.Left)
      else if finalByte == 'H' then Some(K.Home)
      else if finalByte == 'F' then Some(K.End)
      else if finalByte == '~' && params != [] then TildeKey(params[0])
      else None;
    match key
    case Some(k) => Some(KeyEvent(k, modifier, 0))
    case None => None
  }

  /** CSI keycode ; modifiers u, the Kitty keyboard protocol. */
  function KittyKey(params: seq<int>): Option<KeyEvent>
  {
    var keycode := if params == [] then 0 else params[0];
    var modifier := if |params| >= 2 then DecodeModifiers(params[1]) else Mod.None;
    if keycode == 13 then Some(KeyEvent(K.Enter, modifier, 0))
    else if keycode == 9 then Some(KeyEvent(K.Tab, modifier, 0))
    else if keycode == 127 then Some(KeyEvent(K.Backspace, modifier, 0))
    else if keycode == 27 then Some(KeyEvent(K.Escape, modifier, 0))
    else if 32 <= keycode < 0x10000 then Some(KeyEvent(K.KeyCodeFromCodepoint(keycode), modifier, keycode))
    else None
  }

  /** An xterm SGR mouse report: button bits, then column and row. */
  function SgrMouse(raw: int, x: int, y: int, isRelease: bool): MouseEvent
  {
    var mods := (if BitSet(raw, 4) then Mod.Shift else Mod.None)
                | (if BitSet(raw, 8) then Mod.Alt else Mod.None)
                | (if BitSet(raw, 16) then Mod.Ctrl else Mod.None);
    // raw & 0x43: bits 0, 1 and 6
    var buttonBits := raw % 4 + (if BitSet(raw, 64) then 64 else 0);
    if buttonBits == 64 then MouseEvent(ScrollUp, 0, x, y, mods)
    else if buttonBits == 65 then MouseEvent(ScrollDown, 0, x, y, mods)
    else if BitSet(raw, 32) then MouseEvent(Move, buttonBits % 4, x, y, mods)
    else if isRelease then MouseEvent(Release, buttonBits % 4, x, y, mods)
    else MouseEvent(Press, buttonBits % 4, x, y, mods)
  }

  function KeyEvents(k: Option<KeyEvent>): seq<InputEvent>
  {
    match k
    case Some(e) => [Key(e)]
    case None => []
  }

  /** dispatchCsi: what a final byte does with the collected parameter bytes. */
  function DispatchStep(p: Vt, finalByte: Byte): Emitted
  {
    var buf := p.paramBuf;
    if buf != [] && buf[0] == '<' && (finalByte == 'M' || finalByte == 'm') then
      var params := CsiParams(buf[1..]);
      if |params| >= 3 then Emitted(p, [Mouse(SgrMouse(params[0], params[1], params[2], finalByte == 'm'))])
      else Emitted(p, [])
    else if finalByte == '~' && buf == "200" then
      Emitted(p.(pasteBuf := [], state := PasteBody), [])
    else if finalByte == 'u' then
      Emitted(p, KeyEvents(KittyKey(CsiParams(buf))))
    else if buf != [] && (buf[0] == '>' || buf[0] == '?') then
      Emitted(p, [])
    else
      Emitted(p, KeyEvents(MapCsiKey(finalByte, CsiParams(buf))))
  }

  // ---------------------------------------------------------------------
  // One byte in each state

  /** emitCodepoint: a key whose code is the codepoint itself, with no modifiers. */
  function CodepointKey(cp: U32): KeyEvent
  {
    KeyEvent(K.KeyCodeFromCodepoint(cp), Mod.None, cp)
  }

  /** What a control byte other than ESC means in Ground. */
  function ControlKey(b: Byte): KeyEvent
    requires b < ' '
  {
    if b == '\r' || b == '\n' then PlainKey(K.Enter)
    else if b == '\t' then PlainKey(K.Tab)
    else if b == '\U{08}' then PlainKey(K.Backspace)
    else KeyEvent(K.KeyCodeFromCodepoint(b as int + 0x60), Mod.Ctrl, b as int + 0x60)
  }

  /** How many continuation bytes a lead byte announces; 0 for a byte that is no lead. */
  function ExpectedContinuations(b: Byte): nat
  {
    if b as int / 32 == 6 then 1        // 110xxxxx
    else if b as int / 16 == 14 then 2  // 1110xxxx
    else if b as int / 8 == 30 then 3   // 11110xxx
    else 0
  }

  function GroundStep(p: Vt, b: Byte): Emitted
  {
    if b == EscByte then Emitted(p.(state := Escape), [])
    else if b < ' ' then Emitted(p, [Key(ControlKey(b))])
    else if b == '\U{7F}' then Emitted(p, [Key(PlainKey(K.Backspace))])
    else if b >= '\U{80}' then
      var q := p.(utf8Buf := [b]);
      var n := ExpectedContinuations(b);
      if n == 0 then Emitted(q, [])
      else Emitted(q.(utf8Remaining := n, state := Utf8Sequence), [])
    else Emitted(p, [Key(CodepointKey(b as int))])
  }

  function EscapeStep(p: Vt, b: Byte): Emitted
  {
    if b == '[' then Emitted(p.(paramBuf := [], state := CsiEntry), [])
    else if b == 'O' then Emitted(p.(state := Ss3), [])
    else if b == '\r' || b == '\n' then Emitted(p.(state := Ground), [Key(KeyEvent(K.Enter, Mod.Alt, 0))])
    else if ' ' <= b < '\U{7F}' then
      Emitted(p.(state := Ground), [Key(KeyEvent(K.KeyCodeFromCodepoint(b as int), Mod.Alt, b as int))])
    else
      var g := GroundStep(p.(state := Ground), b);
      Emitted(g.next, [Key(PlainKey(K.Escape))] + g.events)
  }

  predicate IsParamByte(b: Byte)
  {
    ('0' <= b <= '9') || b == ';' || b == '<' || b == '>' || b == '?'
  }

  function CsiStep(p: Vt, b: Byte): Emitted
  {
    if IsParamByte(b) then Emitted(p.(paramBuf := p.paramBuf + [b], state := CsiParam), [])
    else if '\U{40}' <= b <= '\U{7E}' then
      var d := DispatchStep(p, b);
      if d.next.state == CsiEntry || d.next.state == CsiParam then Emitted(d.next.(state := Ground), d.events)
      else d
    else if ' ' <= b <= '\U{2F}' then Emitted(p.(paramBuf := p.paramBuf + [b]), [])
    else Emitted(p.(state := Ground), [])
  }

  /** The key an SS3 final byte names, if any. */
  function Ss3Key(b: Byte): Option<K.KeyCode>
  {
    if b == 'A' then Some(K.Up)
    else if b == 'B' then Some(K.Down)
    else if b == 'C' then Some(K.Right)
    else if b == 'D' then Some(K.Left)
    else if b == 'H' then Some(K.Home)
    else if b == 'F' then Some(K.End)
    else if b == 'P' then Some(K.F1)
    else if b == 'Q' then Some(K.F2)
    else if b == 'R' then Some(K.F3)
    else if b == 'S' then Some(K.F4)
    else None
  }

  function Ss3Step(p: Vt, b: Byte): Emitted
  {
    var q := p.(state := Ground);
    match Ss3Key(b)
    case Some(k) => Emitted(q, [Key(PlainKey(k))])
    case None => Emitted(q, [])
  }

  predicate EndsWithPasteEnd(buf: Bytes)
  {
    |buf| >= |PasteEnd| && buf[|buf| - |PasteEnd|..] == PasteEnd
  }

  function PasteStep(p: Vt, b: Byte): Emitted
  {
    var buf := p.pasteBuf + [b];
    if EndsWithPasteEnd(buf) then
      Emitted(p.(pasteBuf := [], state := Ground), [Paste(buf[..|buf| - |PasteEnd|])])
    else Emitted(p.(pasteBuf := buf), [])
  }

  /** emitUtf8's decoding: the payload bits of a 2, 3 or 4 byte sequence; 0 for any other length. */
  function DecodeUtf8(buf: Bytes): (cp: U32)
  {
    if |buf| == 2 then
      (buf[0] as int % 32) * 64 + buf[1] as int % 64
    else if |buf| == 3 then
      (buf[0] as int % 16) * 4096 + (buf[1] as int % 64) * 64 + buf[2] as int % 64
    else if |buf| == 4 then
      (buf[0] as int % 8) * 262144 + (buf[1] as int % 64) * 4096 + (buf[2] as int % 64) * 64 + buf[3] as int % 64
    else 0
  }

  /** emitUtf8: one key for the decoded codepoint, or nothing when it is 0. */
  function EmitUtf8(buf: Bytes): seq<InputEvent>
  {
    var cp := DecodeUtf8(buf);
    if cp != 0 then [Key(CodepointKey(cp))] else []
  }

  function Utf8Step(p: Vt, b: Byte): Emitted
  {
    if !IsContinuation(b) then GroundStep(p.(utf8Buf := [], state := Ground), b)
    else
      var buf := p.utf8Buf + [b];
      var remaining := p.utf8Remaining - 1;
      if remaining == 0 then Emitted(p.(utf8Buf := [], utf8Remaining := 0, state := Ground), EmitUtf8(buf))
      else Emitted(p.(utf8Buf := buf, utf8Remaining := remaining), [])
  }

  /** feed's dispatch of one byte on the current state. */
  function Step(p: Vt, b: Byte): Emitted
  {
    match p.state
    case Ground => GroundStep(p, b)
    case Escape => EscapeStep(p, b)
    case CsiEntry => CsiStep(p, b)
    case CsiParam => CsiStep(p, b)
    case Ss3 => Ss3Step(p, b)
    case PasteBody => PasteStep(p, b)
    case Utf8Sequence => Utf8Step(p, b)
  }

  /** The bytes one after another through a per-byte step, events in order. */
  function FoldBytes(step: (Vt, Byte) -> Emitted, p: Vt, data: Bytes): Emitted
  {
    if data == [] then Emitted(p, [])
    else
      var before := FoldBytes(step, p, data[..|data| - 1]);
      var last := step(before.next, data[|data| - 1]);
      Emitted(last.next, before.events + last.events)
  }

  /** feed: every byte through Step. */
  function Run(p: Vt, data: Bytes): Emitted
  {
    FoldBytes(Step, p, data)
  }

  /** timeout: a pending bare ESC becomes the Escape key. */
  function TimeoutStep(p: Vt): Emitted
  {
    if p.state == Escape then Emitted(p.(state := Ground), [Key(PlainKey(K.Escape))])
    else Emitted(p, [])
  }

  // ---------------------------------------------------------------------
  // The parser object

  class Parser {
    var state: State
    var paramBuf: Bytes
    var utf8Buf: Bytes
    var pasteBuf: Bytes
    var utf8Remaining: int

    function Snapshot(): Vt
      reads this
    {
      Vt(state, paramBuf, utf8Buf, pasteBuf, utf8Remaining)
    }

    constructor()
      ensures Snapshot() == Initial
    {
      state := Ground;
      paramBuf := [];
      utf8Buf := [];
      pasteBuf := [];
      utf8Remaining := 0;
    }

    method Feed(data: Bytes) returns (events: seq<InputEvent>)
      modifies this
      ensures Emitted(Snapshot(), events) == Run(old(Snapshot()), data)
    {
      events := [];
      var i := 0;
      while i < |data|
        invariant 0 <= i <= |data|
        invariant Emitted(Snapshot(), events) == Run(old(Snapshot()), data[..i])
      {
        assert data[..i + 1][..i] == data[..i];
        var emitted: seq<InputEvent>;
        match state {
          case Ground => emitted := ProcessGround(data[i]);
          case Escape => emitted := ProcessEscape(data[i]);
          case CsiEntry => emitted := ProcessCsi(data[i]);
          case CsiParam => emitted := ProcessCsi(data[i]);
          case Ss3 => emitted := ProcessSs3(data[i]);
          case PasteBody => emitted := ProcessPaste(data[i]);
          case Utf8Sequence => emitted := ProcessUtf8(data[i]);
        }
        events := events + emitted;
        i := i + 1;
      }
      assert data[..|data|] == data;
    }

    method Timeout() returns (events: seq<InputEvent>)
      modifies this
      ensures Emitted(Snapshot(), events) == TimeoutStep(old(Snapshot()))
    {
      events := [];
      if state == Escape {
        events := [Key(PlainKey(K.Escape))];
        state := Ground;
      }
    }

    method ProcessGround(b: Byte) returns (events: seq<InputEvent>)
      modifies this
      ensures Emitted(Snapshot(), events) == GroundStep(old(Snapshot()), b)
    {
      events := [];
      if b == EscByte {
        state := Escape;
        return;
      }
      if b < ' ' {
        events := [Key(ControlKey(b))];
        return;
      }
      if b == '\U{7F}' {
        events := [Key(PlainKey(K.Backspace))];
        return;
      }
      if b >= '\U{80}' {
        utf8Buf := [b];
        if b as int / 32 == 6 {
          utf8Remaining := 1;
        } else if b as int / 16 == 14 {
          utf8Remaining := 2;
        } else if b as int / 8 == 30 {
          utf8Remaining := 3;
        } else {
          return;
        }
        state := Utf8Sequence;
        return;
      }
      events := [Key(CodepointKey(b as int))];
    }

    method ProcessEscape(b: Byte) returns (events: seq<InputEvent>)
      modifies this
      ensures Emitted(Snapshot(), events) == EscapeStep(old(Snapshot()), b)
    {
      events := [];
      if b == '[' {
        paramBuf := [];
        state := CsiEntry;
        return;
      }
      if b == 'O' {
        state := Ss3;
        return;
      }
      if b == '\r' || b == '\n' {
        events := [Key(KeyEvent(K.Enter, Mod.Alt, 0))];
        state := Ground;
        return;
      }
      if ' ' <= b < '\U{7F}' {
        events := [Key(KeyEvent(K.KeyCodeFromCodepoint(b as int), Mod.Alt, b as int))];
        state := Ground;
        return;
      }
      state := Ground;
      var more := ProcessGround(b);
      events := [Key(PlainKey(K.Escape))] + more;
    }

    method ProcessCsi(b: Byte) returns (events: seq<InputEvent>)
      modifies this
      ensures Emitted(Snapshot(), events) == CsiStep(old(Snapshot()), b)
    {
      events := [];
      if IsParamByte(b) {
        paramBuf := paramBuf + [b];
        state := CsiParam;
        return;
      }
      if '\U{40}' <= b <= '\U{7E}' {
        events := DispatchCsi(b);
        if state == CsiEntry || state == CsiParam {
          state := Ground;
        }
        return;
      }
      if ' ' <= b <= '\U{2F}' {
        paramBuf := paramBuf + [b];
        return;
      }
      state := Ground;
    }

    method ProcessSs3(b: Byte) returns (events: seq<InputEvent>)
      modifies this
      ensures Emitted(Snapshot(), events) == Ss3Step(old(Snapshot()), b)
    {
      state := Ground;
      events := [];
      match Ss3Key(b) {
        case Some(k) => events := [Key(PlainKey(k))];
        case None =>
      }
    }

    method ProcessPaste(b: Byte) returns (events: seq<InputEvent>)
      modifies this
      ensures Emitted(Snapshot(), events) == PasteStep(old(Snapshot()), b)
    {
      events := [];
      pasteBuf := pasteBuf + [b];
      if |pasteBuf| >= |PasteEnd| && pasteBuf[|pasteBuf| - |PasteEnd|..] == PasteEnd {
        pasteBuf := pasteBuf[..|pasteBuf| - |PasteEnd|];
        events := [Paste(pasteBuf)];
        pasteBuf := [];
        state := Ground;
      }
    }

    method ProcessUtf8(b: Byte) returns (events: seq<InputEvent>)
      modifies this
      ensures Emitted(Snapshot(), events) == Utf8Step(old(Snapshot()), b)
    {
      events := [];
      if !IsContinuation(b) {
        utf8Buf := [];
        state := Ground;
        events := ProcessGround(b);
        return;
      }
      utf8Buf := utf8Buf + [b];
      utf8Remaining := utf8Remaining - 1;
      if utf8Remaining == 0 {
        events := EmitUtf8(utf8Buf);
        utf8Buf := [];
        state := Ground;
      }
    }

    method DispatchCsi(finalByte: Byte) returns (events: seq<InputEvent>)
      modifies this
      ensures Emitted(Snapshot(), events) == DispatchStep(old(Snapshot()), finalByte)
    {
      events := [];
      if paramBuf != [] && paramBuf[0] == '<' && (finalByte == 'M' || finalByte == 'm') {
        var params := ParseCsiParams(paramBuf[1..]);
        if |params| >= 3 {
          events := [Mouse(SgrMouse(params[0], params[1], params[2], finalByte == 'm'))];
        }
        return;
      }
      if finalByte == '~' && paramBuf == "200" {
        pasteBuf := [];
        state := PasteBody;
        return;
      }
      if finalByte == 'u' {
        var params := ParseCsiParams(paramBuf);
        events := KeyEvents(KittyKey(params));
        return;
      }
      if paramBuf != [] && (paramBuf[0] == '>' || paramBuf[0] == '?') {
        return;
      }
      var params := ParseCsiParams(paramBuf);
      events := KeyEvents(MapCsiKey(finalByte, params));
    }
  }
}
