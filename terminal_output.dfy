/**
 * TerminalOutput (src/tui/TerminalOutput.cpp): every drawing call appends an
 * escape sequence to a byte buffer that flush() hands to the terminal. Each
 * method is stated as "the buffer gains exactly these bytes", and the
 * parameterised sequences are shown to parse back to their arguments.
 */
module TerminalOutputs {
  import opened Utf8
  import opened Decimal
  import opened CharConv
  import opened Options
  import opened VtParser
  import VtParserProps
  import opened Styles

  /** A control sequence "ESC [ params final" as std::format writes it. */
  function Csi(params: seq<I32>, final: Byte): Bytes
  {
    "\U{1B}[" + Params(params) + [final]
  }

  /** DECSET (on) or DECRST (off) of a DEC private mode: "ESC [ ? n h" or "ESC [ ? n l". */
  function PrivateMode(mode: nat, on: bool): Bytes
  {
    "\U{1B}[?" + NatText(mode) + (if on then "h" else "l")
  }

  const ClearLineSeq: Bytes := "\U{1B}[2K"
  const ClearToEndOfLineSeq: Bytes := "\U{1B}[K"
  const ClearToStartOfLineSeq: Bytes := "\U{1B}[1K"
  const ClearScreenSeq: Bytes := "\U{1B}[2J\U{1B}[H"
  const ClearScrollbackSeq: Bytes := "\U{1B}[3J"
  const EnterAltScreenSeq: Bytes := "\U{1B}[?1049h"
  const LeaveAltScreenSeq: Bytes := "\U{1B}[?1049l"
  const DoubleWidthSeq: Bytes := "\U{1B}#6"
  const DoubleHeightTopSeq: Bytes := "\U{1B}#3"
  const DoubleHeightBottomSeq: Bytes := "\U{1B}#4"
  const SingleWidthSeq: Bytes := "\U{1B}#5"
  const ShowCursorSeq: Bytes := "\U{1B}[?25h"
  const HideCursorSeq: Bytes := "\U{1B}[?25l"
  const SaveCursorSeq: Bytes := "\U{1B}7"
  const RestoreCursorSeq: Bytes := "\U{1B}8"
  const ResetScrollRegionSeq: Bytes := "\U{1B}[r"
  const SixelIntroducer: Bytes := "\U{1B}Pq"
  const StringTerminator: Bytes := "\U{1B}\\"
  /** What SyncGuard writes straight to the terminal when it begins and when it ends. */
  const SyncBeginSeq: Bytes := "\U{1B}[?2026h"
  const SyncEndSeq: Bytes := "\U{1B}[?2026l"

  /** Cursor movement by n cells: CUU 'A', CUD 'B', CUF 'C', CUB 'D'; nothing unless n > 0. */
  function MoveSeq(n: I32, final: Byte): Bytes
  {
    if n > 0 then Csi([n], final) else []
  }

  /** The window size as ioctl(TIOCGWINSZ) reports it, or None when the call fails. */
  datatype WinSize = WinSize(cols: U16, rows: U16)
  type U16 = n: int | 0 <= n < 0x1_0000

  class TerminalOutput {
    var buffer: Bytes
    var cols: int
    var rows: int

    /** A fresh output: nothing buffered, and an 80x24 terminal until measured. */
    constructor()
      ensures buffer == [] && cols == 80 && rows == 24
    {
      buffer := [];
      cols := 80;
      rows := 24;
    }

    method Write(text: Bytes, style: Style)
      modifies this
      ensures buffer == old(buffer) + SgrText(style) + text + SgrReset
      ensures cols == old(cols) && rows == old(rows)
    {
      AppendSgr(style);
      buffer := buffer + text;
      AppendSgrReset();
    }

    method WriteRaw(text: Bytes)
      modifies this
      ensures buffer == old(buffer) + text
      ensures cols == old(cols) && rows == old(rows)
    {
      buffer := buffer + text;
    }

    /** CUP: the row and column are written as given (1-based), signs included. */
    method MoveTo(row: I32, col: I32)
      modifies this
      ensures buffer == old(buffer) + Csi([row, col], 'H')
      ensures cols == old(cols) && rows == old(rows)
    {
      var text: Bytes := "\U{1B}[" + IntText(row) + ";" + IntText(col) + "H";
      CsiPair(row, col);
      buffer := buffer + text;
    }

    method MoveUp(n: I32)
      modifies this
      ensures buffer == old(buffer) + MoveSeq(n, 'A')
      ensures cols == old(cols) && rows == old(rows)
    {
      if n > 0 {
        CsiSingle(n, 'A');
        buffer := buffer + "\U{1B}[" + IntText(n) + "A";
      }
    }

    method MoveDown(n: I32)
      modifies this
      ensures buffer == old(buffer) + MoveSeq(n, 'B')
      ensures cols == old(cols) && rows == old(rows)
    {
      if n > 0 {
        CsiSingle(n, 'B');
        buffer := buffer + "\U{1B}[" + IntText(n) + "B";
      }
    }

    method MoveLeft(n: I32)
      modifies this
      ensures buffer == old(buffer) + MoveSeq(n, 'D')
      ensures cols == old(cols) && rows == old(rows)
    {
      if n > 0 {
        CsiSingle(n, 'D');
        buffer := buffer + "\U{1B}[" + IntText(n) + "D";
      }
    }

    method MoveRight(n: I32)
      modifies this
      ensures buffer == old(buffer) + MoveSeq(n, 'C')
      ensures cols == old(cols) && rows == old(rows)
    {
      if n > 0 {
        CsiSingle(n, 'C');
        buffer := buffer + "\U{1B}[" + IntText(n) + "C";
      }
    }

    /** The fixed sequences: each call appends its own bytes and nothing else. */
    method Append(sequence: Bytes)
      modifies this
      ensures buffer == old(buffer) + sequence
      ensures cols == old(cols) && rows == old(rows)
    {
      buffer := buffer + sequence;
    }

    method ClearLine()
      modifies this
      ensures buffer == old(buffer) + ClearLineSeq && cols == old(cols) && rows == old(rows)
    {
      Append(ClearLineSeq);
    }

    method ClearToEndOfLine()
      modifies this
      ensures buffer == old(buffer) + ClearToEndOfLineSeq && cols == old(cols) && rows == old(rows)
    {
      Append(ClearToEndOfLineSeq);
    }

    method ClearToStartOfLine()
      modifies this
      ensures buffer == old(buffer) + ClearToStartOfLineSeq && cols == old(cols) && rows == old(rows)
    {
      Append(ClearToStartOfLineSeq);
    }

    method ClearScreen()
      modifies this
      ensures buffer == old(buffer) + ClearScreenSeq && cols == old(cols) && rows == old(rows)
    {
      Append(ClearScreenSeq);
    }

    method ClearScrollback()
      modifies this
      ensures buffer == old(buffer) + ClearScrollbackSeq && cols == old(cols) && rows == old(rows)
    {
      Append(ClearScrollbackSeq);
    }

    method EnterAltScreen()
      modifies this
      ensures buffer == old(buffer) + EnterAltScreenSeq && cols == old(cols) && rows == old(rows)
    {
      Append(EnterAltScreenSeq);
    }

    method LeaveAltScreen()
      modifies this
      ensures buffer == old(buffer) + LeaveAltScreenSeq && cols == old(cols) && rows == old(rows)
    {
      Append(LeaveAltScreenSeq);
    }

    method SetDoubleWidth()
      modifies this
      ensures buffer == old(buffer) + DoubleWidthSeq && cols == old(cols) && rows == old(rows)
    {
      Append(DoubleWidthSeq);
    }

    method SetDoubleHeightTop()
      modifies this
      ensures buffer == old(buffer) + DoubleHeightTopSeq && cols == old(cols) && rows == old(rows)
    {
      Append(DoubleHeightTopSeq);
    }

    method SetDoubleHeightBottom()
      modifies this
      ensures buffer == old(buffer) + DoubleHeightBottomSeq && cols == old(cols) && rows == old(rows)
    {
      Append(DoubleHeightBottomSeq);
    }

    method SetSingleWidth()
      modifies this
      ensures buffer == old(buffer) + SingleWidthSeq && cols == old(cols) && rows == old(rows)
    {
      Append(SingleWidthSeq);
    }

    method ShowCursor()
      modifies this
      ensures buffer == old(buffer) + ShowCursorSeq && cols == old(cols) && rows == old(rows)
    {
      Append(ShowCursorSeq);
    }

    method HideCursor()
      modifies this
      ensures buffer == old(buffer) + HideCursorSeq && cols == old(cols) && rows == old(rows)
    {
      Append(HideCursorSeq);
    }

    method SaveCursor()
      modifies this
      ensures buffer == old(buffer) + SaveCursorSeq && cols == old(cols) && rows == old(rows)
    {
      Append(SaveCursorSeq);
    }

    method RestoreCursor()
      modifies this
      ensures buffer == old(buffer) + RestoreCursorSeq && cols == old(cols) && rows == old(rows)
    {
      Append(RestoreCursorSeq);
    }

    /** DECSTBM with explicit margins. */
    method SetScrollRegion(top: I32, bottom: I32)
      modifies this
      ensures buffer == old(buffer) + Csi([top, bottom], 'r')
      ensures cols == old(cols) && rows == old(rows)
    {
      var text: Bytes := "\U{1B}[" + IntText(top) + ";" + IntText(bottom) + "r";
      CsiPair(top, bottom);
      buffer := buffer + text;
    }

    method ResetScrollRegion()
      modifies this
      ensures buffer == old(buffer) + ResetScrollRegionSeq && cols == old(cols) && rows == old(rows)
    {
      Append(ResetScrollRegionSeq);
    }

    /** A sixel image: DCS "q", the data as given, then ST. */
    method WriteSixel(sixelData: Bytes)
      modifies this
      ensures buffer == old(buffer) + SixelIntroducer + sixelData + StringTerminator
      ensures cols == old(cols) && rows == old(rows)
    {
      buffer := buffer + SixelIntroducer;
      buffer := buffer + sixelData;
      buffer := buffer + StringTerminator;
    }

    /** Hands the buffered bytes to the terminal (returned here) and empties the buffer. */
    method Flush() returns (written: Bytes)
      modifies this
      ensures written == old(buffer) && buffer == []
      ensures cols == old(cols) && rows == old(rows)
    {
      written := [];
      if buffer != [] {
        written := buffer;
        buffer := [];
      }
    }

    /** syncGuard(): flushes what is pending, then the guard writes the begin sequence itself. */
    method SyncGuard() returns (written: Bytes)
      modifies this
      ensures written == old(buffer) + SyncBeginSeq && buffer == []
      ensures cols == old(cols) && rows == old(rows)
    {
      written := Flush();
      written := written + SyncBeginSeq;
    }

    function Columns(): int
      reads this
    {
      cols
    }

    function Rows(): int
      reads this
    {
      rows
    }

    /** The size is taken over only when the window-size query succeeds. */
    method UpdateDimensions(reply: Option<WinSize>)
      modifies this
      ensures buffer == old(buffer)
      ensures reply.Some? ==> cols == reply.value.cols && rows == reply.value.rows
      ensures reply.None? ==> cols == old(cols) && rows == old(rows)
    {
      if reply.Some? {
        cols := reply.value.cols;
        rows := reply.value.rows;
      }
    }

    method Initialize(reply: Option<WinSize>)
      modifies this
      ensures buffer == old(buffer)
      ensures reply.Some? ==> cols == reply.value.cols && rows == reply.value.rows
      ensures reply.None? ==> cols == old(cols) && rows == old(rows)
    {
      UpdateDimensions(reply);
    }

    /**
     * appendSgr: a separator goes before every parameter group but the first.
     * In the helpers, the ghost `done` is the list of parameters written so far.
     */
    method AppendSgr(style: Style)
      modifies this
      ensures buffer == old(buffer) + SgrText(style)
      ensures cols == old(cols) && rows == old(rows)
    {
      if IsDefault(style) {
        return;
      }
      DefaultIffNoCodes(style);
      ghost var start := buffer + "\U{1B}[";
      buffer := buffer + "\U{1B}[";
      var needSemicolon := AppendAttributes(style, start);
      needSemicolon := AppendColors(style, needSemicolon, start);
      buffer := buffer + "m";
      SgrParamsParseBack(style);
      Associate(old(buffer), "\U{1B}[", Params(Codes(style)), "m");
    }

    /** The six attribute groups of appendSgr, written right after "ESC [". */
    method AppendAttributes(style: Style, ghost start: Bytes) returns (need: bool)
      requires buffer == start
      modifies this
      ensures need == (Attributes(style) != []) && buffer == start + Params(Attributes(style))
      ensures cols == old(cols) && rows == old(rows)
    {
      ghost var t3 := Flag(style.underline, 4) + (Flag(style.inverse, 7) + (Flag(style.strikethrough, 9) + []));
      assert Flag(style.strikethrough, 9) + [] == Flag(style.strikethrough, 9);
      ghost var done: seq<I32> := [];
      assert done + Attributes(style) == Attributes(style);
      need, done := AppendFlags(style.bold, 1, style.dim, 2, style.italic, 3, false, start, done, Attributes(style), t3);
      need, done := AppendFlags(style.underline, 4, style.inverse, 7, style.strikethrough, 9, need, start, done, t3, []);
      assert done + [] == done;
    }

    /** Three consecutive attribute groups. */
    method AppendFlags(on1: bool, code1: I32, on2: bool, code2: I32, on3: bool, code3: I32,
                       needSemicolon: bool, ghost start: Bytes,
                       ghost done: seq<I32>, ghost rest: seq<I32>, ghost tail: seq<I32>)
      returns (need: bool, ghost done': seq<I32>)
      requires needSemicolon == (done != []) && buffer == start + Params(done)
      requires rest == Flag(on1, code1) + (Flag(on2, code2) + (Flag(on3, code3) + tail))
      modifies this
      ensures done' + tail == done + rest
      ensures need == (done' != []) && buffer == start + Params(done')
      ensures cols == old(cols) && rows == old(rows)
    {
      ghost var t2 := Flag(on3, code3) + tail;
      ghost var t1 := Flag(on2, code2) + t2;
      need, done' := AppendFlag(on1, code1, needSemicolon, start, done, rest, t1);
      need, done' := AppendFlag(on2, code2, need, start, done', t1, t2);
      need, done' := AppendFlag(on3, code3, need, start, done', t2, tail);
    }

    /** The foreground and background groups of appendSgr, after the attributes. */
    method AppendColors(style: Style, needSemicolon: bool, ghost start: Bytes) returns (need: bool)
      requires needSemicolon == (Attributes(style) != []) && buffer == start + Params(Attributes(style))
      modifies this
      ensures need == (Codes(style) != []) && buffer == start + Params(Codes(style))
      ensures cols == old(cols) && rows == old(rows)
    {
      ghost var colors := ColorCodes(38, style.fg) + ColorCodes(48, style.bg);
      ghost var done := Attributes(style);
      need, done := AppendColor(38, style.fg, needSemicolon, start, done, colors, ColorCodes(48, style.bg));
      assert ColorCodes(48, style.bg) == ColorCodes(48, style.bg) + [];
      need, done := AppendColor(48, style.bg, need, start, done, ColorCodes(48, style.bg), []);
      assert done == Codes(style);
    }

    /** if (flag) { appendSep(); _buffer += code; } */
    method AppendFlag(on: bool, code: I32, needSemicolon: bool, ghost start: Bytes,
                      ghost done: seq<I32>, ghost rest: seq<I32>, ghost tail: seq<I32>)
      returns (need: bool, ghost done': seq<I32>)
      requires needSemicolon == (done != []) && buffer == start + Params(done)
      requires rest == Flag(on, code) + tail
      modifies this
      ensures done' + tail == done + rest
      ensures need == (done' != []) && buffer == start + Params(done')
      ensures cols == old(cols) && rows == old(rows)
    {
      need := needSemicolon;
      done' := done + Flag(on, code);
      Regroup(done, Flag(on, code), tail);
      if on {
        need := AppendGroup(needSemicolon, start, done, [code]);
      } else {
        assert done' == done;
      }
    }

    /** The colour groups after the attributes: nothing for the default colour. */
    method AppendColor(base: I32, c: Color, needSemicolon: bool, ghost start: Bytes,
                       ghost done: seq<I32>, ghost rest: seq<I32>, ghost tail: seq<I32>)
      returns (need: bool, ghost done': seq<I32>)
      requires needSemicolon == (done != []) && buffer == start + Params(done)
      requires rest == ColorCodes(base, c) + tail
      modifies this
      ensures done' + tail == done + rest
      ensures need == (done' != []) && buffer == start + Params(done')
      ensures cols == old(cols) && rows == old(rows)
    {
      need := needSemicolon;
      done' := done + ColorCodes(base, c);
      Regroup(done, ColorCodes(base, c), tail);
      if !c.Default? {
        need := AppendGroup(needSemicolon, start, done, ColorCodes(base, c));
      } else {
        assert done' == done;
      }
    }

    /**
     * One group of appendSgr: the lambda appendSep (a ';' unless this is the
     * first group), then the group's decimal text.
     */
    method AppendGroup(needSemicolon: bool, ghost start: Bytes, ghost done: seq<I32>, group: seq<I32>)
      returns (need: bool)
      requires |group| >= 1 && needSemicolon == (done != [])
      requires buffer == start + Params(done)
      modifies this
      ensures need && buffer == start + Params(done + group)
      ensures cols == old(cols) && rows == old(rows)
    {
      ghost var sep: Bytes := if needSemicolon then [';'] else [];
      var text := Params(group);
      if needSemicolon {
        buffer := buffer + [';'];
      }
      assert buffer == start + Params(done) + sep;
      need := true;
      buffer := buffer + text;
      ParamsAppend(done, group);
      Associate(start, Params(done), sep, text);
    }

    method AppendSgrReset()
      modifies this
      ensures buffer == old(buffer) + SgrReset && cols == old(cols) && rows == old(rows)
    {
      buffer := buffer + "\U{1B}[m";
    }
  }

  lemma Associate(a: Bytes, b: Bytes, c: Bytes, d: Bytes)
    ensures a + b + c + d == a + (b + c + d)
  {
  }

  lemma CsiPair(a: I32, b: I32)
    ensures Csi([a, b], 'H') == "\U{1B}[" + IntText(a) + ";" + IntText(b) + "H"
    ensures Csi([a, b], 'r') == "\U{1B}[" + IntText(a) + ";" + IntText(b) + "r"
  {
    ParamsShort(a, b);
  }

  lemma CsiSingle(n: I32, final: Byte)
    ensures Csi([n], final) == "\U{1B}[" + IntText(n) + [final]
  {
    ParamsShort(n, n);
  }

  // ---------------------------------------------------------------------
  // Properties

  /**
   * Every parameterised sequence the output writes is read back by the input
   * side's CSI parser as exactly the parameters it was given.
   */
  lemma CsiParseBack(params: seq<I32>, final: Byte)
    requires |params| >= 1
    ensures var t := Csi(params, final);
            |t| >= 3 && t[..2] == "\U{1B}[" && t[|t| - 1] == final
            && CsiParams(t[2..|t| - 1]) == params
  {
    var t := Csi(params, final);
    assert t[2..|t| - 1] == Params(params);
    ParamsParseBack(params);
  }

  /** A cursor move by a positive count carries that count; any other count writes nothing. */
  lemma MoveSeqCarriesCount(n: I32, final: Byte)
    ensures n <= 0 <==> MoveSeq(n, final) == []
    ensures n > 0 ==> var t := MoveSeq(n, final);
                      t[..2] == "\U{1B}[" && t[|t| - 1] == final && CsiParams(t[2..|t| - 1]) == [n]
  {
    if n > 0 {
      CsiParseBack([n], final);
    }
  }

  /** The cursor, alternate-screen and synchronized-output sequences are DECSET/DECRST pairs. */
  lemma PrivateModePairs()
    ensures ShowCursorSeq == PrivateMode(25, true) && HideCursorSeq == PrivateMode(25, false)
    ensures EnterAltScreenSeq == PrivateMode(1049, true) && LeaveAltScreenSeq == PrivateMode(1049, false)
    ensures SyncBeginSeq == PrivateMode(2026, true) && SyncEndSeq == PrivateMode(2026, false)
  {
  }
}
