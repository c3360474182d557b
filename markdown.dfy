/**
 * The block layer of src/tui/MarkdownRenderer.cpp: the line classifiers
 * (code fence, heading, list marker, blockquote), the code-block and
 * think-block state that render and the streaming path carry from line to
 * line, and the stream buffer that holds an unfinished line.
 *
 * What the renderer writes is modelled as a trace of Emitted items, one per
 * write that a line or the end of a stream causes; how renderLine and
 * renderInline style a line is not part of this model.
 */
module Markdown {
  import opened Utf8
  import Styles
  import Texts

  // ---------------------------------------------------------------------------
  // Runs of bytes

  /** The end of the run of c that starts at from. */
  function RunEnd(line: Bytes, from: nat, c: Byte): (r: nat)
    requires from <= |line|
    ensures from <= r <= |line| && (r < |line| ==> line[r] != c)
    ensures forall k :: from <= k < r ==> line[k] == c
    decreases |line| - from
  {
    if from == |line| || line[from] != c then from else RunEnd(line, from + 1, c)
  }

  predicate IsDigit(b: Byte)
  {
    '0' <= b <= '9'
  }

  /** The end of the run of ASCII digits that starts at from. */
  function DigitsEnd(line: Bytes, from: nat): (r: nat)
    requires from <= |line|
    ensures from <= r <= |line| && (r < |line| ==> !IsDigit(line[r]))
    ensures forall k :: from <= k < r ==> IsDigit(line[k])
    decreases |line| - from
  {
    if from == |line| || !IsDigit(line[from]) then from else DigitsEnd(line, from + 1)
  }

  function Min(a: int, b: int): int
  {
    if a <= b then a else b
  }

  // ---------------------------------------------------------------------------
  // detectCodeFence

  /** Where a fence may start: after at most three leading spaces. */
  function FenceIndent(line: Bytes): (p: nat)
    ensures p <= 3 && p <= |line|
  {
    Min(RunEnd(line, 0, ' '), 3)
  }

  /** The fence a line opens or closes: a run of at least three '`' or '~', or nothing. */
  function CodeFence(line: Bytes): (f: Bytes)
    ensures f != [] ==> |f| >= 3 && (f[0] == '`' || f[0] == '~') && forall k :: 0 <= k < |f| ==> f[k] == f[0]
    ensures f != [] ==> var p := FenceIndent(line);
              (forall k :: 0 <= k < p ==> line[k] == ' ') && p + |f| <= |line| && line[p..p + |f|] == f &&
              (p + |f| == |line| || line[p + |f|] != f[0])
  {
    var p := FenceIndent(line);
    if p >= |line| || (line[p] != '`' && line[p] != '~') then []
    else
      var e := RunEnd(line, p, line[p]);
      if e - p >= 3 then line[p..e] else []
  }

  method DetectCodeFence(line: Bytes) returns (fence: Bytes)
    ensures fence == CodeFence(line)
  {
    var pos := 0;
    while pos < |line| && pos < 3 && line[pos] == ' '
      invariant pos <= 3 && pos <= |line| && RunEnd(line, pos, ' ') == RunEnd(line, 0, ' ')
    {
      pos := pos + 1;
    }
    if pos >= |line| {
      return [];
    }
    var fenceChar := line[pos];
    if fenceChar != '`' && fenceChar != '~' {
      return [];
    }
    var fenceStart := pos;
    while pos < |line| && line[pos] == fenceChar
      invariant fenceStart <= pos <= |line| && RunEnd(line, pos, fenceChar) == RunEnd(line, fenceStart, fenceChar)
    {
      pos := pos + 1;
    }
    if pos - fenceStart >= 3 {
      return line[fenceStart..pos];
    }
    return [];
  }

  // ---------------------------------------------------------------------------
  // detectHeadingLevel

  function HeadingLevel(line: Bytes): (level: int)
    ensures 0 <= level <= 6
    ensures level > 0 ==> level < |line| && line[level] == ' ' && forall k :: 0 <= k < level ==> line[k] == '#'
  {
    var level := Min(RunEnd(line, 0, '#'), 6);
    if level > 0 && level < |line| && line[level] == ' ' then level else 0
  }

  method DetectHeadingLevel(line: Bytes) returns (level: int)
    ensures level == HeadingLevel(line)
  {
    level := 0;
    while level < |line| && level < 6 && line[level] == '#'
      invariant 0 <= level <= 6 && level <= |line| && RunEnd(line, level, '#') == RunEnd(line, 0, '#')
    {
      level := level + 1;
    }
    if level > 0 && level < |line| && line[level] == ' ' {
      return level;
    }
    return 0;
  }

  // ---------------------------------------------------------------------------
  // detectListMarker

  predicate IsBullet(b: Byte)
  {
    b == '-' || b == '*' || b == '+'
  }

  /** How many bytes a list marker takes, its trailing space included; 0 for no marker. */
  function ListMarker(line: Bytes): (n: nat)
    ensures n == 0 || (2 <= n <= |line| && line[n - 1] == ' ' &&
                       (IsBullet(line[n - 2]) || line[n - 2] == '.' || line[n - 2] == ')'))
    ensures n > 0 ==>
      var p := RunEnd(line, 0, ' ');
      (forall k :: 0 <= k < p ==> line[k] == ' ') && p < n - 1 &&
      ((IsBullet(line[p]) && n == p + 2) ||
       (p < n - 2 && forall k :: p <= k < n - 2 ==> IsDigit(line[k])))
  {
    var p := RunEnd(line, 0, ' ');
    if p >= |line| then 0
    else if IsBullet(line[p]) && p + 1 < |line| && line[p + 1] == ' ' then p + 2
    else
      var d := DigitsEnd(line, p);
      if d > p && d < |line| && (line[d] == '.' || line[d] == ')') && d + 1 < |line| && line[d + 1] == ' '
      then d + 2
      else 0
  }

  method DetectListMarker(line: Bytes) returns (n: nat)
    ensures n == ListMarker(line)
  {
    var pos := 0;
    while pos < |line| && line[pos] == ' '
      invariant pos <= |line| && RunEnd(line, pos, ' ') == RunEnd(line, 0, ' ')
    {
      pos := pos + 1;
    }
    if pos >= |line| {
      return 0;
    }
    if (line[pos] == '-' || line[pos] == '*' || line[pos] == '+') && pos + 1 < |line| && line[pos + 1] == ' ' {
      return pos + 2;
    }
    var digitStart := pos;
    while pos < |line| && '0' <= line[pos] <= '9'
      invariant digitStart <= pos <= |line| && DigitsEnd(line, pos) == DigitsEnd(line, digitStart)
    {
      pos := pos + 1;
    }
    if pos > digitStart && pos < |line| && (line[pos] == '.' || line[pos] == ')') && pos + 1 < |line| && line[pos + 1] == ' ' {
      return pos + 2;
    }
    return 0;
  }

  // ---------------------------------------------------------------------------
  // detectBlockquote

  /** How many bytes a blockquote marker takes: "> " is 2, a '>' without a space 1, otherwise 0. */
  function Blockquote(line: Bytes): (r: nat)
    ensures r <= |line|
    ensures r > 0 <==> line != [] && line[0] == '>'
    ensures r == 2 <==> |line| >= 2 && line[..2] == "> "
    ensures r == 1 ==> line[..1] == ">"
  {
    if line != [] && line[0] == '>' then
      if |line| > 1 && line[1] == ' ' then 2 else 1
    else 0
  }

  // ---------------------------------------------------------------------------
  // Block state

  const ThinkOpen: Bytes := "<think>"
  const ThinkClose: Bytes := "</think>"

  /** std::string_view::find(pattern) != npos. */
  predicate Contains(s: Bytes, pattern: Bytes)
  {
    exists i :: 0 <= i <= |s| - |pattern| && MatchAt(s, pattern, i)
  }

  predicate MatchAt(s: Bytes, pattern: Bytes, i: int)
  {
    0 <= i && i + |pattern| <= |s| && s[i..i + |pattern|] == pattern
  }

  datatype BlockState = BlockState(inCodeBlock: bool, inThinkBlock: bool, codeFence: Bytes)

  const Outside := BlockState(false, false, [])

  /**
   * What the renderer writes. A ThinkLine, CodeLine or MarkdownLine is a
   * whole line followed by its newline; the *Rest items are what endStream
   * flushes from an unfinished line, and Newline the newline it always ends
   * with.
   */
  datatype Emitted =
    | ThinkLine(text: Bytes)
    | CodeLine(text: Bytes)
    | MarkdownLine(text: Bytes)
    | ThinkRest(text: Bytes)
    | CodeRest(text: Bytes)
    | InlineRest(text: Bytes)
    | Newline

  datatype StepResult = StepResult(state: BlockState, out: seq<Emitted>)

  /**
   * One line in render or processStreamBuffer: inside a think block only
   * "</think>" matters; inside a code block only a fence at least as long as
   * the opener; outside, "<think>" anywhere, then a fence, open a block. The
   * lines that open or close a block are not written.
   */
  function Step(s: BlockState, line: Bytes): StepResult
  {
    if s.inThinkBlock then
      if Contains(line, ThinkClose) then StepResult(s.(inThinkBlock := false), [])
      else StepResult(s, [ThinkLine(line)])
    else if s.inCodeBlock then
      var fence := CodeFence(line);
      if fence != [] && |fence| >= |s.codeFence| then StepResult(s.(inCodeBlock := false, codeFence := []), [])
      else StepResult(s, [CodeLine(line)])
    else if Contains(line, ThinkOpen) then StepResult(s.(inThinkBlock := true), [])
    else
      var fence := CodeFence(line);
      if fence != [] then StepResult(s.(inCodeBlock := true, codeFence := fence), [])
      else StepResult(s, [MarkdownLine(line)])
  }

  /** Step over lines in order, collecting what they write. */
  function Steps(s: BlockState, lines: seq<Bytes>): StepResult
    decreases |lines|
  {
    if lines == [] then StepResult(s, [])
    else
      var front := Steps(s, lines[..|lines| - 1]);
      var last := Step(front.state, lines[|lines| - 1]);
      StepResult(last.state, front.out + last.out)
  }

  /** The complete lines at the front of a buffer, and the unfinished rest. */
  datatype Split = Split(lines: seq<Bytes>, rest: Bytes)

  function Complete(buffer: Bytes): (r: Split)
    ensures '\n' !in r.rest
    decreases |buffer|
  {
    var nl := Texts.Find(buffer, '\n', 0);
    if nl == |buffer| then Split([], buffer)
    else
      var tail := Complete(buffer[nl + 1..]);
      Split([buffer[..nl]] + tail.lines, tail.rest)
  }

  /** Taking the first complete line off a buffer moves it from the pending lines to the finished ones. */
  lemma CompleteFront(whole: Bytes, done: seq<Bytes>, buffer: Bytes, nl: nat)
    requires nl == Texts.Find(buffer, '\n', 0) && nl < |buffer|
    requires done + Complete(buffer).lines == Complete(whole).lines && Complete(buffer).rest == Complete(whole).rest
    ensures (done + [buffer[..nl]]) + Complete(buffer[nl + 1..]).lines == Complete(whole).lines
    ensures Complete(buffer[nl + 1..]).rest == Complete(whole).rest
  {
    var tail := Complete(buffer[nl + 1..]);
    CompleteUnfold(buffer, nl);
    assert (done + [buffer[..nl]]) + tail.lines == done + ([buffer[..nl]] + tail.lines);
  }

  lemma CompleteUnfold(buffer: Bytes, nl: nat)
    requires nl == Texts.Find(buffer, '\n', 0) && nl < |buffer|
    ensures Complete(buffer) == Split([buffer[..nl]] + Complete(buffer[nl + 1..]).lines, Complete(buffer[nl + 1..]).rest)
  {
  }

  /** A buffer without a newline holds no complete line. */
  lemma CompleteEnd(whole: Bytes, done: seq<Bytes>, buffer: Bytes)
    requires Texts.Find(buffer, '\n', 0) == |buffer|
    requires done + Complete(buffer).lines == Complete(whole).lines
    ensures done == Complete(whole).lines
  {
    assert Complete(buffer) == Split([], buffer);
    assert done + [] == done;
  }

  lemma MovePiece(done: seq<Bytes>, line: Bytes, rest: seq<Bytes>, after: seq<Bytes>)
    requires rest == [line] + after
    ensures done + rest == (done + [line]) + after
  {
  }

  lemma StepsAppend(s: BlockState, a: seq<Bytes>, b: seq<Bytes>)
    ensures Steps(s, a + b).state == Steps(Steps(s, a).state, b).state
    ensures Steps(s, a + b).out == Steps(s, a).out + Steps(Steps(s, a).state, b).out
  {
    StepsIsFold(s, a + b);
    StepsIsFold(s, a);
    StepsIsFold(Steps(s, a).state, b);
    FoldAppend(Step, s, a, b);
  }

  /** Steps with the step it takes left open. */
  function Fold(step: (BlockState, Bytes) -> StepResult, s: BlockState, lines: seq<Bytes>): StepResult
    decreases |lines|
  {
    if lines == [] then StepResult(s, [])
    else
      var front := Fold(step, s, lines[..|lines| - 1]);
      var last := step(front.state, lines[|lines| - 1]);
      StepResult(last.state, front.out + last.out)
  }

  lemma {:induction false} StepsIsFold(s: BlockState, lines: seq<Bytes>)
    ensures Steps(s, lines) == Fold(Step, s, lines)
    decreases |lines|
  {
    if lines != [] {
      StepsIsFold(s, lines[..|lines| - 1]);
    }
  }

  lemma {:induction false} FoldAppend(step: (BlockState, Bytes) -> StepResult, s: BlockState, a: seq<Bytes>, b: seq<Bytes>)
    ensures Fold(step, s, a + b).state == Fold(step, Fold(step, s, a).state, b).state
    ensures Fold(step, s, a + b).out == Fold(step, s, a).out + Fold(step, Fold(step, s, a).state, b).out
    decreases |b|
  {
    if b == [] {
      assert a + b == a;
    } else {
      var b', line := b[..|b| - 1], b[|b| - 1];
      assert (a + b)[..|a + b| - 1] == a + b' && (a + b)[|a + b| - 1] == line;
      FoldAppend(step, s, a, b');
    }
  }

  lemma StepsSnoc(s: BlockState, a: seq<Bytes>, line: Bytes)
    ensures Steps(s, a + [line]).state == Step(Steps(s, a).state, line).state
    ensures Steps(s, a + [line]).out == Steps(s, a).out + Step(Steps(s, a).state, line).out
  {
    assert (a + [line])[..|a|] == a;
  }

  /** The line render takes at pos, and where the next one starts. */
  lemma NextPiece(markdown: Bytes, pos: nat)
    requires pos < |markdown|
    ensures var lineEnd := Texts.Find(markdown, '\n', pos);
            var next := if lineEnd < |markdown| then lineEnd + 1 else |markdown|;
            Texts.Pieces(markdown, pos) == [markdown[pos..lineEnd]] + Texts.Pieces(markdown, next)
  {
    var lineEnd := Texts.Find(markdown, '\n', pos);
    if lineEnd == |markdown| {
      assert markdown[pos..lineEnd] == markdown[pos..];
    }
  }

  // ---------------------------------------------------------------------------
  // The renderer

  datatype Theme = Theme(
    heading1: Styles.Style, heading2: Styles.Style, heading3: Styles.Style,
    codeBlock: Styles.Style, codeInline: Styles.Style, bold: Styles.Style, italic: Styles.Style,
    link: Styles.Style, listMarker: Styles.Style, blockquote: Styles.Style, thinkBlock: Styles.Style)

  /** defaultTheme: bold headings (the second also underlined), dim code, italic emphasis. */
  function DefaultTheme(): (t: Theme)
    ensures t.heading1.bold && t.heading2.bold && t.heading2.underline && t.heading3.bold
    ensures t.codeBlock.dim && t.codeInline.dim && t.thinkBlock.dim
    ensures t.bold.bold && t.italic.italic && t.blockquote.italic && t.blockquote.dim
    ensures t.link.underline && t.link.fg == Styles.Rgb(0, 180, 216) && t.listMarker.fg == Styles.Rgb(0, 180, 0)
  {
    var p := Styles.Plain;
    Theme(p.(bold := true), p.(bold := true, underline := true), p.(bold := true),
          p.(dim := true), p.(dim := true), p.(bold := true), p.(italic := true),
          p.(fg := Styles.Rgb(0, 180, 216), underline := true), p.(fg := Styles.Rgb(0, 180, 0)),
          p.(italic := true, dim := true), p.(dim := true))
  }

  datatype State = State(streamBuffer: Bytes, streaming: bool, block: BlockState, output: seq<Emitted>)

  /** render(markdown): every line of markdown, up to each '\n' and the rest, one Step each. */
  function Rendered(st: State, markdown: Bytes): State
  {
    var r := Steps(st.block, Texts.Pieces(markdown, 0));
    st.(block := r.state, output := st.output + r.out)
  }

  function Began(st: State): State
  {
    st.(streaming := true, streamBuffer := [], block := Outside)
  }

  /** feedToken: append, then Step over every complete line and keep the unfinished rest. */
  function Fed(st: State, token: Bytes): State
  {
    var split := Complete(st.streamBuffer + token);
    var r := Steps(st.block, split.lines);
    st.(streamBuffer := split.rest, block := r.state, output := st.output + r.out)
  }

  /** What endStream writes for the unfinished rest, in the style of the block it is in. */
  function Flush(block: BlockState, rest: Bytes): seq<Emitted>
  {
    if rest == [] then []
    else if block.inCodeBlock then [CodeRest(rest)]
    else if block.inThinkBlock then [ThinkRest(rest)]
    else [InlineRest(rest)]
  }

  function Ended(st: State): State
  {
    State([], false, Outside, st.output + Flush(st.block, st.streamBuffer) + [Newline])
  }

  class MarkdownRenderer {
    const theme: Theme
    var streamBuffer: Bytes
    var streaming: bool
    var inCodeBlock: bool
    var inThinkBlock: bool
    var codeFence: Bytes
    var output: seq<Emitted>

    function Snapshot(): State
      reads this
    {
      State(streamBuffer, streaming, BlockState(inCodeBlock, inThinkBlock, codeFence), output)
    }

    constructor(theme: Theme)
      ensures Snapshot() == State([], false, Outside, []) && this.theme == theme
    {
      this.theme := theme;
      streamBuffer := [];
      streaming := false;
      inCodeBlock := false;
      inThinkBlock := false;
      codeFence := [];
      output := [];
    }

    function Block(): BlockState
      reads this
    {
      BlockState(inCodeBlock, inThinkBlock, codeFence)
    }

    /** The body of the loops of render and processStreamBuffer: one line. */
    method ProcessLine(line: Bytes)
      modifies this
      ensures Block() == Step(old(Block()), line).state && output == old(output) + Step(old(Block()), line).out
      ensures streamBuffer == old(streamBuffer) && streaming == old(streaming)
    {
      if inThinkBlock {
        if Contains(line, ThinkClose) {
          inThinkBlock := false;
        } else {
          output := output + [ThinkLine(line)];
        }
      } else if inCodeBlock {
        var fence := DetectCodeFence(line);
        if fence != [] && |fence| >= |codeFence| {
          inCodeBlock := false;
          codeFence := [];
        } else {
          output := output + [CodeLine(line)];
        }
      } else {
        if Contains(line, ThinkOpen) {
          inThinkBlock := true;
        } else {
          var fence := DetectCodeFence(line);
          if fence != [] {
            inCodeBlock := true;
            codeFence := fence;
          } else {
            output := output + [MarkdownLine(line)];
          }
        }
      }
    }

    method Render(markdown: Bytes)
      modifies this
      ensures Snapshot() == Rendered(old(Snapshot()), markdown)
    {
      ghost var b0, out0 := Block(), output;
      ghost var done: seq<Bytes> := [];
      var pos := 0;
      while pos < |markdown|
        invariant 0 <= pos <= |markdown|
        invariant done + Texts.Pieces(markdown, pos) == Texts.Pieces(markdown, 0)
        invariant Block() == Steps(b0, done).state && output == out0 + Steps(b0, done).out
        invariant streamBuffer == old(streamBuffer) && streaming == old(streaming)
        decreases |markdown| - pos
      {
        ghost var line := markdown[pos..Texts.Find(markdown, '\n', pos)];
        ghost var rest := Texts.Pieces(markdown, pos);
        pos := RenderLine(markdown, pos);
        MovePiece(done, line, rest, Texts.Pieces(markdown, pos));
        StepsSnoc(b0, done, line);
        done := done + [line];
      }
      assert done == Texts.Pieces(markdown, 0) by {
        assert Texts.Pieces(markdown, pos) == [];
      }
    }

    /** One turn of render's loop: the line at pos, and where the next one starts. */
    method RenderLine(markdown: Bytes, pos: nat) returns (next: nat)
      requires pos < |markdown|
      modifies this
      ensures pos < next <= |markdown|
      ensures var line := markdown[pos..Texts.Find(markdown, '\n', pos)];
              Texts.Pieces(markdown, pos) == [line] + Texts.Pieces(markdown, next) &&
              Block() == Step(old(Block()), line).state && output == old(output) + Step(old(Block()), line).out
      ensures streamBuffer == old(streamBuffer) && streaming == old(streaming)
    {
      var lineEnd := Texts.Find(markdown, '\n', pos);
      ProcessLine(markdown[pos..lineEnd]);
      next := if lineEnd < |markdown| then lineEnd + 1 else |markdown|;
      NextPiece(markdown, pos);
    }

    method BeginStream()
      modifies this
      ensures Snapshot() == Began(old(Snapshot()))
    {
      streaming := true;
      streamBuffer := [];
      inCodeBlock := false;
      inThinkBlock := false;
      codeFence := [];
    }

    method FeedToken(token: Bytes)
      modifies this
      ensures Snapshot() == Fed(old(Snapshot()), token)
    {
      streamBuffer := streamBuffer + token;
      ProcessStreamBuffer();
    }

    /** Step over every complete line of the buffer, erasing each from its front. */
    method ProcessStreamBuffer()
      modifies this
      ensures var split := Complete(old(streamBuffer));
              streamBuffer == split.rest && streaming == old(streaming) &&
              Block() == Steps(old(Block()), split.lines).state &&
              output == old(output) + Steps(old(Block()), split.lines).out
    {
      ghost var b0, out0, buffer0 := Block(), output, streamBuffer;
      ghost var done: seq<Bytes> := [];
      while true
        invariant done + Complete(streamBuffer).lines == Complete(buffer0).lines
        invariant Complete(streamBuffer).rest == Complete(buffer0).rest
        invariant Block() == Steps(b0, done).state && output == out0 + Steps(b0, done).out
        invariant streaming == old(streaming)
        decreases |streamBuffer|
      {
        var newlinePos := Texts.Find(streamBuffer, '\n', 0);
        if newlinePos == |streamBuffer| {
          break;
        }
        var line := streamBuffer[..newlinePos];
        CompleteFront(buffer0, done, streamBuffer, newlinePos);
        ProcessLine(line);
        assert Block() == Steps(b0, done + [line]).state && output == out0 + Steps(b0, done + [line]).out by {
          StepsSnoc(b0, done, line);
        }
        done := done + [line];
        streamBuffer := streamBuffer[newlinePos + 1..];
      }
      CompleteEnd(buffer0, done, streamBuffer);
    }

    method EndStream()
      modifies this
      ensures Snapshot() == Ended(old(Snapshot()))
    {
      if streamBuffer != [] {
        if inCodeBlock {
          output := output + [CodeRest(streamBuffer)];
        } else if inThinkBlock {
          output := output + [ThinkRest(streamBuffer)];
        } else {
          output := output + [InlineRest(streamBuffer)];
        }
        streamBuffer := [];
      }
      output := output + [Newline];
      streaming := false;
      inCodeBlock := false;
      inThinkBlock := false;
      codeFence := [];
    }
  }
}
