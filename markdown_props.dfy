/** What the block layer of src/tui/MarkdownRenderer.cpp promises. */
module MarkdownProps {
  import opened Utf8
  import Texts
  import opened Markdown

  function Repeat(c: Byte, n: nat): (r: Bytes)
    ensures |r| == n && forall k :: 0 <= k < n ==> r[k] == c
  {
    seq(n, _ => c)
  }

  // ---------------------------------------------------------------------------
  // The classifiers

  /** The run of c from from is exactly as long as the shape of line says. */
  lemma RunEndIs(line: Bytes, from: nat, c: Byte, e: nat)
    requires from <= e <= |line|
    requires forall k :: from <= k < e ==> line[k] == c
    requires e == |line| || line[e] != c
    ensures RunEnd(line, from, c) == e
  {
  }

  /**
   * Up to three spaces, then three or more '`' or '~', then anything that
   * does not continue the run: that run is the fence.
   */
  lemma FenceOfShape(k: nat, c: Byte, n: nat, rest: Bytes)
    requires k <= 3 && (c == '`' || c == '~') && n >= 3
    requires rest == [] || rest[0] != c
    ensures CodeFence(Repeat(' ', k) + Repeat(c, n) + rest) == Repeat(c, n)
  {
    var line := Repeat(' ', k) + Repeat(c, n) + rest;
    RunEndIs(line, 0, ' ', k);
    RunEndIs(line, k, c, k + n);
    assert line[k..k + n] == Repeat(c, n);
  }

  /** Four leading spaces make an indented line, never a fence. */
  lemma IndentedIsNoFence(rest: Bytes)
    ensures CodeFence(Repeat(' ', 4) + rest) == []
  {
    var line := Repeat(' ', 4) + rest;
    assert line[3] == ' ';
  }

  /** A run of only one or two fence characters is no fence. */
  lemma ShortRunIsNoFence(k: nat, c: Byte, n: nat, rest: Bytes)
    requires k <= 3 && (c == '`' || c == '~') && 1 <= n < 3
    requires rest == [] || rest[0] != c
    ensures CodeFence(Repeat(' ', k) + Repeat(c, n) + rest) == []
  {
    var line := Repeat(' ', k) + Repeat(c, n) + rest;
    RunEndIs(line, 0, ' ', k);
    RunEndIs(line, k, c, k + n);
  }

  /** The run of digits from from is exactly as long as the shape of line says. */
  lemma DigitsEndIs(line: Bytes, from: nat, e: nat)
    requires from <= e <= |line|
    requires forall k :: from <= k < e ==> IsDigit(line[k])
    requires e == |line| || !IsDigit(line[e])
    ensures DigitsEnd(line, from) == e
  {
  }

  /** One to six '#' and a space make a heading of that level. */
  lemma HeadingOfShape(n: nat, rest: Bytes)
    requires 1 <= n <= 6
    ensures HeadingLevel(Repeat('#', n) + [' '] + rest) == n
  {
    var line := Repeat('#', n) + [' '] + rest;
    RunEndIs(line, 0, '#', n);
  }

  /** Seven or more '#' make no heading. */
  lemma SevenHashesAreNoHeading(n: nat, rest: Bytes)
    requires n >= 7
    ensures HeadingLevel(Repeat('#', n) + rest) == 0
  {
    var line := Repeat('#', n) + rest;
    assert line[6] == '#';
  }

  /** Spaces, a bullet and a space: the marker ends after that space. */
  lemma BulletMarker(k: nat, b: Byte, rest: Bytes)
    requires IsBullet(b)
    ensures ListMarker(Repeat(' ', k) + [b, ' '] + rest) == k + 2
  {
    var line := Repeat(' ', k) + [b, ' '] + rest;
    RunEndIs(line, 0, ' ', k);
  }

  /** Spaces and then a byte that is neither a bullet nor a digit: no list marker. */
  lemma NoMarkerAfterOtherByte(k: nat, b: Byte, rest: Bytes)
    requires b != ' ' && !IsBullet(b) && !IsDigit(b)
    ensures ListMarker(Repeat(' ', k) + [b] + rest) == 0
  {
    var line := Repeat(' ', k) + [b] + rest;
    RunEndIs(line, 0, ' ', k);
  }

  /** Spaces, digits, '.' or ')' and a space: an ordered list marker. */
  lemma OrderedMarker(k: nat, digits: Bytes, d: Byte, rest: Bytes)
    requires digits != [] && forall j :: 0 <= j < |digits| ==> IsDigit(digits[j])
    requires d == '.' || d == ')'
    ensures ListMarker(Repeat(' ', k) + digits + [d, ' '] + rest) == k + |digits| + 2
  {
    var line := Repeat(' ', k) + digits + [d, ' '] + rest;
    RunEndIs(line, 0, ' ', k);
    DigitsEndIs(line, k, k + |digits|);
  }

  // ---------------------------------------------------------------------------
  // Stepping over lines

  /** A line is written exactly when it leaves the block state as it was, and then once. */
  lemma StepWritesIffStays(s: BlockState, line: Bytes)
    ensures Step(s, line).out == [] <==> Step(s, line).state != s
    ensures |Step(s, line).out| <= 1
  {
  }

  /** The states render can reach: never in both blocks; a code block remembers its fence. */
  predicate Valid(s: BlockState)
  {
    !(s.inCodeBlock && s.inThinkBlock) &&
    (s.inCodeBlock ==> CodeFence(s.codeFence) == s.codeFence && s.codeFence != []) &&
    (!s.inCodeBlock ==> s.codeFence == [])
  }

  lemma StepKeepsValid(s: BlockState, line: Bytes)
    requires Valid(s)
    ensures Valid(Step(s, line).state)
  {
    var f := CodeFence(line);
    if !s.inThinkBlock && !s.inCodeBlock && !Contains(line, ThinkOpen) && f != [] {
      FenceIsItsOwnFence(f);
    }
  }

  /** A fence, read as a line of its own, is that fence. */
  lemma FenceIsItsOwnFence(f: Bytes)
    requires f != [] && |f| >= 3 && (f[0] == '`' || f[0] == '~') && forall k :: 0 <= k < |f| ==> f[k] == f[0]
    ensures CodeFence(f) == f
  {
    FenceOfShape(0, f[0], |f|, []);
    assert Repeat(' ', 0) + Repeat(f[0], |f|) + [] == f;
  }

  lemma {:induction false} StepsKeepValid(s: BlockState, lines: seq<Bytes>)
    requires Valid(s)
    ensures Valid(Steps(s, lines).state)
    decreases |lines|
  {
    if lines != [] {
      StepsKeepValid(s, lines[..|lines| - 1]);
      StepKeepsValid(Steps(s, lines[..|lines| - 1]).state, lines[|lines| - 1]);
    }
  }

  /**
   * Inside a code block a line closes it exactly when it is a fence at
   * least as long as the opening one; any other line is written as code.
   */
  lemma CodeBlockCloses(s: BlockState, line: Bytes)
    requires Valid(s) && s.inCodeBlock
    ensures var f := CodeFence(line);
            Step(s, line).state == Outside <==> f != [] && |f| >= |s.codeFence|
    ensures Step(s, line).state == s <==> Step(s, line).out == [CodeLine(line)]
  {
  }

  /** Inside a think block only "</think>" counts: a fence neither opens nor is written. */
  lemma ThinkBlockHidesLines(s: BlockState, line: Bytes)
    requires Valid(s) && s.inThinkBlock
    ensures Step(s, line).out == [] || Step(s, line).out == [ThinkLine(line)]
    ensures !Step(s, line).state.inCodeBlock
  {
  }

  /** A line of "~~~" closes a block that "```" opened: only the length is compared. */
  lemma TildeClosesBacktick()
    ensures Step(BlockState(true, false, Repeat('`', 3)), Repeat('~', 3)).state == Outside
  {
    FenceIsItsOwnFence(Repeat('~', 3));
  }

  /** "<think>" anywhere in a line outside every block opens a think block. */
  lemma ThinkOpens(before: Bytes, after: Bytes)
    ensures Step(Outside, before + ThinkOpen + after) == StepResult(Outside.(inThinkBlock := true), [])
  {
    var line := before + ThinkOpen + after;
    assert MatchAt(line, ThinkOpen, |before|) by {
      assert line[|before|..|before| + |ThinkOpen|] == ThinkOpen;
    }
  }

  // ---------------------------------------------------------------------------
  // Streaming

  /** Find's result is the first c at or after start, or the end: nothing else fits. */
  lemma FindIs(s: Bytes, c: Byte, start: nat, r: nat)
    requires start <= r <= |s| && (r < |s| ==> s[r] == c)
    requires forall k :: start <= k < r ==> s[k] != c
    ensures Texts.Find(s, c, start) == r
  {
  }

  /** Find from start finds what Find from 0 finds in the suffix, shifted by start. */
  lemma FindShift(s: Bytes, c: Byte, start: nat)
    requires start <= |s|
    ensures Texts.Find(s, c, start) == start + Texts.Find(s[start..], c, 0)
  {
    var r := Texts.Find(s[start..], c, 0);
    assert forall k :: start <= k < start + r ==> s[k] == s[start..][k - start];
    FindIs(s, c, start, start + r);
  }

  /** The lines of a split, the unfinished rest counted as one line when it is not empty. */
  function AllLines(split: Split): seq<Bytes>
  {
    split.lines + (if split.rest == [] then [] else [split.rest])
  }

  /** render cuts markdown into the same lines the stream path does, the rest included. */
  lemma {:induction false} PiecesAreComplete(markdown: Bytes, start: nat)
    requires start <= |markdown|
    ensures Texts.Pieces(markdown, start) == AllLines(Complete(markdown[start..]))
    decreases |markdown| - start, 1
  {
    if start == |markdown| {
      assert Complete(markdown[start..]) == Split([], []);
    } else if Texts.Find(markdown, '\n', start) == |markdown| {
      PiecesAtLastLine(markdown, start);
    } else {
      PiecesAfterLine(markdown, start);
    }
  }

  lemma {:induction false} PiecesAfterLine(markdown: Bytes, start: nat)
    requires start < |markdown| && Texts.Find(markdown, '\n', start) < |markdown|
    ensures Texts.Pieces(markdown, start) == AllLines(Complete(markdown[start..]))
    decreases |markdown| - start, 0
  {
    var end := Texts.Find(markdown, '\n', start);
    PiecesAreComplete(markdown, end + 1);
    PiecesAgreeAt(markdown, start, end);
  }

  /** The last line, with no '\n' after it: one piece, and no complete line. */
  lemma PiecesAtLastLine(markdown: Bytes, start: nat)
    requires start < |markdown| && Texts.Find(markdown, '\n', start) == |markdown|
    ensures Texts.Pieces(markdown, start) == AllLines(Complete(markdown[start..]))
  {
    assert Complete(markdown[start..]) == Split([], markdown[start..]) by {
      FindShift(markdown, '\n', start);
    }
  }

  /** One line of PiecesAreComplete: the first line agrees, given that the rest does. */
  lemma PiecesAgreeAt(markdown: Bytes, start: nat, end: nat)
    requires start < |markdown| && end == Texts.Find(markdown, '\n', start) && end < |markdown|
    requires Texts.Pieces(markdown, end + 1) == AllLines(Complete(markdown[end + 1..]))
    ensures Texts.Pieces(markdown, start) == AllLines(Complete(markdown[start..]))
  {
    var line := markdown[start..end];
    var tail := Complete(markdown[end + 1..]);
    assert AllLines(Complete(markdown[start..])) == [line] + AllLines(tail) by {
      CompleteAfterNewline(markdown, start, end);
      var r: seq<Bytes> := if tail.rest == [] then [] else [tail.rest];
      assert ([line] + tail.lines) + r == [line] + (tail.lines + r);
    }
    assert Texts.Pieces(markdown, start) == [line] + Texts.Pieces(markdown, end + 1) by {
      NextPiece(markdown, start);
    }
  }

  /** The complete lines of markdown[start..] when it holds a '\n' at end. */
  lemma CompleteAfterNewline(markdown: Bytes, start: nat, end: nat)
    requires start < |markdown| && end == Texts.Find(markdown, '\n', start) && end < |markdown|
    ensures Complete(markdown[start..]) ==
            Split([markdown[start..end]] + Complete(markdown[end + 1..]).lines, Complete(markdown[end + 1..]).rest)
  {
    var buffer := markdown[start..];
    var nl := Texts.Find(buffer, '\n', 0);
    assert end == start + nl by {
      FindShift(markdown, '\n', start);
    }
    CompleteStep(buffer);
    assert buffer[nl + 1..] == markdown[end + 1..];
    assert buffer[..nl] == markdown[start..end];
  }

  /**
   * Splitting x + y: the complete lines of x, then those of what was left
   * over of x followed by y.
   */
  lemma {:induction false} CompleteAppend(x: Bytes, y: Bytes)
    ensures var cx := Complete(x);
            var cr := Complete(cx.rest + y);
            Complete(x + y) == Split(cx.lines + cr.lines, cr.rest)
    decreases |x|
  {
    var nl := Texts.Find(x, '\n', 0);
    if nl == |x| {
      assert Complete(x) == Split([], x);
    } else {
      CompleteAppend(x[nl + 1..], y);
      CompleteAppendStep(x, y, nl);
    }
  }

  /** The step of CompleteAppend: x + y and x split alike at the first '\n' of x. */
  lemma CompleteAppendStep(x: Bytes, y: Bytes, nl: nat)
    requires nl < |x| && nl == Texts.Find(x, '\n', 0)
    requires var after := Complete(x[nl + 1..]);
             Complete(x[nl + 1..] + y) == Split(after.lines + Complete(after.rest + y).lines, Complete(after.rest + y).rest)
    ensures var cx := Complete(x);
            var cr := Complete(cx.rest + y);
            Complete(x + y) == Split(cx.lines + cr.lines, cr.rest)
  {
    var after := Complete(x[nl + 1..]);
    var cr := Complete(after.rest + y);
    assert Complete(x) == Split([x[..nl]] + after.lines, after.rest) by {
      CompleteStep(x);
    }
    assert Complete(x + y) == Split([x[..nl]] + Complete(x[nl + 1..] + y).lines, Complete(x[nl + 1..] + y).rest) by {
      CompleteAppendAt(x, y, nl);
    }
    Assemble(Complete(x), Complete(x + y), after, Complete(x[nl + 1..] + y), cr, x[..nl]);
  }

  lemma Assemble(cx: Split, cxy: Split, after: Split, ay: Split, cr: Split, line: Bytes)
    requires cx == Split([line] + after.lines, after.rest)
    requires cxy == Split([line] + ay.lines, ay.rest)
    requires ay == Split(after.lines + cr.lines, cr.rest)
    ensures cxy == Split(cx.lines + cr.lines, cr.rest)
  {
    assert [line] + (after.lines + cr.lines) == ([line] + after.lines) + cr.lines;
  }

  /** x + y splits at the first '\n' of x. */
  lemma CompleteAppendAt(x: Bytes, y: Bytes, nl: nat)
    requires nl < |x| && nl == Texts.Find(x, '\n', 0)
    ensures Complete(x + y) == Split([x[..nl]] + Complete(x[nl + 1..] + y).lines, Complete(x[nl + 1..] + y).rest)
  {
    assert Texts.Find(x + y, '\n', 0) == nl by {
      FindPrefix(x, y, nl);
    }
    CompleteStep(x + y);
    assert (x + y)[nl + 1..] == x[nl + 1..] + y;
    assert (x + y)[..nl] == x[..nl];
  }

  /** A '\n' found in x is found at the same place in x + y. */
  lemma FindPrefix(x: Bytes, y: Bytes, nl: nat)
    requires nl < |x| && nl == Texts.Find(x, '\n', 0)
    ensures Texts.Find(x + y, '\n', 0) == nl
  {
    assert forall k :: 0 <= k < nl ==> (x + y)[k] == x[k];
    FindIs(x + y, '\n', 0, nl);
  }

  /** The first complete line of a buffer that holds a '\n', and the split of the rest. */
  lemma CompleteStep(buffer: Bytes)
    requires Texts.Find(buffer, '\n', 0) < |buffer|
    ensures var nl := Texts.Find(buffer, '\n', 0);
            var tail := Complete(buffer[nl + 1..]);
            Complete(buffer) == Split([buffer[..nl]] + tail.lines, tail.rest)
  {
  }

  /**
   * How a stream is cut into tokens does not matter: feeding a and then b
   * leaves what feeding a + b at once leaves.
   */
  lemma FeedTwice(st: State, a: Bytes, b: Bytes)
    ensures Fed(Fed(st, a), b) == Fed(st, a + b)
  {
    var x := st.streamBuffer + a;
    var cx := Complete(x);
    var cr := Complete(cx.rest + b);
    assert Complete(st.streamBuffer + (a + b)) == Split(cx.lines + cr.lines, cr.rest) by {
      CompleteAppend(x, b);
      assert st.streamBuffer + (a + b) == x + b;
    }
    var first := Steps(st.block, cx.lines);
    var second := Steps(first.state, cr.lines);
    assert Steps(st.block, cx.lines + cr.lines) == StepResult(second.state, first.out + second.out) by {
      StepsAppend(st.block, cx.lines, cr.lines);
    }
    assert st.output + (first.out + second.out) == (st.output + first.out) + second.out;
  }

  /** A stream of several tokens leaves what one token of them all leaves. */
  function FedAll(st: State, tokens: seq<Bytes>): State
    decreases |tokens|
  {
    if tokens == [] then st else FedAll(Fed(st, tokens[0]), tokens[1..])
  }

  function Concat(tokens: seq<Bytes>): Bytes
    decreases |tokens|
  {
    if tokens == [] then [] else tokens[0] + Concat(tokens[1..])
  }

  lemma {:induction false} FedAllIsFedOnce(st: State, tokens: seq<Bytes>)
    requires tokens != []
    ensures FedAll(st, tokens) == Fed(st, Concat(tokens))
    decreases |tokens|
  {
    if |tokens| == 1 {
      assert Concat(tokens) == tokens[0] + Concat([]);
      assert tokens[0] + [] == tokens[0];
    } else {
      FedAllIsFedOnce(Fed(st, tokens[0]), tokens[1..]);
      FeedTwice(st, tokens[0], Concat(tokens[1..]));
    }
  }

  /**
   * Streaming a document that ends with '\n' from a fresh stream and ending
   * the stream writes what render writes from the same state, then one
   * newline, and leaves every block closed.
   */
  lemma StreamMatchesRender(st: State, markdown: Bytes)
    requires markdown == [] || markdown[|markdown| - 1] == '\n'
    ensures Ended(Fed(Began(st), markdown)).output == Rendered(Began(st), markdown).output + [Newline]
    ensures Ended(Fed(Began(st), markdown)).block == Outside
  {
    var split := Complete(markdown);
    assert Texts.Pieces(markdown, 0) == split.lines by {
      PiecesAreComplete(markdown, 0);
      assert markdown[0..] == markdown;
      NoRestAfterNewline(markdown);
      assert split.lines + [] == split.lines;
    }
    NoRestAfterNewline(markdown);
    assert Began(st).streamBuffer + markdown == markdown;
    var fed := Fed(Began(st), markdown);
    assert fed.streamBuffer == [];
    assert fed.output + Flush(fed.block, []) + [Newline] == fed.output + [Newline];
  }

  /** Whatever ends with '\n' leaves no unfinished rest. */
  lemma {:induction false} NoRestAfterNewline(buffer: Bytes)
    requires buffer == [] || buffer[|buffer| - 1] == '\n'
    ensures Complete(buffer).rest == []
    decreases |buffer|
  {
    if buffer != [] {
      var nl := Texts.Find(buffer, '\n', 0);
      NoRestAfterNewline(buffer[nl + 1..]);
    }
  }
}
