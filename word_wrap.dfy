/**
 * wordWrap of src/tui/Text.cpp. A word is a maximal run of bytes that are
 * not C-locale white space; '\n' ends the current line, other white space
 * only separates words. Words are placed greedily: a word joins the current
 * line after one space when it fits, and starts a new line otherwise.
 *
 * The loop and its flushWord lambda are a method each; what they promise is
 * stated through Words, a reference definition of the words of a string.
 */
module WordWraps {
  import opened Utf8
  import opened TextWidth
  import TextWidthProps

  /** std::isspace in the C locale: space, \t, \n, \v, \f and \r. */
  predicate IsSpace(b: Byte)
  {
    b == ' ' || '\t' <= b <= '\r'
  }

  predicate NoSpace(s: Bytes)
  {
    forall k :: 0 <= k < |s| ==> !IsSpace(s[k])
  }

  /** Where the run of non-space bytes that ends at s[j] begins. */
  function WordStart(s: Bytes, j: nat): (k: nat)
    requires j < |s|
    ensures k <= j
  {
    if j == 0 || IsSpace(s[j - 1]) then j else WordStart(s, j - 1)
  }

  /** The words of s, in order. */
  function Words(s: Bytes): seq<Bytes>
    decreases |s|
  {
    if s == [] then []
    else if IsSpace(s[|s| - 1]) then Words(s[..|s| - 1])
    else
      var k := WordStart(s, |s| - 1);
      Words(s[..k]) + [s[k..]]
  }

  /** Words joined by single spaces. */
  function JoinSpace(ws: seq<Bytes>): Bytes
  {
    if ws == [] then []
    else if |ws| == 1 then ws[0]
    else JoinSpace(ws[..|ws| - 1]) + [' '] + ws[|ws| - 1]
  }

  /** The words of several lines, line after line. */
  function WordsOfLines(lines: seq<Bytes>): seq<Bytes>
  {
    if lines == [] then [] else WordsOfLines(lines[..|lines| - 1]) + Words(lines[|lines| - 1])
  }

  /**
   * A line the wrapper may produce: its words joined by single spaces, and
   * no wider than width unless it is a single word.
   */
  predicate LineOk(line: Bytes, width: int)
  {
    line == JoinSpace(Words(line)) && (Width(line) <= width || |Words(line)| == 1)
  }

  // ---------------------------------------------------------------------------
  // Facts about Words

  lemma {:induction false} WordStartAfter(s: Bytes, p: nat, j: nat)
    requires p <= j < |s| && (p == 0 || IsSpace(s[p - 1]))
    requires forall k :: p <= k <= j ==> !IsSpace(s[k])
    ensures WordStart(s, j) == p
    decreases j
  {
    if j > p {
      WordStartAfter(s, p, j - 1);
    }
  }

  /** A word after a separator (or at the start) adds exactly that word. */
  lemma WordsAppendWord(p: Bytes, w: Bytes)
    requires p == [] || IsSpace(p[|p| - 1])
    requires w != [] && NoSpace(w)
    ensures Words(p + w) == Words(p) + [w]
  {
    var s := p + w;
    assert forall k :: |p| <= k < |s| ==> s[k] == w[k - |p|];
    assert p != [] ==> s[|p| - 1] == p[|p| - 1];
    WordStartAfter(s, |p|, |s| - 1);
    assert s[..|p|] == p && s[|p|..] == w;
    assert !IsSpace(s[|s| - 1]);
    assert Words(s) == Words(s[..|p|]) + [s[|p|..]];
  }

  /** A trailing white-space byte adds no word. */
  lemma WordsAppendSpace(p: Bytes, c: Byte)
    requires IsSpace(c)
    ensures Words(p + [c]) == Words(p)
  {
    assert (p + [c])[..|p|] == p;
  }

  /** Text read up to a word boundary, then the run of non-space bytes after it. */
  lemma WordsOfPrefix(text: Bytes, wordStart: nat, wordEnd: nat)
    requires wordStart <= wordEnd <= |text| && NoSpace(text[wordStart..wordEnd])
    requires wordStart == 0 || IsSpace(text[wordStart - 1])
    ensures Words(text[..wordEnd]) ==
              Words(text[..wordStart]) + (if wordStart < wordEnd then [text[wordStart..wordEnd]] else [])
  {
    if wordStart < wordEnd {
      assert text[..wordEnd] == text[..wordStart] + text[wordStart..wordEnd];
      WordsAppendWord(text[..wordStart], text[wordStart..wordEnd]);
    }
  }

  lemma WordsOfWord(w: Bytes)
    requires w != [] && NoSpace(w)
    ensures Words(w) == [w]
  {
    WordsAppendWord([], w);
    assert [] + w == w;
  }

  lemma WordsOfLinesSnoc(lines: seq<Bytes>, line: Bytes)
    ensures WordsOfLines(lines + [line]) == WordsOfLines(lines) + Words(line)
  {
    assert (lines + [line])[..|lines|] == lines;
  }

  /** Appending one word to a line of words, after a space unless the line was empty. */
  lemma ExtendLine(line: Bytes, w: Bytes)
    requires line == JoinSpace(Words(line)) && w != [] && NoSpace(w)
    ensures var l := if line == [] then w else line + [' '] + w;
            Words(l) == Words(line) + [w] && l == JoinSpace(Words(l)) &&
            Width(l) == (if line == [] then 0 else Width(line) + 1) + Width(w)
  {
    var ws := Words(line);
    if line == [] {
      WordsAppendWord([], w);
      assert [] + w == w;
    } else {
      assert ws != [];
      WordsAppendSpace(line, ' ');
      WordsAppendWord(line + [' '], w);
      var l := line + [' '] + w;
      assert (ws + [w])[..|ws|] == ws;
      TextWidthProps.WidthAppend(line, [' ']);
      TextWidthProps.WidthAppend(line + [' '], w);
      assert Width([' ']) == 1 by {
        TextWidthProps.WidthOfAscii([' ']);
      }
    }
  }

  // ---------------------------------------------------------------------------
  // wordWrap

  /** What holds between the steps of wordWrap once wordStart bytes have been placed. */
  predicate Placed(text: Bytes, width: int, wordStart: nat, result: seq<Bytes>, currentLine: Bytes, currentWidth: int)
  {
    && wordStart <= |text|
    && (forall j :: 0 <= j < |result| ==> LineOk(result[j], width))
    && LineOk(currentLine, width) && currentWidth == Width(currentLine)
    && WordsOfLines(result) + Words(currentLine) == Words(text[..wordStart])
  }

  /** A word placed on the current line (after a space unless the line is empty) keeps Placed. */
  lemma PlaceOnLine(text: Bytes, width: int, wordStart: nat, wordEnd: nat, result: seq<Bytes>, currentLine: Bytes)
    requires wordStart < wordEnd <= |text| && NoSpace(text[wordStart..wordEnd])
    requires wordStart == 0 || IsSpace(text[wordStart - 1])
    requires Placed(text, width, wordStart, result, currentLine, Width(currentLine))
    requires currentLine == [] || Width(currentLine) + 1 + Width(text[wordStart..wordEnd]) <= width
    ensures var w := text[wordStart..wordEnd];
            var l := if currentLine == [] then w else currentLine + [' '] + w;
            Placed(text, width, wordEnd, result, l, Width(l)) &&
            Width(l) == (if currentLine == [] then 0 else Width(currentLine) + 1) + Width(w)
  {
    var w := text[wordStart..wordEnd];
    WordsOfPrefix(text, wordStart, wordEnd);
    ExtendLine(currentLine, w);
    if currentLine == [] {
      assert Words(w) == [] + [w];
    }
  }

  /** A word that does not fit closes the current line and starts the next one. */
  lemma PlaceOnNewLine(text: Bytes, width: int, wordStart: nat, wordEnd: nat, result: seq<Bytes>, currentLine: Bytes)
    requires wordStart < wordEnd <= |text| && NoSpace(text[wordStart..wordEnd])
    requires wordStart == 0 || IsSpace(text[wordStart - 1])
    requires Placed(text, width, wordStart, result, currentLine, Width(currentLine))
    ensures var w := text[wordStart..wordEnd];
            Placed(text, width, wordEnd, result + [currentLine], w, Width(w))
  {
    var w := text[wordStart..wordEnd];
    assert Words(text[..wordEnd]) == Words(text[..wordStart]) + [w] by {
      WordsOfPrefix(text, wordStart, wordEnd);
    }
    assert LineOk(w, width) && Words(w) == [w] by {
      WordsOfWord(w);
    }
    var r := result + [currentLine];
    assert WordsOfLines(r) == WordsOfLines(result) + Words(currentLine) by {
      WordsOfLinesSnoc(result, currentLine);
    }
    AllLinesOkSnoc(result, currentLine, width);
  }

  lemma AllLinesOkSnoc(lines: seq<Bytes>, line: Bytes, width: int)
    requires forall j :: 0 <= j < |lines| ==> LineOk(lines[j], width)
    requires LineOk(line, width)
    ensures forall j :: 0 <= j < |lines + [line]| ==> LineOk((lines + [line])[j], width)
  {
  }

  /** The flushWord lambda: place text[wordStart..wordEnd] on the current line or a new one. */
  method FlushWord(text: Bytes, width: int, wordStart: nat, wordEnd: nat,
                   result: seq<Bytes>, currentLine: Bytes, currentWidth: int)
    returns (result': seq<Bytes>, currentLine': Bytes, currentWidth': int)
    requires width > 0 && wordStart <= wordEnd <= |text| && NoSpace(text[wordStart..wordEnd])
    requires wordStart == 0 || IsSpace(text[wordStart - 1])
    requires Placed(text, width, wordStart, result, currentLine, currentWidth)
    ensures Placed(text, width, wordEnd, result', currentLine', currentWidth')
    ensures wordStart >= wordEnd ==> result' == result && currentLine' == currentLine
  {
    if wordStart >= wordEnd {
      assert text[..wordEnd] == text[..wordStart];
      return result, currentLine, currentWidth;
    }
    var word := text[wordStart..wordEnd];
    var wordWidth := DisplayWidth(word);
    if currentLine == [] || currentWidth + 1 + wordWidth <= width {
      PlaceOnLine(text, width, wordStart, wordEnd, result, currentLine);
      if currentLine == [] {
        result', currentLine', currentWidth' := result, word, wordWidth;
      } else {
        result', currentLine', currentWidth' := result, currentLine + [' '] + word, currentWidth + 1 + wordWidth;
      }
    } else {
      PlaceOnNewLine(text, width, wordStart, wordEnd, result, currentLine);
      result', currentLine', currentWidth' := result + [currentLine], word, wordWidth;
    }
  }

  /** Nothing placed yet: no lines and an empty current line. */
  lemma PlacedStart(text: Bytes, width: int)
    requires width > 0
    ensures Placed(text, width, 0, [], [], 0)
  {
    assert text[..0] == [];
    assert Words([]) == [] && JoinSpace([]) == [];
  }

  /** A white-space byte adds no word: Placed carries over past it. */
  lemma SkipSpace(text: Bytes, width: int, i: nat, result: seq<Bytes>, currentLine: Bytes, currentWidth: int)
    requires i < |text| && IsSpace(text[i])
    requires Placed(text, width, i, result, currentLine, currentWidth)
    ensures Placed(text, width, i + 1, result, currentLine, currentWidth)
  {
    assert text[..i + 1] == text[..i] + [text[i]];
    WordsAppendSpace(text[..i], text[i]);
  }

  /** At a '\n' the current line is closed and an empty one begins. */
  lemma CloseLine(text: Bytes, width: int, i: nat, result: seq<Bytes>, currentLine: Bytes, currentWidth: int)
    requires width > 0 && i < |text| && IsSpace(text[i])
    requires Placed(text, width, i, result, currentLine, currentWidth)
    ensures Placed(text, width, i + 1, result + [currentLine], [], 0)
  {
    SkipSpace(text, width, i, result, currentLine, currentWidth);
    assert WordsOfLines(result + [currentLine]) == WordsOfLines(result) + Words(currentLine) by {
      WordsOfLinesSnoc(result, currentLine);
    }
    assert Words([]) == [] && JoinSpace([]) == [];
    AllLinesOkSnoc(result, currentLine, width);
  }

  /** After the last word, the lines hold exactly the words of the text. */
  lemma Finish(text: Bytes, width: int, result: seq<Bytes>, currentLine: Bytes, currentWidth: int)
    requires Placed(text, width, |text|, result, currentLine, currentWidth)
    ensures var lines := if currentLine != [] || result == [] then result + [currentLine] else result;
            WordsOfLines(lines) == Words(text) && forall j :: 0 <= j < |lines| ==> LineOk(lines[j], width)
  {
    assert text[..|text|] == text;
    if currentLine != [] || result == [] {
      WordsOfLinesSnoc(result, currentLine);
      AllLinesOkSnoc(result, currentLine, width);
    } else {
      assert Words(currentLine) == [];
      assert WordsOfLines(result) + [] == WordsOfLines(result);
    }
  }

  /** One pass of wordWrap's loop: a '\n' ends the line, other white space ends the word, anything else extends it. */
  method ScanByte(text: Bytes, width: int, wordStart: nat, i: nat,
                  result: seq<Bytes>, currentLine: Bytes, currentWidth: int)
    returns (wordStart': nat, result': seq<Bytes>, currentLine': Bytes, currentWidth': int)
    requires width > 0 && wordStart <= i < |text| && NoSpace(text[wordStart..i])
    requires wordStart == 0 || IsSpace(text[wordStart - 1])
    requires Placed(text, width, wordStart, result, currentLine, currentWidth)
    ensures wordStart' <= i + 1 && NoSpace(text[wordStart'..i + 1])
    ensures wordStart' == 0 || IsSpace(text[wordStart' - 1])
    ensures Placed(text, width, wordStart', result', currentLine', currentWidth')
  {
    var ch := text[i];
    if IsSpace(ch) {
      result', currentLine', currentWidth' := EndWord(text, width, wordStart, i, result, currentLine, currentWidth);
      wordStart' := i + 1;
    } else {
      assert text[wordStart..i + 1] == text[wordStart..i] + [ch];
      wordStart', result', currentLine', currentWidth' := wordStart, result, currentLine, currentWidth;
    }
  }

  /** White space at i flushes the word before it; a '\n' also closes the line. */
  method EndWord(text: Bytes, width: int, wordStart: nat, i: nat,
                 result: seq<Bytes>, currentLine: Bytes, currentWidth: int)
    returns (result': seq<Bytes>, currentLine': Bytes, currentWidth': int)
    requires width > 0 && wordStart <= i < |text| && NoSpace(text[wordStart..i]) && IsSpace(text[i])
    requires wordStart == 0 || IsSpace(text[wordStart - 1])
    requires Placed(text, width, wordStart, result, currentLine, currentWidth)
    ensures Placed(text, width, i + 1, result', currentLine', currentWidth')
  {
    result', currentLine', currentWidth' := FlushWord(text, width, wordStart, i, result, currentLine, currentWidth);
    if text[i] == '\n' {
      CloseLine(text, width, i, result', currentLine', currentWidth');
      result', currentLine', currentWidth' := result' + [currentLine'], [], 0;
    } else {
      SkipSpace(text, width, i, result', currentLine', currentWidth');
    }
  }

  /**
   * wordWrap(text, width): [""] for empty text or width <= 0; otherwise
   * lines made of the text's words, in their order, each line its words
   * joined by single spaces and no wider than width unless it is one word.
   */
  method WordWrap(text: Bytes, width: int) returns (lines: seq<Bytes>)
    ensures text == [] || width <= 0 ==> lines == [[]]
    ensures |lines| >= 1
    ensures text != [] && width > 0 ==> WordsOfLines(lines) == Words(text)
    ensures text != [] && width > 0 ==> forall j :: 0 <= j < |lines| ==> LineOk(lines[j], width)
  {
    if text == [] || width <= 0 {
      return [[]];
    }
    var result: seq<Bytes> := [];
    var currentLine: Bytes := [];
    var currentWidth := 0;
    var wordStart: nat := 0;
    var i := 0;
    PlacedStart(text, width);
    while i < |text|
      invariant wordStart <= i <= |text| && NoSpace(text[wordStart..i])
      invariant wordStart == 0 || IsSpace(text[wordStart - 1])
      invariant Placed(text, width, wordStart, result, currentLine, currentWidth)
    {
      wordStart, result, currentLine, currentWidth := ScanByte(text, width, wordStart, i, result, currentLine, currentWidth);
      i := i + 1;
    }
    result, currentLine, currentWidth := FlushWord(text, width, wordStart, |text|, result, currentLine, currentWidth);
    Finish(text, width, result, currentLine, currentWidth);
    if currentLine != [] || result == [] {
      result := result + [currentLine];
    }
    lines := result;
  }
}
