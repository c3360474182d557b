/** What the lines of wordWrap in src/tui/Text.cpp are made of. */
module WordWrapProps {
  import opened Utf8
  import opened TextWidth
  import opened WordWraps
  import TextWidthProps

  /** The run that WordStart finds holds no white space. */
  lemma {:induction false} WordStartRun(s: Bytes, j: nat)
    requires j < |s| && !IsSpace(s[j])
    ensures NoSpace(s[WordStart(s, j)..j + 1])
    decreases j
  {
    var k := WordStart(s, j);
    if k < j {
      WordStartRun(s, j - 1);
      assert s[k..j + 1] == s[k..j] + [s[j]];
    }
  }

  /** Every word is non-empty and free of white space. */
  lemma {:induction false} WordsAreWords(s: Bytes)
    ensures forall k :: 0 <= k < |Words(s)| ==> Words(s)[k] != [] && NoSpace(Words(s)[k])
    decreases |s|
  {
    if s == [] {
    } else if IsSpace(s[|s| - 1]) {
      WordsAreWords(s[..|s| - 1]);
    } else {
      var k := WordStart(s, |s| - 1);
      WordsAreWords(s[..k]);
      WordStartRun(s, |s| - 1);
      assert s[k..|s| - 1 + 1] == s[k..];
    }
  }

  /** Words joined by single spaces hold no white space other than those spaces. */
  lemma {:induction false} JoinSpaceOnlySpaces(ws: seq<Bytes>)
    requires forall k :: 0 <= k < |ws| ==> NoSpace(ws[k])
    ensures forall m :: 0 <= m < |JoinSpace(ws)| ==> JoinSpace(ws)[m] == ' ' || !IsSpace(JoinSpace(ws)[m])
    decreases |ws|
  {
    if |ws| > 1 {
      var front := ws[..|ws| - 1];
      JoinSpaceOnlySpaces(front);
      var a := JoinSpace(front);
      var w := ws[|ws| - 1];
      var j := a + [' '] + w;
      assert forall m :: |a| + 1 <= m < |j| ==> j[m] == w[m - |a| - 1];
      assert forall m :: 0 <= m < |a| ==> j[m] == a[m];
    }
  }

  /**
   * A line wordWrap may produce holds no '\n' and no white space other than
   * the single spaces between its words.
   */
  lemma LineHasOnlySpaces(line: Bytes, width: int)
    requires LineOk(line, width)
    ensures forall m :: 0 <= m < |line| ==> line[m] == ' ' || !IsSpace(line[m])
    ensures '\n' !in line
  {
    WordsAreWords(line);
    JoinSpaceOnlySpaces(Words(line));
  }

  /** Two or more words wider together than width never fit on one line. */
  lemma WideTextTakesSeveralLines(text: Bytes, width: int, lines: seq<Bytes>)
    requires WordsOfLines(lines) == Words(text)
    requires forall j :: 0 <= j < |lines| ==> LineOk(lines[j], width)
    requires |Words(text)| >= 2 && Width(JoinSpace(Words(text))) > width
    ensures |lines| >= 2
  {
    if |lines| == 1 {
      assert lines[..0] == [];
      assert WordsOfLines(lines) == Words(lines[0]);
    } else {
      assert lines == [] ==> WordsOfLines(lines) == [];
    }
  }

  /**
   * When every word fits in width columns, so does every line: only a
   * single word ever exceeds width.
   */
  lemma LinesFitWhenWordsFit(text: Bytes, width: int, lines: seq<Bytes>)
    requires WordsOfLines(lines) == Words(text)
    requires forall j :: 0 <= j < |lines| ==> LineOk(lines[j], width)
    requires forall w :: w in Words(text) ==> Width(w) <= width
    ensures forall j :: 0 <= j < |lines| ==> Width(lines[j]) <= width
  {
    forall j | 0 <= j < |lines|
      ensures Width(lines[j]) <= width
    {
      WordOfLinesIsWord(lines, j);
      if |Words(lines[j])| == 1 {
        assert lines[j] == Words(lines[j])[0];
        assert Words(lines[j])[0] in Words(text);
      }
    }
  }

  /** The words of one line are among the words of all the lines. */
  lemma {:induction false} WordOfLinesIsWord(lines: seq<Bytes>, j: nat)
    requires j < |lines|
    ensures forall w :: w in Words(lines[j]) ==> w in WordsOfLines(lines)
    decreases |lines|
  {
    var front := lines[..|lines| - 1];
    if j < |lines| - 1 {
      WordOfLinesIsWord(front, j);
      assert front[j] == lines[j];
    }
  }
}
