/** What displayWidth and truncate of src/tui/Text.cpp promise. */
module TextWidthProps {
  import opened Utf8
  import opened TextWidth

  lemma {:induction false} WidthAppend(a: Bytes, b: Bytes)
    ensures Width(a + b) == Width(a) + Width(b)
    decreases |b|
  {
    if b == [] {
      assert a + b == a;
    } else {
      var front := b[..|b| - 1];
      assert (a + b)[..|a + b| - 1] == a + front;
      assert b[..|b| - 1] == front;
      WidthAppend(a, front);
    }
  }

  /** A lead byte followed only by continuation bytes is one column. */
  lemma {:induction false} WidthOfOneCodepoint(s: Bytes)
    requires s != [] && !IsContinuation(s[0])
    requires forall i :: 1 <= i < |s| ==> IsContinuation(s[i])
    ensures Width(s) == 1
    decreases |s|
  {
    if |s| > 1 {
      WidthOfOneCodepoint(s[..|s| - 1]);
    } else {
      assert s[..0] == [];
    }
  }

  /** Every encoded codepoint is one column. */
  lemma WidthOfEncoding(cp: U32)
    requires cp < 0x110000
    ensures Width(EncodeUtf8(cp)) == 1
  {
    WidthOfOneCodepoint(EncodeUtf8(cp));
  }

  function EncodeAll(cps: seq<U32>): Bytes
  {
    if cps == [] then [] else EncodeAll(cps[..|cps| - 1]) + EncodeUtf8(cps[|cps| - 1])
  }

  /** The display width of encoded text is its number of codepoints. */
  lemma {:induction false} WidthCountsCodepoints(cps: seq<U32>)
    requires forall i :: 0 <= i < |cps| ==> cps[i] < 0x110000
    ensures Width(EncodeAll(cps)) == |cps|
  {
    if cps != [] {
      var front := cps[..|cps| - 1];
      WidthCountsCodepoints(front);
      WidthAppend(EncodeAll(front), EncodeUtf8(cps[|cps| - 1]));
      WidthOfEncoding(cps[|cps| - 1]);
    }
  }

  /** On ASCII text the width is the length. */
  lemma {:induction false} WidthOfAscii(s: Bytes)
    requires forall i :: 0 <= i < |s| ==> s[i] < '\U{80}'
    ensures Width(s) == |s|
  {
    if s != [] {
      WidthOfAscii(s[..|s| - 1]);
    }
  }

  lemma EllipsisIsOneCodepoint()
    ensures Ellipsis == EncodeUtf8(0x2026) && Width(Ellipsis) == 1
  {
    WidthOfEncoding(0x2026);
  }

  /**
   * truncate: nothing for width <= 0, the text itself when it fits, dots for
   * width <= 3, and otherwise the longest prefix of width - 1 whole
   * codepoints followed by an ellipsis; the result is never wider than width
   * and is exactly width wide whenever the text had to be cut.
   */
  lemma TruncateContract(text: Bytes, width: int)
    ensures var r := Truncated(text, width);
            && (width <= 0 ==> r == [])
            && (0 < width && Width(text) <= width ==> r == text)
            && (0 < width <= 3 && Width(text) > width ==> r == Dots(width))
            && Width(r) <= (if width < 0 then 0 else width)
            && (Width(text) > width > 0 ==> Width(r) == width)
            && (Width(text) > width >= 4 ==>
                  var k := BoundaryCut(text, width - 1, 0);
                  r == text[..k] + Ellipsis && k < |text| && !IsContinuation(text[k]) &&
                  Width(text[..k]) == width - 1)
  {
    if Width(text) > width >= 4 {
      BoundaryCutEndsOnBoundary(text, width - 1, 0);
      var k := BoundaryCut(text, width - 1, 0);
      WidthAppend(text[..k], Ellipsis);
      EllipsisIsOneCodepoint();
    } else if Width(text) > width > 0 {
      WidthOfAscii(Dots(width));
    }
  }

  /** The cut of the source ends on a lead byte: width - 1 columns, then the ellipsis. */
  lemma TruncateAsWrittenWidth(text: Bytes, width: int)
    requires Width(text) > width >= 4
    ensures var k := LeadCut(text, width - 1, 0);
            TruncatedAsWritten(text, width) == text[..k] + Ellipsis &&
            Width(text[..k]) == width - 1 && !IsContinuation(text[k - 1]) &&
            Width(TruncatedAsWritten(text, width)) == width
  {
    LeadCutEndsOnLeadByte(text, width - 1, 0);
    WidthAppend(text[..LeadCut(text, width - 1, 0)], Ellipsis);
    EllipsisIsOneCodepoint();
  }

  lemma {:induction false} CutsAgreeWithoutContinuations(text: Bytes, target: int, i: nat)
    requires i <= |text| && forall j :: 0 <= j < |text| ==> !IsContinuation(text[j])
    ensures LeadCut(text, target, i) == BoundaryCut(text, target, i)
    decreases |text| - i
  {
    if i < |text| && Width(text[..i]) < target {
      CutsAgreeWithoutContinuations(text, target, i + 1);
    }
  }

  /** Without multi-byte codepoints the source and the corrected truncate agree. */
  lemma TruncateAgreesOnAscii(text: Bytes, width: int)
    requires forall j :: 0 <= j < |text| ==> !IsContinuation(text[j])
    ensures TruncatedAsWritten(text, width) == Truncated(text, width)
  {
    CutsAgreeWithoutContinuations(text, width - 1, 0);
  }

  /** Five two-byte codepoints (U+00E9 each). */
  const Accented: Bytes := seq(10, j => if j % 2 == 0 then '\U{C3}' else '\U{A9}')

  /**
   * truncate("ééééé", 4) as written keeps the lead byte 0xC3 of the third
   * "é" and drops its continuation byte, so the lead byte is followed by the
   * ellipsis's own lead byte: the result is not UTF-8. The corrected cut
   * keeps the third "é" whole.
   */
  lemma TruncateSplitsCodepoint()
    ensures TruncatedAsWritten(Accented, 4) == Accented[..5] + Ellipsis
    ensures IsContinuation(Accented[5]) && !IsContinuation(Ellipsis[0])
    ensures Truncated(Accented, 4) == Accented[..6] + Ellipsis && !IsContinuation(Accented[6])
  {
    AccentedPrefixWidth(10);
    assert Accented[..10] == Accented;
    TruncateAsWrittenWidth(Accented, 4);
    TruncateContract(Accented, 4);
    var k := LeadCut(Accented, 3, 0);
    var b := BoundaryCut(Accented, 3, 0);
    AccentedPrefixWidth(k);
    AccentedPrefixWidth(b);
    AccentedBytes(k - 1);
    AccentedBytes(b);
    assert k == 5;
    assert b == 6;
  }

  lemma AccentedBytes(j: nat)
    requires j < 10
    ensures IsContinuation(Accented[j]) <==> j % 2 == 1
  {
  }

  lemma {:induction false} AccentedPrefixWidth(i: nat)
    requires i <= 10
    ensures Width(Accented[..i]) == (i + 1) / 2
  {
    if i == 0 {
      assert Accented[..0] == [];
    } else {
      AccentedPrefixWidth(i - 1);
      WidthSnoc(Accented, i - 1);
      AccentedBytes(i - 1);
    }
  }

  /** The "truncate" scenario: "Hello, world!" in 8 columns is "Hello, " and an ellipsis. */
  lemma TruncateHello()
    ensures Truncated("Hello, world!", 8) == "Hello, " + Ellipsis
    ensures Width(Truncated("Hello, world!", 8)) <= 8
  {
    var text: Bytes := "Hello, world!";
    WidthOfAscii(text);
    TruncateContract(text, 8);
    var k := BoundaryCut(text, 7, 0);
    WidthOfAscii(text[..k]);
    assert k == 7;
  }

  lemma DisplayWidthExamples()
    ensures Width("hello") == 5 && Width("") == 0 && Width("test") == 4
  {
    WidthOfAscii("hello");
    WidthOfAscii("test");
  }
}
