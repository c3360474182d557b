/**
 * displayWidth and truncate of src/tui/Text.cpp. The display width of a
 * string is its number of bytes that are not UTF-8 continuation bytes, so
 * every encoded codepoint counts as one column.
 *
 * truncate keeps bytes while fewer than width - 1 columns are kept, which
 * stops right after the lead byte of the last kept codepoint and drops that
 * codepoint's continuation bytes. TruncateAsWritten models that loop;
 * Truncate is the same function with the cut moved to the next codepoint
 * boundary, and is what the rest of the model uses.
 */
module TextWidth {
  import opened Utf8

  /** The display width of s: its bytes other than continuation bytes. */
  function Width(s: Bytes): (r: nat)
    ensures r <= |s|
  {
    if s == [] then 0 else Width(s[..|s| - 1]) + (if IsContinuation(s[|s| - 1]) then 0 else 1)
  }

  lemma WidthSnoc(s: Bytes, i: nat)
    requires i < |s|
    ensures Width(s[..i + 1]) == Width(s[..i]) + (if IsContinuation(s[i]) then 0 else 1)
  {
    assert s[..i + 1][..i] == s[..i];
  }

  lemma WidthWhole(s: Bytes)
    ensures Width(s[..|s|]) == Width(s)
  {
    assert s[..|s|] == s;
  }

  /** displayWidth: one loop over the bytes. */
  method DisplayWidth(text: Bytes) returns (width: nat)
    ensures width == Width(text)
  {
    width := 0;
    var i := 0;
    while i < |text|
      invariant 0 <= i <= |text| && width == Width(text[..i])
    {
      WidthSnoc(text, i);
      if !IsContinuation(text[i]) {
        width := width + 1;
      }
      i := i + 1;
    }
    WidthWhole(text);
  }

  /** U+2026 HORIZONTAL ELLIPSIS in UTF-8. */
  const Ellipsis: Bytes := ['\U{E2}', '\U{80}', '\U{A6}']

  function Dots(n: nat): (r: Bytes)
    ensures |r| == n && forall i :: 0 <= i < n ==> r[i] == '.'
  {
    seq(n, _ => '.')
  }

  // ---------------------------------------------------------------------------
  // Where the loop of truncate stops

  /** The source's loop: take bytes while fewer than target columns are taken. */
  function LeadCut(text: Bytes, target: int, i: nat): (k: nat)
    requires i <= |text|
    ensures i <= k <= |text|
    decreases |text| - i
  {
    if i == |text| || Width(text[..i]) >= target then i else LeadCut(text, target, i + 1)
  }

  /** The intended loop: also take the continuation bytes of the last codepoint taken. */
  function BoundaryCut(text: Bytes, target: int, i: nat): (k: nat)
    requires i <= |text|
    ensures i <= k <= |text|
    decreases |text| - i
  {
    if i == |text| || (Width(text[..i]) >= target && !IsContinuation(text[i])) then i
    else BoundaryCut(text, target, i + 1)
  }

  /**
   * The source's cut holds exactly target columns and ends on the lead byte
   * of the last one, whatever continuation bytes follow it.
   */
  lemma {:induction false} LeadCutEndsOnLeadByte(text: Bytes, target: int, i: nat)
    requires i <= |text| && Width(text[..i]) < target <= Width(text)
    ensures var k := LeadCut(text, target, i);
            i < k && Width(text[..k]) == target && !IsContinuation(text[k - 1])
    decreases |text| - i
  {
    if i == |text| {
      WidthWhole(text);
    } else {
      WidthSnoc(text, i);
      if Width(text[..i + 1]) < target {
        LeadCutEndsOnLeadByte(text, target, i + 1);
      }
    }
  }

  /** The intended cut holds exactly target columns and ends on a codepoint boundary. */
  lemma {:induction false} BoundaryCutEndsOnBoundary(text: Bytes, target: int, i: nat)
    requires i <= |text| && Width(text[..i]) <= target < Width(text)
    ensures var k := BoundaryCut(text, target, i);
            k < |text| && Width(text[..k]) == target && !IsContinuation(text[k])
    decreases |text| - i
  {
    if i == |text| {
      WidthWhole(text);
    } else {
      WidthSnoc(text, i);
      if !(Width(text[..i]) >= target && !IsContinuation(text[i])) {
        BoundaryCutEndsOnBoundary(text, target, i + 1);
      }
    }
  }

  // ---------------------------------------------------------------------------
  // truncate

  /** truncate as the source writes it. */
  function TruncatedAsWritten(text: Bytes, width: int): Bytes
  {
    if width <= 0 then []
    else if Width(text) <= width then text
    else if width <= 3 then Dots(width)
    else text[..LeadCut(text, width - 1, 0)] + Ellipsis
  }

  /** truncate with the cut at a codepoint boundary. */
  function Truncated(text: Bytes, width: int): Bytes
  {
    if width <= 0 then []
    else if Width(text) <= width then text
    else if width <= 3 then Dots(width)
    else text[..BoundaryCut(text, width - 1, 0)] + Ellipsis
  }

  method TruncateAsWritten(text: Bytes, width: int) returns (r: Bytes)
    ensures r == TruncatedAsWritten(text, width)
  {
    if width <= 0 {
      return [];
    }
    var textWidth := DisplayWidth(text);
    if textWidth <= width {
      return text;
    }
    if width <= 3 {
      return Dots(width);
    }
    var targetWidth := width - 1;
    r := [];
    var currentWidth := 0;
    var i := 0;
    while i < |text| && currentWidth < targetWidth
      invariant 0 <= i <= |text| && r == text[..i] && currentWidth == Width(text[..i])
      invariant LeadCut(text, targetWidth, i) == LeadCut(text, targetWidth, 0)
    {
      WidthSnoc(text, i);
      r := r + [text[i]];
      if !IsContinuation(text[i]) {
        currentWidth := currentWidth + 1;
      }
      i := i + 1;
    }
    r := r + Ellipsis;
  }

  method Truncate(text: Bytes, width: int) returns (r: Bytes)
    ensures r == Truncated(text, width)
  {
    if width <= 0 {
      return [];
    }
    var textWidth := DisplayWidth(text);
    if textWidth <= width {
      return text;
    }
    if width <= 3 {
      return Dots(width);
    }
    var targetWidth := width - 1;
    r := [];
    var currentWidth := 0;
    var i := 0;
    while i < |text| && (currentWidth < targetWidth || IsContinuation(text[i]))
      invariant 0 <= i <= |text| && r == text[..i] && currentWidth == Width(text[..i])
      invariant BoundaryCut(text, targetWidth, i) == BoundaryCut(text, targetWidth, 0)
    {
      WidthSnoc(text, i);
      r := r + [text[i]];
      if !IsContinuation(text[i]) {
        currentWidth := currentWidth + 1;
      }
      i := i + 1;
    }
    r := r + Ellipsis;
  }
}
