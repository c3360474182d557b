/**
 * Bytes of a std::string and the UTF-8 helpers the input engine relies on
 * (RFC 3629 section 3): the encoder used when a key is typed into a line
 * editor, and the codepoint-boundary scans that move a cursor.
 */
module Utf8 {

  /** One byte of a std::string, kept as a char so that literals stay readable. */
  type Byte = c: char | c <= '\U{FF}'

  type Bytes = seq<Byte>

  /** An unsigned 32-bit value (char32_t, std::uint32_t). */
  type U32 = n: int | 0 <= n < 0x1_0000_0000

  function ByteOf(n: int): Byte
    requires 0 <= n < 0x100
  {
    n as char
  }

  /** (b & 0xC0) == 0x80: a UTF-8 continuation byte 10xxxxxx. */
  predicate IsContinuation(b: Byte)
  {
    0x80 <= b as int < 0xC0
  }

  /**
   * The UTF-8 encoder of InputField.cpp. Each "lead | field" of the source
   * combines disjoint bit ranges, so it is written as an addition here.
   * Codepoints from 0x110000 on encode to nothing.
   */
  function EncodeUtf8(cp: U32): (r: Bytes)
    ensures |r| <= 4
    ensures r == [] <==> cp >= 0x110000
    ensures |r| == 1 ==> r[0] as int == cp
    ensures |r| >= 2 ==> forall i :: 1 <= i < |r| ==> IsContinuation(r[i])
    ensures |r| == 2 ==> r[0] as int / 32 == 6
    ensures |r| == 3 ==> r[0] as int / 16 == 14
    ensures |r| == 4 ==> r[0] as int / 8 == 30
  {
    if cp < 0x80 then
      [ByteOf(cp)]
    else if cp < 0x800 then
      [ByteOf(0xC0 + cp / 64), ByteOf(0x80 + cp % 64)]
    else if cp < 0x10000 then
      [ByteOf(0xE0 + cp / 4096), ByteOf(0x80 + cp / 64 % 64), ByteOf(0x80 + cp % 64)]
    else if cp < 0x110000 then
      [ByteOf(0xF0 + cp / 262144), ByteOf(0x80 + cp / 4096 % 64),
       ByteOf(0x80 + cp / 64 % 64), ByteOf(0x80 + cp % 64)]
    else
      []
  }

  /** The first position after pos + 1 that does not hold a continuation byte. */
  function SkipContinuations(s: Bytes, i: nat): (r: nat)
    requires i <= |s|
    ensures i <= r <= |s|
    ensures forall j :: i <= j < r ==> IsContinuation(s[j])
    ensures r == |s| || !IsContinuation(s[r])
    decreases |s| - i
  {
    if i < |s| && IsContinuation(s[i]) then SkipContinuations(s, i + 1) else i
  }

  /** The codepoint boundary after pos: nextUtf8 of InputField.cpp. */
  function NextBoundary(s: Bytes, pos: nat): (r: nat)
    ensures pos >= |s| ==> r == pos
    ensures pos < |s| ==> pos < r <= |s|
    ensures pos < |s| ==> forall j :: pos < j < r ==> IsContinuation(s[j])
    ensures pos < |s| ==> r == |s| || !IsContinuation(s[r])
  {
    if pos >= |s| then pos else SkipContinuations(s, pos + 1)
  }

  /** The last position before pos that is 0 or holds no continuation byte. */
  function BackOverContinuations(s: Bytes, i: nat): (r: nat)
    requires i < |s|
    ensures r <= i
    ensures forall j :: r < j <= i ==> IsContinuation(s[j])
    ensures r == 0 || !IsContinuation(s[r])
  {
    if i > 0 && IsContinuation(s[i]) then BackOverContinuations(s, i - 1) else i
  }

  /** The codepoint boundary before pos: prevUtf8 of InputField.cpp. */
  function PrevBoundary(s: Bytes, pos: nat): (r: nat)
    requires pos <= |s|
    ensures pos == 0 ==> r == 0
    ensures pos > 0 ==> r < pos
    ensures pos > 0 ==> forall j :: r < j < pos ==> IsContinuation(s[j])
    ensures pos > 0 ==> r == 0 || !IsContinuation(s[r])
  {
    if pos == 0 then 0 else BackOverContinuations(s, pos - 1)
  }

  /** nextUtf8 as the source writes it: one step, then a loop over continuation bytes. */
  method NextUtf8(s: Bytes, pos: nat) returns (r: nat)
    ensures r == NextBoundary(s, pos)
  {
    if pos >= |s| {
      return pos;
    }
    r := pos + 1;
    while r < |s| && IsContinuation(s[r])
      invariant pos < r <= |s|
      invariant SkipContinuations(s, r) == NextBoundary(s, pos)
      decreases |s| - r
    {
      r := r + 1;
    }
  }

  /** prevUtf8 as the source writes it: one step back, then a loop over continuation bytes. */
  method PrevUtf8(s: Bytes, pos: nat) returns (r: nat)
    requires pos <= |s|
    ensures r == PrevBoundary(s, pos)
  {
    if pos == 0 {
      return 0;
    }
    r := pos - 1;
    while r > 0 && IsContinuation(s[r])
      invariant r < pos
      invariant BackOverContinuations(s, r) == PrevBoundary(s, pos)
    {
      r := r - 1;
    }
  }
}
