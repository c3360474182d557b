/**
 * Text styles and their SGR ("select graphic rendition", ECMA-48 section
 * 8.3.117) encoding as TerminalOutput::appendSgr writes it, with a decoder
 * that reads the parameter list back the way a terminal does.
 */
module Styles {
  import opened Utf8
  import opened Decimal
  import opened CharConv
  import opened VtParser
  import VtParserProps
  import opened Options

  type U8 = n: int | 0 <= n < 256

  datatype Color = Default | Indexed(index: U8) | Rgb(r: U8, g: U8, b: U8)

  datatype Style = Style(
    fg: Color, bg: Color,
    bold: bool, italic: bool, underline: bool, strikethrough: bool, dim: bool, inverse: bool)

  /** A value-initialised Style: no colour, no attribute. */
  const Plain := Style(Default, Default, false, false, false, false, false, false)

  predicate IsDefault(s: Style)
  {
    s.fg.Default? && s.bg.Default? && !s.bold && !s.italic && !s.underline
    && !s.strikethrough && !s.dim && !s.inverse
  }

  /** One attribute's parameter: present only when the attribute is set. */
  function Flag(on: bool, code: I32): seq<I32>
  {
    if on then [code] else []
  }

  /** 38;5;n / 38;2;r;g;b for a foreground (base 38), 48;… for a background. */
  function ColorCodes(base: I32, c: Color): seq<I32>
  {
    match c
    case Default => []
    case Indexed(n) => [base, 5, n]
    case Rgb(r, g, b) => [base, 2, r, g, b]
  }

  /** The attribute parameters, in the order the source appends them. */
  function Attributes(s: Style): seq<I32>
  {
    Flag(s.bold, 1) + (Flag(s.dim, 2) + (Flag(s.italic, 3) + (Flag(s.underline, 4)
    + (Flag(s.inverse, 7) + Flag(s.strikethrough, 9)))))
  }

  /** All parameters: the attributes, then the foreground, then the background colour. */
  function Codes(s: Style): seq<I32>
  {
    Attributes(s) + (ColorCodes(38, s.fg) + ColorCodes(48, s.bg))
  }

  /** A parameter list written out: decimal texts separated by ';'. */
  function Params(codes: seq<I32>): Bytes
  {
    Fields(ParamText, codes)
  }

  /** std::format("{}", n) of one parameter. */
  function ParamText(n: I32): Bytes
  {
    IntText(n)
  }

  /** Each value rendered by `text`, with ';' between neighbours. */
  function Fields(text: I32 -> Bytes, codes: seq<I32>): Bytes
    decreases |codes|
  {
    if codes == [] then []
    else if |codes| == 1 then text(codes[0])
    else text(codes[0]) + [';'] + Fields(text, codes[1..])
  }

  /** The escape sequence appendSgr writes: nothing at all for the default style. */
  function SgrText(s: Style): Bytes
  {
    if IsDefault(s) then [] else "\U{1B}[" + Params(Codes(s)) + "m"
  }

  const SgrReset: Bytes := "\U{1B}[m"

  // ---------------------------------------------------------------------
  // Reading a parameter list back, as a terminal applies SGR

  /** Applies SGR parameters left to right; unknown or incomplete ones are skipped. */
  function Apply(s: Style, codes: seq<I32>): Style
    decreases |codes|
  {
    if codes == [] then s
    else if codes[0] == 1 then Apply(s.(bold := true), codes[1..])
    else if codes[0] == 2 then Apply(s.(dim := true), codes[1..])
    else if codes[0] == 3 then Apply(s.(italic := true), codes[1..])
    else if codes[0] == 4 then Apply(s.(underline := true), codes[1..])
    else if codes[0] == 7 then Apply(s.(inverse := true), codes[1..])
    else if codes[0] == 9 then Apply(s.(strikethrough := true), codes[1..])
    else if codes[0] == 38 || codes[0] == 48 then
      match ExtendedColor(codes[1..])
      case (Some(c), used) =>
        var s' := if codes[0] == 38 then s.(fg := c) else s.(bg := c);
        Apply(s', codes[1 + used..])
      case (None, _) => Apply(s, codes[1..])
    else Apply(s, codes[1..])
  }

  /** The arguments after 38 or 48: 5;n or 2;r;g;b, and how many were consumed. */
  function ExtendedColor(args: seq<I32>): (r: (Option<Color>, nat))
    ensures r.1 <= |args|
  {
    if |args| >= 2 && args[0] == 5 && 0 <= args[1] < 256 then (Some(Indexed(args[1])), 2)
    else if |args| >= 4 && args[0] == 2 && 0 <= args[1] < 256 && 0 <= args[2] < 256 && 0 <= args[3] < 256
    then (Some(Rgb(args[1], args[2], args[3])), 4)
    else (None, 0)
  }

  // ---------------------------------------------------------------------
  // Properties

  /** appendSgr's early return happens exactly when there is no parameter to write. */
  lemma DefaultIffNoCodes(s: Style)
    ensures IsDefault(s) <==> Codes(s) == []
  {
  }

  /** Moving one group from what remains to what is done leaves their concatenation alone. */
  lemma Regroup(done: seq<I32>, group: seq<I32>, rest: seq<I32>)
    ensures done + group + rest == done + (group + rest)
  {
  }

  /** Ending a parameter list with one more group adds a ';' and the group's text. */
  lemma {:induction false} FieldsAppend(text: I32 -> Bytes, codes: seq<I32>, group: seq<I32>)
    requires |group| >= 1
    ensures Fields(text, codes + group)
         == Fields(text, codes) + (if codes == [] then [] else [';']) + Fields(text, group)
    decreases |codes|
  {
    if codes == [] {
      assert codes + group == group;
    } else if |codes| == 1 {
      assert (codes + group)[1..] == group;
    } else {
      assert (codes + group)[1..] == codes[1..] + group;
      FieldsAppend(text, codes[1..], group);
    }
  }

  /** One and two parameters, written out. */
  lemma ParamsShort(a: I32, b: I32)
    ensures Params([a]) == IntText(a)
    ensures Params([a, b]) == IntText(a) + [';'] + IntText(b)
  {
    FieldsShort(ParamText, a, b);
  }

  lemma FieldsShort(text: I32 -> Bytes, a: I32, b: I32)
    ensures Fields(text, [a]) == text(a)
    ensures Fields(text, [a, b]) == text(a) + [';'] + text(b)
  {
    assert [a, b][1..] == [b];
  }

  lemma ParamsAppend(codes: seq<I32>, group: seq<I32>)
    requires |group| >= 1
    ensures Params(codes + group) == Params(codes) + (if codes == [] then [] else [';']) + Params(group)
  {
    FieldsAppend(ParamText, codes, group);
  }

  /** The same text as joining the parameters' decimal texts with ';'. */
  lemma {:induction false} ParamsIsJoin(codes: seq<I32>)
    requires |codes| >= 1
    ensures Params(codes) == Join(DecimalTexts(codes))
    decreases |codes|
  {
    if |codes| > 1 {
      assert DecimalTexts(codes)[1..] == DecimalTexts(codes[1..]);
      ParamsIsJoin(codes[1..]);
    }
  }

  /** What a parameter list reads back as, by the input side's CSI parameter parser. */
  lemma ParamsParseBack(codes: seq<I32>)
    ensures CsiParams(Params(codes)) == codes
  {
    if codes != [] {
      ParamsIsJoin(codes);
      VtParserProps.CsiParamsOfJoinedValues(codes);
    }
  }

  /** The parameters, written out and parsed back by the input side's CSI parameter parser. */
  lemma SgrParamsParseBack(s: Style)
    requires !IsDefault(s)
    ensures SgrText(s) == "\U{1B}[" + Params(Codes(s)) + "m"
    ensures CsiParams(Params(Codes(s))) == Codes(s)
  {
    DefaultIffNoCodes(s);
    ParamsParseBack(Codes(s));
  }

  lemma ApplyFlag(s: Style, on: bool, code: I32, rest: seq<I32>, s': Style)
    requires code in {1, 2, 3, 4, 7, 9}
    requires s' == (if !on then s
                    else if code == 1 then s.(bold := true)
                    else if code == 2 then s.(dim := true)
                    else if code == 3 then s.(italic := true)
                    else if code == 4 then s.(underline := true)
                    else if code == 7 then s.(inverse := true)
                    else s.(strikethrough := true))
    ensures Apply(s, Flag(on, code) + rest) == Apply(s', rest)
  {
    if on {
      assert (Flag(on, code) + rest)[1..] == rest;
    } else {
      assert Flag(on, code) + rest == rest;
    }
  }

  lemma ApplyColor(s: Style, fore: bool, c: Color, rest: seq<I32>)
    ensures Apply(s, ColorCodes(if fore then 38 else 48, c) + rest)
         == Apply(if c.Default? then s else if fore then s.(fg := c) else s.(bg := c), rest)
  {
    var codes := ColorCodes(if fore then 38 else 48, c) + rest;
    match c
    case Default =>
      assert codes == rest;
    case Indexed(n) =>
      assert codes[1..][..2] == [5, n];
      assert ExtendedColor(codes[1..]) == (Some(c), 2);
      assert codes[3..] == rest;
    case Rgb(r, g, b) =>
      assert codes[1..][..4] == [2, r, g, b];
      assert ExtendedColor(codes[1..]) == (Some(c), 4);
      assert codes[5..] == rest;
  }

  /** The attribute flags followed by rest, with every concatenation nested to the right. */
  function FlagsThen(s: Style, rest: seq<I32>): seq<I32>
  {
    Flag(s.bold, 1) + (Flag(s.dim, 2) + (Flag(s.italic, 3) + (Flag(s.underline, 4)
    + (Flag(s.inverse, 7) + (Flag(s.strikethrough, 9) + rest)))))
  }

  lemma CodesAreFlagsThenColors(s: Style)
    ensures Codes(s) == FlagsThen(s, ColorCodes(38, s.fg) + ColorCodes(48, s.bg))
  {
    var c6 := ColorCodes(38, s.fg) + ColorCodes(48, s.bg);
    var a5 := Flag(s.strikethrough, 9);
    var a4 := Flag(s.inverse, 7) + a5;
    var a3 := Flag(s.underline, 4) + a4;
    var a2 := Flag(s.italic, 3) + a3;
    var a1 := Flag(s.dim, 2) + a2;
    Regroup(Flag(s.inverse, 7), a5, c6);
    Regroup(Flag(s.underline, 4), a4, c6);
    Regroup(Flag(s.italic, 3), a3, c6);
    Regroup(Flag(s.dim, 2), a2, c6);
    Regroup(Flag(s.bold, 1), a1, c6);
  }

  /** Applying the flags to the default rendition sets exactly the style's attributes. */
  lemma DecodeFlags(s: Style, rest: seq<I32>)
    ensures Apply(Plain, FlagsThen(s, rest))
         == Apply(Plain.(bold := s.bold, dim := s.dim, italic := s.italic, underline := s.underline,
                         inverse := s.inverse, strikethrough := s.strikethrough), rest)
  {
    var c5 := Flag(s.strikethrough, 9) + rest;
    var c4 := Flag(s.inverse, 7) + c5;
    var c3 := Flag(s.underline, 4) + c4;
    var c2 := Flag(s.italic, 3) + c3;
    var c1 := Flag(s.dim, 2) + c2;
    var p1 := Plain.(bold := s.bold);
    var p2 := p1.(dim := s.dim);
    var p3 := p2.(italic := s.italic);
    var p4 := p3.(underline := s.underline);
    var p5 := p4.(inverse := s.inverse);
    var p6 := p5.(strikethrough := s.strikethrough);
    assert Apply(Plain, FlagsThen(s, rest)) == Apply(p1, c1) by { ApplyFlag(Plain, s.bold, 1, c1, p1); }
    assert Apply(p1, c1) == Apply(p2, c2) by { ApplyFlag(p1, s.dim, 2, c2, p2); }
    assert Apply(p2, c2) == Apply(p3, c3) by { ApplyFlag(p2, s.italic, 3, c3, p3); }
    assert Apply(p3, c3) == Apply(p4, c4) by { ApplyFlag(p3, s.underline, 4, c4, p4); }
    assert Apply(p4, c4) == Apply(p5, c5) by { ApplyFlag(p4, s.inverse, 7, c5, p5); }
    assert Apply(p5, c5) == Apply(p6, rest) by { ApplyFlag(p5, s.strikethrough, 9, rest, p6); }
  }

  /** Applying the two colour groups to a rendition with the default colours sets exactly those colours. */
  lemma DecodeColors(p: Style, s: Style)
    requires p.fg.Default? && p.bg.Default?
    ensures Apply(p, ColorCodes(38, s.fg) + ColorCodes(48, s.bg)) == p.(fg := s.fg, bg := s.bg)
  {
    var p7 := p.(fg := s.fg);
    ApplyColor(p, true, s.fg, ColorCodes(48, s.bg));
    assert ColorCodes(48, s.bg) == ColorCodes(48, s.bg) + [];
    ApplyColor(p7, false, s.bg, []);
  }

  /** Decoding what appendSgr writes, starting from the default rendition, gives the style back. */
  lemma DecodeCodes(s: Style)
    ensures Apply(Plain, Codes(s)) == s
  {
    var colors := ColorCodes(38, s.fg) + ColorCodes(48, s.bg);
    var p := Plain.(bold := s.bold, dim := s.dim, italic := s.italic, underline := s.underline,
                    inverse := s.inverse, strikethrough := s.strikethrough);
    CodesAreFlagsThenColors(s);
    DecodeFlags(s, colors);
    DecodeColors(p, s);
  }

  /**
   * The end-to-end round trip: the bytes between "ESC [" and "m", split into
   * parameters by the input side's parser and applied to the default
   * rendition, reproduce the style.
   */
  lemma SgrRoundTrip(s: Style)
    requires !IsDefault(s)
    ensures var t := SgrText(s);
            |t| >= 3 && t[..2] == "\U{1B}[" && t[|t| - 1] == 'm'
            && Apply(Plain, CsiParams(t[2..|t| - 1])) == s
  {
    SgrParamsParseBack(s);
    var t := SgrText(s);
    assert t[2..|t| - 1] == Params(Codes(s));
    DecodeCodes(s);
  }

  /** Only the default style is written as nothing. */
  lemma SgrTextEmptyIffDefault(s: Style)
    ensures SgrText(s) == [] <==> IsDefault(s)
    ensures IsDefault(s) <==> s == Plain
  {
  }

  /** Distinct styles never share an escape sequence. */
  lemma SgrTextInjective(s: Style, u: Style)
    requires SgrText(s) == SgrText(u)
    ensures s == u
  {
    SgrTextEmptyIffDefault(s);
    SgrTextEmptyIffDefault(u);
    if !IsDefault(s) {
      SgrRoundTrip(s);
      SgrRoundTrip(u);
    }
  }
}
