/** The card's colour validator (isValidColor in src/components/Card.jsx): a string passes when it
    matches either of two case-insensitive regular expressions,
      /^#([0-9A-F]{3}){1,2}$/i                                          (hex)
      /^rgba?\(\s*\d+\s*,\s*\d+\s*,\s*\d+\s*(?:,\s*(?:0?\.)?\d+\s*)?\)$/i  (functional)
    Both are modelled as written, which is looser and stricter than CSS Color Module Level 4 in
    places: four- and eight-digit hex, percentages and alpha values such as 1.0 are refused, and
    channel values above 255 are accepted.

    The hex expression becomes a predicate over groups of three digits. The functional expression
    becomes a parser into RgbParts, the pieces the expression matches one by one; RgbText puts them
    back together. RgbParseRender and IsRgbColorIff show that the parser accepts exactly the strings
    RgbText produces from well-formed parts, that is, exactly the language of the expression. */
module ColorFormat {
  import opened Common
  import opened JsText

  // ---------------------------------------------------------------------------------------------
  // Hex branch

  /** [0-9A-F] under the /i flag. */
  predicate IsHexDigit(c: char) {
    IsDigit(c) || 'A' <= c <= 'F' || 'a' <= c <= 'f'
  }

  /** t is ([0-9A-F]{3}){1,max}: between one and max groups of three hex digits and nothing else. */
  predicate HexTriples(t: string, max: nat)
    decreases max
  {
    && max >= 1
    && |t| >= 3 && IsHexDigit(t[0]) && IsHexDigit(t[1]) && IsHexDigit(t[2])
    && (|t| == 3 || HexTriples(t[3..], max - 1))
  }

  /** The hex branch: a '#' followed by one or two groups of three hex digits. */
  predicate IsHexColor(s: string) {
    |s| >= 1 && s[0] == '#' && HexTriples(s[1..], 2)
  }

  /** The hex branch accepts exactly '#' followed by 3 or 6 hex digits of either case. */
  lemma {:induction false} HexColorShape(s: string)
    ensures IsHexColor(s) <==>
      (|s| == 4 || |s| == 7) && s[0] == '#' && forall i :: 1 <= i < |s| ==> IsHexDigit(s[i])
  {
    if |s| >= 1 && s[0] == '#' {
      var t := s[1..];
      assert forall i :: 1 <= i < |s| ==> s[i] == t[i - 1];
      if |t| > 3 {
        assert forall i :: 3 <= i < |t| ==> t[i] == t[3..][i - 3];
        if |t[3..]| > 3 {
          assert !HexTriples(t[3..][3..], 0);
        }
      }
    }
  }

  // ---------------------------------------------------------------------------------------------
  // Functional branch: the parts the expression matches

  /** One colour channel, \s*\d+\s*, as leading whitespace, a digit run and trailing whitespace. */
  datatype Channel = Channel(lead: string, digits: string, trail: string)

  /** The optional alpha, \s*(?:0?\.)?\d+\s*, with its point prefix "", "." or "0.". */
  datatype Alpha = Alpha(lead: string, point: string, digits: string, trail: string)

  /** A whole functional colour: the name rgb or rgba in any case, three channels and an optional alpha. */
  datatype RgbParts = RgbParts(name: string, red: Channel, green: Channel, blue: Channel, alpha: Option<Alpha>)

  /** The two character classes of the expression: \s and \d. */
  datatype CharClass = Space | Digit

  predicate InClass(c: char, k: CharClass) {
    match k
    case Space => IsWhitespace(c)
    case Digit => IsDigit(c)
  }

  /** Every character of s belongs to class k. */
  ghost predicate AllIn(s: string, k: CharClass) {
    forall i :: 0 <= i < |s| ==> InClass(s[i], k)
  }

  /** rgba? under the /i flag. */
  predicate NameOk(n: string) {
    && (|n| == 3 || |n| == 4)
    && LowerAscii(n[0]) == 'r' && LowerAscii(n[1]) == 'g' && LowerAscii(n[2]) == 'b'
    && (|n| == 4 ==> LowerAscii(n[3]) == 'a')
  }

  ghost predicate ChannelOk(c: Channel) {
    AllIn(c.lead, Space) && c.digits != [] && AllIn(c.digits, Digit) && AllIn(c.trail, Space)
  }

  ghost predicate AlphaOk(a: Alpha) {
    && AllIn(a.lead, Space)
    && (a.point == "" || a.point == "." || a.point == "0.")
    && a.digits != [] && AllIn(a.digits, Digit)
    && AllIn(a.trail, Space)
  }

  ghost predicate RgbOk(p: RgbParts) {
    && NameOk(p.name)
    && ChannelOk(p.red) && ChannelOk(p.green) && ChannelOk(p.blue)
    && (p.alpha.Some? ==> AlphaOk(p.alpha.value))
  }

  /** The text of a channel followed by the text after it. */
  function ChannelThen(c: Channel, after: string): string {
    c.lead + (c.digits + (c.trail + after))
  }

  /** The text of an alpha followed by the text after it. */
  function AlphaThen(a: Alpha, after: string): string {
    a.lead + (a.point + (a.digits + (a.trail + after)))
  }

  /** What follows the blue channel: the optional ",alpha" and the closing parenthesis. */
  function Closing(alpha: Option<Alpha>): string {
    if alpha.Some? then "," + AlphaThen(alpha.value, ")") else ")"
  }

  /** A comma, a channel, and what follows the channel. */
  function CommaChannelThen(c: Channel, after: string): string {
    "," + ChannelThen(c, after)
  }

  /** The string the parts spell out: name ( red ,green ,blue closing. */
  function RgbText(p: RgbParts): string {
    p.name + ("(" + ChannelThen(p.red, CommaChannelThen(p.green, CommaChannelThen(p.blue, Closing(p.alpha)))))
  }

  // ---------------------------------------------------------------------------------------------
  // Functional branch: the parser

  /** The greedy match of a class run at the start of s: the longest prefix made of characters
      of class k, and the rest of s. */
  function Span(s: string, k: CharClass): (r: (string, string))
    ensures r.0 + r.1 == s
    ensures AllIn(r.0, k)
    ensures r.1 == [] || !InClass(r.1[0], k)
  {
    if s != [] && InClass(s[0], k) then
      var r := Span(s[1..], k);
      ConsRun(s, r.0, r.1, k);
      ([s[0]] + r.0, r.1)
    else ([], s)
  }

  lemma ConsRun(s: string, run: string, rest: string, k: CharClass)
    requires s != [] && InClass(s[0], k) && AllIn(run, k) && run + rest == s[1..]
    ensures [s[0]] + run + rest == s
    ensures AllIn([s[0]] + run, k)
  {
    assert [s[0]] + run + rest == [s[0]] + (run + rest);
    assert s == [s[0]] + s[1..];
    var r := [s[0]] + run;
    forall i | 0 <= i < |r|
      ensures InClass(r[i], k)
    {
      if i > 0 {
        assert r[i] == run[i - 1];
      }
    }
  }

  /** A run of class k followed by a character outside k is split exactly there. */
  lemma {:induction false} SpanOfRun(run: string, rest: string, k: CharClass)
    requires AllIn(run, k)
    requires rest == [] || !InClass(rest[0], k)
    ensures Span(run + rest, k) == (run, rest)
  {
    if run == [] {
      assert run + rest == rest;
    } else {
      var s := run + rest;
      assert s[0] == run[0];
      assert s[1..] == run[1..] + rest;
      assert AllIn(run[1..], k) by {
        forall i | 0 <= i < |run[1..]|
          ensures InClass(run[1..][i], k)
        {
          assert run[1..][i] == run[i + 1];
        }
      }
      SpanOfRun(run[1..], rest, k);
      assert [run[0]] + run[1..] == run;
    }
  }

  /** \d+\s* at the start of t: a non-empty digit run, the whitespace after it, and the rest. */
  function ParseDigitsSpace(t: string): (r: Option<(string, string, string)>)
    ensures r.Some? ==>
      && r.value.0 != [] && AllIn(r.value.0, Digit) && AllIn(r.value.1, Space)
      && r.value.0 + (r.value.1 + r.value.2) == t
  {
    var (digits, u) := Span(t, Digit);
    if digits == [] then None
    else
      var (trail, v) := Span(u, Space);
      Some((digits, trail, v))
  }

  /** A channel at the start of s, and the rest. */
  function ParseChannel(s: string): (r: Option<(Channel, string)>)
    ensures r.Some? ==> ChannelOk(r.value.0) && ChannelThen(r.value.0, r.value.1) == s
  {
    var (lead, t) := Span(s, Space);
    match ParseDigitsSpace(t)
    case None => None
    case Some((digits, trail, v)) => Some((Channel(lead, digits, trail), v))
  }

  /** The point prefix the alpha expression (?:0?\.)? takes at the start of t, and the rest. */
  function PointPrefix(t: string): (r: (string, string))
    ensures r.0 == "" || r.0 == "." || r.0 == "0."
    ensures r.0 + r.1 == t
  {
    if |t| >= 2 && t[0] == '0' && t[1] == '.' then
      assert t == "0." + t[2..];
      ("0.", t[2..])
    else if |t| >= 1 && t[0] == '.' then
      assert t == "." + t[1..];
      (".", t[1..])
    else ("", t)
  }

  /** An alpha at the start of s, and the rest. */
  function ParseAlpha(s: string): (r: Option<(Alpha, string)>)
    ensures r.Some? ==> AlphaOk(r.value.0) && AlphaThen(r.value.0, r.value.1) == s
  {
    var (lead, t) := Span(s, Space);
    var (point, u) := PointPrefix(t);
    match ParseDigitsSpace(u)
    case None => None
    case Some((digits, trail, v)) => Some((Alpha(lead, point, digits, trail), v))
  }

  /** The text after the blue channel: ")" alone, or "," alpha ")". */
  function ParseClosing(t: string): (r: Option<Option<Alpha>>)
    ensures r.Some? ==> (r.value.Some? ==> AlphaOk(r.value.value)) && Closing(r.value) == t
  {
    if t == ")" then Some(None)
    else if t == [] || t[0] != ',' then None
    else
      var alpha := ParseAlpha(t[1..]);
      if alpha.None? || alpha.value.1 != ")" then None
      else
        CommaAlphaClosing(t, alpha.value.0);
        Some(Some(alpha.value.0))
  }

  lemma CommaAlphaClosing(t: string, a: Alpha)
    requires t != [] && t[0] == ',' && AlphaThen(a, ")") == t[1..]
    ensures Closing(Some(a)) == t
  {
    assert t == "," + t[1..];
  }

  /** A channel preceded by a comma. */
  function ParseCommaChannel(t: string): (r: Option<(Channel, string)>)
    ensures r.Some? ==> ChannelOk(r.value.0) && CommaChannelThen(r.value.0, r.value.1) == t
  {
    if t == [] || t[0] != ',' then None
    else
      var channel := ParseChannel(t[1..]);
      if channel.None? then None
      else
        assert t == "," + t[1..];
        channel
  }

  /** The green channel after its comma, then the blue one after its comma: ",green ,blue" and the rest. */
  function ParseGreenBlue(t: string): (r: Option<(Channel, Channel, string)>)
    ensures r.Some? ==>
      && ChannelOk(r.value.0) && ChannelOk(r.value.1)
      && CommaChannelThen(r.value.0, CommaChannelThen(r.value.1, r.value.2)) == t
  {
    var green := ParseCommaChannel(t);
    if green.None? then None
    else
      var blue := ParseCommaChannel(green.value.1);
      if blue.None? then None
      else Some((green.value.0, blue.value.0, blue.value.1))
  }

  /** The three channels "red ,green ,blue" at the start of t, and the rest. */
  function ParseChannels(t: string): (r: Option<(Channel, Channel, Channel, string)>)
    ensures r.Some? ==>
      && ChannelOk(r.value.0) && ChannelOk(r.value.1) && ChannelOk(r.value.2)
      && ChannelThen(r.value.0, CommaChannelThen(r.value.1, CommaChannelThen(r.value.2, r.value.3))) == t
  {
    var red := ParseChannel(t);
    if red.None? then None
    else
      var rest := ParseGreenBlue(red.value.1);
      if rest.None? then None
      else Some((red.value.0, rest.value.0, rest.value.1, rest.value.2))
  }

  /** The argument list "(" red "," green "," blue closing, after the name. */
  function ParseArgs(name: string, t: string): (r: Option<RgbParts>)
    requires NameOk(name)
    ensures r.Some? ==> RgbOk(r.value) && RgbText(r.value) == name + t
  {
    if t == [] || t[0] != '(' then None
    else
      var channels := ParseChannels(t[1..]);
      if channels.None? then None
      else
        var (red, green, blue, rest) := channels.value;
        var alpha := ParseClosing(rest);
        if alpha.None? then None
        else
          assert t == "(" + t[1..];
          Some(RgbParts(name, red, green, blue, alpha.value))
  }

  /** The functional branch: rgb or rgba in any case, then the argument list. */
  function ParseRgb(s: string): (r: Option<RgbParts>)
    ensures r.Some? ==> RgbOk(r.value) && RgbText(r.value) == s
  {
    var n := if |s| >= 4 && LowerAscii(s[3]) == 'a' then 4 else 3;
    if |s| < n || !NameOk(s[..n]) then None
    else
      assert s == s[..n] + s[n..];
      ParseArgs(s[..n], s[n..])
  }

  predicate IsRgbColor(s: string) {
    ParseRgb(s).Some?
  }

  /** isValidColor: either branch accepts. */
  predicate IsValidColor(s: string) {
    IsHexColor(s) || IsRgbColor(s)
  }

  // ---------------------------------------------------------------------------------------------
  // The parser accepts exactly the language of the expression

  /** Text that may follow a channel: nothing, or a character that is neither \s nor \d. */
  predicate ChannelEnd(rest: string) {
    rest == [] || (!IsWhitespace(rest[0]) && !IsDigit(rest[0]))
  }

  lemma ParseDigitsSpaceComplete(digits: string, trail: string, rest: string)
    requires digits != [] && AllIn(digits, Digit) && AllIn(trail, Space) && ChannelEnd(rest)
    ensures ParseDigitsSpace(digits + (trail + rest)) == Some((digits, trail, rest))
  {
    if trail != [] {
      assert InClass(trail[0], Space);
      assert (trail + rest)[0] == trail[0];
    }
    SpanOfRun(digits, trail + rest, Digit);
    SpanOfRun(trail, rest, Space);
  }

  lemma ParseChannelComplete(c: Channel, rest: string)
    requires ChannelOk(c) && ChannelEnd(rest)
    ensures ParseChannel(ChannelThen(c, rest)) == Some((c, rest))
  {
    var u := c.digits + (c.trail + rest);
    assert InClass(c.digits[0], Digit) && u[0] == c.digits[0];
    SpanOfRun(c.lead, u, Space);
    ParseDigitsSpaceComplete(c.digits, c.trail, rest);
  }

  /** The point prefix of a well-formed alpha's text is the alpha's own point. */
  lemma PointPrefixOf(a: Alpha, rest: string)
    requires AlphaOk(a) && ChannelEnd(rest) && (rest == [] || rest[0] != '.')
    ensures PointPrefix(a.point + (a.digits + (a.trail + rest))) == (a.point, a.digits + (a.trail + rest))
  {
    var u := a.digits + (a.trail + rest);
    var t := a.point + u;
    assert InClass(a.digits[0], Digit) && u[0] == a.digits[0];
    if a.point == "0." {
      assert t[0] == '0' && t[1] == '.' && t[2..] == u;
    } else if a.point == "." {
      assert t[0] == '.' && t[1..] == u;
    } else {
      assert t == u;
      if |t| >= 2 {
        if |a.digits| >= 2 {
          assert InClass(a.digits[1], Digit) && u[1] == a.digits[1];
        } else if a.trail != [] {
          assert InClass(a.trail[0], Space) && u[1] == a.trail[0];
        } else {
          assert u[1] == rest[0];
        }
      }
    }
  }

  lemma ParseAlphaComplete(a: Alpha, rest: string)
    requires AlphaOk(a) && ChannelEnd(rest) && (rest == [] || rest[0] != '.')
    ensures ParseAlpha(AlphaThen(a, rest)) == Some((a, rest))
  {
    var u := a.digits + (a.trail + rest);
    var t := a.point + u;
    assert InClass(a.digits[0], Digit) && u[0] == a.digits[0];
    assert t[0] == (if a.point == "" then u[0] else a.point[0]);
    SpanOfRun(a.lead, t, Space);
    PointPrefixOf(a, rest);
    ParseDigitsSpaceComplete(a.digits, a.trail, rest);
  }

  lemma ParseClosingComplete(alpha: Option<Alpha>)
    requires alpha.Some? ==> AlphaOk(alpha.value)
    ensures ParseClosing(Closing(alpha)) == Some(alpha)
  {
    if alpha.Some? {
      var t := Closing(alpha);
      assert t[1..] == AlphaThen(alpha.value, ")");
      ParseAlphaComplete(alpha.value, ")");
    }
  }

  lemma ParseCommaChannelComplete(c: Channel, rest: string)
    requires ChannelOk(c) && ChannelEnd(rest)
    ensures ParseCommaChannel(CommaChannelThen(c, rest)) == Some((c, rest))
  {
    var t := CommaChannelThen(c, rest);
    assert t[1..] == ChannelThen(c, rest);
    ParseChannelComplete(c, rest);
  }

  lemma ParseGreenBlueComplete(green: Channel, blue: Channel, rest: string)
    requires ChannelOk(green) && ChannelOk(blue) && ChannelEnd(rest)
    ensures ParseGreenBlue(CommaChannelThen(green, CommaChannelThen(blue, rest))) == Some((green, blue, rest))
  {
    ParseCommaChannelComplete(green, CommaChannelThen(blue, rest));
    ParseCommaChannelComplete(blue, rest);
  }

  lemma ParseChannelsComplete(red: Channel, green: Channel, blue: Channel, rest: string)
    requires ChannelOk(red) && ChannelOk(green) && ChannelOk(blue) && ChannelEnd(rest)
    ensures ParseChannels(ChannelThen(red, CommaChannelThen(green, CommaChannelThen(blue, rest))))
      == Some((red, green, blue, rest))
  {
    ParseChannelComplete(red, CommaChannelThen(green, CommaChannelThen(blue, rest)));
    ParseGreenBlueComplete(green, blue, rest);
  }

  /** The name and the argument list of a string that starts with a valid name and "(". */
  lemma SplitName(name: string, t: string, s: string)
    requires NameOk(name) && t != [] && t[0] == '(' && s == name + t
    ensures ParseRgb(s) == ParseArgs(name, t)
  {
    assert s[..|name|] == name && s[|name|..] == t;
    assert s[3] == if |name| == 3 then t[0] else name[3];
  }

  /** Rendering well-formed parts and parsing the result gives back the same parts. */
  lemma RgbParseRender(p: RgbParts)
    requires RgbOk(p)
    ensures ParseRgb(RgbText(p)) == Some(p)
  {
    var close := Closing(p.alpha);
    var channels := ChannelThen(p.red, CommaChannelThen(p.green, CommaChannelThen(p.blue, close)));
    var args := "(" + channels;
    SplitName(p.name, args, RgbText(p));
    assert args[1..] == channels;
    ParseClosingComplete(p.alpha);
    ParseChannelsComplete(p.red, p.green, p.blue, close);
  }

  /** The functional branch accepts a string exactly when well-formed parts spell it. */
  lemma IsRgbColorIff(s: string)
    ensures IsRgbColor(s) <==> exists p :: RgbOk(p) && RgbText(p) == s
  {
    if exists p :: RgbOk(p) && RgbText(p) == s {
      var p :| RgbOk(p) && RgbText(p) == s;
      RgbParseRender(p);
    }
  }

  // ---------------------------------------------------------------------------------------------
  // Examples

  /** The hex branch accepts #121212 and #FFF, and refuses two and four digits. */
  lemma HexExamples()
    ensures IsValidColor("#121212") && IsValidColor("#FFF")
    ensures !IsValidColor("#12") && !IsValidColor("#1234")
  {
    HexColorShape("#121212");
    HexColorShape("#FFF");
    HexColorShape("#12");
    HexColorShape("#1234");
  }

  /** Parts whose text is accepted by the functional branch. */
  lemma AcceptedParts(p: RgbParts, s: string)
    requires RgbOk(p) && RgbText(p) == s
    ensures IsValidColor(s)
  {
    RgbParseRender(p);
  }

  /** The parts of rgba(10,20,30,0.5).
      The parts are a parameter pinned by the requires so that the literal text is compared in a
      small proof of its own, apart from the parser. */
  lemma AlphaHalfParts(p: RgbParts)
    requires p == RgbParts("rgba", Channel("", "10", ""), Channel("", "20", ""), Channel("", "30", ""),
      Some(Alpha("", "0.", "5", "")))
    ensures RgbOk(p) && RgbText(p) == "rgba(10,20,30,0.5)"
  {
  }

  /** The functional branch accepts rgba(10,20,30,0.5). */
  lemma AlphaHalfAccepted()
    ensures IsValidColor("rgba(10,20,30,0.5)")
  {
    var p := RgbParts("rgba", Channel("", "10", ""), Channel("", "20", ""), Channel("", "30", ""),
      Some(Alpha("", "0.", "5", "")));
    AlphaHalfParts(p);
    AcceptedParts(p, RgbText(p));
  }

  /** The parts of the default shadow colour.
      The parts are a parameter pinned by the requires so that the literal text is compared in a
      small proof of its own, apart from the parser. */
  lemma ShadowParts(p: RgbParts)
    requires p == RgbParts("rgba", Channel("", "0", ""), Channel(" ", "0", ""), Channel(" ", "0", ""),
      Some(Alpha(" ", "0.", "8", "")))
    ensures RgbOk(p) && RgbText(p) == "rgba(0, 0, 0, 0.8)"
  {
  }

  /** The default shadow colour, with spaces after its commas, is accepted. */
  lemma DefaultShadowAccepted()
    ensures IsValidColor("rgba(0, 0, 0, 0.8)")
  {
    var p := RgbParts("rgba", Channel("", "0", ""), Channel(" ", "0", ""), Channel(" ", "0", ""),
      Some(Alpha(" ", "0.", "8", "")));
    ShadowParts(p);
    AcceptedParts(p, RgbText(p));
  }

  /** The parts of rgb(300,0,0).
      The parts are a parameter pinned by the requires so that the literal text is compared in a
      small proof of its own, apart from the parser. */
  lemma OutOfRangeParts(p: RgbParts)
    requires p == RgbParts("rgb", Channel("", "300", ""), Channel("", "0", ""), Channel("", "0", ""), None)
    ensures RgbOk(p) && RgbText(p) == "rgb(300,0,0)"
  {
  }

  /** Channel values are not range-checked: rgb(300,0,0) is accepted. */
  lemma OutOfRangeChannelAccepted()
    ensures IsValidColor("rgb(300,0,0)")
  {
    var p := RgbParts("rgb", Channel("", "300", ""), Channel("", "0", ""), Channel("", "0", ""), None);
    OutOfRangeParts(p);
    AcceptedParts(p, RgbText(p));
  }

  /** After the blue channel, ",1.0)" is refused: the alpha digits stop at the point. */
  lemma DecimalOneClosingRefused(t: string)
    requires t == ",1.0)"
    ensures ParseClosing(t) == None
  {
    var u := t[1..];
    assert u == "1" + ".0)";
    SpanOfRun("", u, Space);
    SpanOfRun("1", ".0)", Digit);
    SpanOfRun("", ".0)", Space);
    assert ParseAlpha(u) == Some((Alpha("", "", "1", ""), ".0)"));
  }

  /** Three well-formed channels followed by a refused closing make a refused colour. */
  lemma ClosingRefused(name: string, red: Channel, green: Channel, blue: Channel, tail: string, s: string)
    requires NameOk(name) && ChannelOk(red) && ChannelOk(green) && ChannelOk(blue)
    requires tail != [] && tail[0] == ',' && ParseClosing(tail) == None
    requires s == name + ("(" + ChannelThen(red, CommaChannelThen(green, CommaChannelThen(blue, tail))))
    ensures !IsValidColor(s)
  {
    var channels := ChannelThen(red, CommaChannelThen(green, CommaChannelThen(blue, tail)));
    var t := "(" + channels;
    SplitName(name, t, s);
    assert t[1..] == channels;
    ParseChannelsComplete(red, green, blue, tail);
  }

  /** The parts of rgba(0,0,0,1.0): a well-formed name and channels, then ",1.0)".
      The parts are a parameter pinned by the requires so that the literal text is compared in a
      small proof of its own, apart from the parser. */
  lemma DecimalOneParts(name: string, zero: Channel, tail: string)
    requires name == "rgba" && zero == Channel("", "0", "") && tail == ",1.0)"
    ensures NameOk(name) && ChannelOk(zero) && tail[0] == ','
    ensures name + ("(" + ChannelThen(zero, CommaChannelThen(zero, CommaChannelThen(zero, tail))))
      == "rgba(0,0,0,1.0)"
  {
  }

  /** rgba(0,0,0,1.0) is refused. */
  lemma DecimalOneRefused()
    ensures !IsValidColor("rgba(0,0,0,1.0)")
  {
    var name, zero, tail := "rgba", Channel("", "0", ""), ",1.0)";
    var s := name + ("(" + ChannelThen(zero, CommaChannelThen(zero, CommaChannelThen(zero, tail))));
    DecimalOneParts(name, zero, tail);
    DecimalOneClosingRefused(tail);
    ClosingRefused(name, zero, zero, zero, tail, s);
  }

  /** A channel followed by anything but a comma ends the argument list too early. */
  lemma ChannelWithoutComma(name: string, c: Channel, rest: string, s: string)
    requires NameOk(name) && ChannelOk(c) && ChannelEnd(rest) && rest != [] && rest[0] != ','
    requires s == name + ("(" + ChannelThen(c, rest))
    ensures !IsValidColor(s)
  {
    var t := "(" + ChannelThen(c, rest);
    SplitName(name, t, s);
    assert t[1..] == ChannelThen(c, rest);
    ParseChannelComplete(c, rest);
  }

  /** The text of rgb(100%,0%,0%) from its first channel and the rest.
      The parts are a parameter pinned by the requires so that the literal text is compared in a
      small proof of its own, apart from the parser. */
  lemma PercentText(red: Channel, rest: string)
    requires red == Channel("", "100", "") && rest == "%,0%,0%)"
    ensures "rgb" + ("(" + ChannelThen(red, rest)) == "rgb(100%,0%,0%)"
  {
  }

  /** Percentages: refused. */
  lemma PercentagesRefused()
    ensures !IsValidColor("rgb(100%,0%,0%)")
  {
    var red := Channel("", "100", "");
    var rest := "%,0%,0%)";
    var s := "rgb" + ("(" + ChannelThen(red, rest));
    PercentText(red, rest);
    ChannelWithoutComma("rgb", red, rest, s);
  }

  /** Only two channels: refused. */
  lemma TwoChannelsRefused()
    ensures !IsValidColor("rgb(1,2)")
  {
  }

  /** Text that neither starts with '#' nor contains an opening parenthesis is refused: this
      covers every colour keyword. */
  lemma ParenlessRefused(s: string)
    requires (s == [] || s[0] != '#') && forall i :: 0 <= i < |s| ==> s[i] != '('
    ensures !IsValidColor(s)
  {
    var n := if |s| >= 4 && LowerAscii(s[3]) == 'a' then 4 else 3;
    if |s| >= n && NameOk(s[..n]) {
      assert s[n..] == [] || s[n..][0] == s[n];
    }
  }

  /** Colour keywords and other text: refused. */
  lemma KeywordRefused()
    ensures !IsValidColor("red") && !IsValidColor("rebeccapurple") && !IsValidColor("transparent")
    ensures !IsValidColor("not-a-color")
  {
    ParenlessRefused("red");
    ParenlessRefused("rebeccapurple");
    ParenlessRefused("transparent");
    ParenlessRefused("not-a-color");
  }
}
