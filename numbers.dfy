/** The two numeric parsers the numeric branch chooses between: Python's `int(value)` and
    `float(value)`, restricted to plain signed decimal literals. */
module Numbers {
  import opened Wrappers
  import opened Text

  /** An exact decimal number `mantissa / 10^scale`: the number the text of a float literal
      denotes, before any rounding to a binary float. */
  datatype Decimal = Decimal(mantissa: int, scale: nat)

  /** An optional leading sign and the text after it. */
  datatype Signed = Signed(negative: bool, body: string)

  function SplitSign(s: string): (r: Signed)
    ensures r.body == if s != [] && (s[0] == '-' || s[0] == '+') then s[1..] else s
    ensures r.negative <==> s != [] && s[0] == '-'
  {
    if s != [] && (s[0] == '-' || s[0] == '+') then Signed(s[0] == '-', s[1..]) else Signed(false, s)
  }

  function Apply(negative: bool, n: nat): int {
    if negative then -(n as int) else n
  }

  /** `int(value)`: an optional sign followed by one or more decimal digits. */
  function ParseInt(s: string): (r: Option<int>)
    ensures r.Some? ==> '.' !in s && exists i :: 0 <= i < |s| && IsDigit(s[i])
  {
    var sg := SplitSign(s);
    if sg.body != [] && AllDigits(sg.body) then
      assert sg.body[0] == s[|s| - |sg.body|];
      Some(Apply(sg.negative, Value(sg.body)))
    else None
  }

  /** `float(value)`: an optional sign, digits, and optionally a point followed by more digits;
      at least one digit in all. */
  function ParseFloat(s: string): (r: Option<Decimal>)
  {
    var sg := SplitSign(s);
    ParseUnsignedFloat(sg.negative, sg.body)
  }

  function ParseUnsignedFloat(negative: bool, body: string): (r: Option<Decimal>)
  {
    var k := IndexOf(body, '.');
    var whole := body[..k];
    var fraction := if k < |body| then body[k + 1..] else [];
    if AllDigits(whole) && AllDigits(fraction) && |whole| + |fraction| >= 1 then
      ValueAppend(whole, fraction);
      Some(Decimal(Apply(negative, Value(whole + fraction)), |fraction|))
    else None
  }

  function IntToString(n: int): (s: string)
  {
    if n < 0 then "-" + NatToString(-n) else NatToString(n)
  }

  function Magnitude(m: int): nat {
    if m < 0 then -m else m
  }

  /** Both sides of a cut through a digit string are digit strings that make it up again. */
  lemma SplitDigits(s: string, cut: nat)
    requires AllDigits(s) && cut <= |s|
    ensures AllDigits(s[..cut]) && AllDigits(s[cut..]) && s[..cut] + s[cut..] == s
  {
    assert forall i :: 0 <= i < |s[cut..]| ==> s[cut..][i] == s[cut + i];
  }

  /** The digits of `a` split around a point so that `scale` digits follow it and at least one
      precedes it. */
  function PointedDigits(a: nat, scale: nat): (p: (string, string))
    ensures AllDigits(p.0) && AllDigits(p.1) && |p.0| >= 1 && |p.1| == scale
    ensures AllDigits(p.0 + p.1) && Value(p.0 + p.1) == a
  {
    var digits := ZeroPad(NatToString(a), scale + 1);
    assert |digits| >= scale + 1 && AllDigits(digits) && Value(digits) == a;
    var cut := |digits| - scale;
    SplitDigits(digits, cut);
    var whole, fraction := digits[..cut], digits[cut..];
    assert whole + fraction == digits;
    (whole, fraction)
  }

  /** Renders a decimal with exactly `scale` digits after the point, always writing the point. */
  function DecimalToString(d: Decimal): (s: string)
    ensures '.' in s
  {
    var p := PointedDigits(Magnitude(d.mantissa), d.scale);
    var body := p.0 + "." + p.1;
    assert body[|p.0|] == '.';
    (if d.mantissa < 0 then "-" else "") + body
  }

  /** `int` reads back what `IntToString` writes. */
  lemma ParseIntRoundTrip(n: int)
    ensures ParseInt(IntToString(n)) == Some(n)
  {
    var s := IntToString(n);
    if n < 0 {
      assert SplitSign(s).body == NatToString(-n);
    } else {
      assert SplitSign(s).body == NatToString(n);
    }
  }

  /** Digits, a point, and digits (either run may be empty, not both) read as the decimal whose
      digits are both parts together. */
  lemma ParsePointed(negative: bool, whole: string, fraction: string)
    requires AllDigits(whole) && AllDigits(fraction) && |whole| + |fraction| >= 1
    ensures AllDigits(whole + fraction)
    ensures ParseUnsignedFloat(negative, whole + "." + fraction)
         == Some(Decimal(Apply(negative, Value(whole + fraction)), |fraction|))
  {
    var body := whole + "." + fraction;
    assert body[|whole|] == '.';
    forall i | 0 <= i < |whole| ensures body[i] != '.' {
      assert body[i] == whole[i];
    }
    assert body[..|whole|] == whole;
    assert body[|whole| + 1..] == fraction;
    ValueAppend(whole, fraction);
  }

  lemma SplitSignOfDigits(negative: bool, body: string)
    requires body != [] && IsDigit(body[0])
    ensures SplitSign((if negative then "-" else "") + body) == Signed(negative, body)
  {
  }

  /** `float` reads back what `DecimalToString` writes, mantissa and scale alike. */
  lemma ParseFloatRoundTrip(d: Decimal)
    ensures ParseFloat(DecimalToString(d)) == Some(d)
  {
    var p := PointedDigits(Magnitude(d.mantissa), d.scale);
    var body := p.0 + "." + p.1;
    var s := DecimalToString(d);
    assert s == (if d.mantissa < 0 then "-" else "") + body;
    SplitSignOfDigits(d.mantissa < 0, body);
    ParsePointed(d.mantissa < 0, p.0, p.1);
    assert ParseFloat(s) == ParseUnsignedFloat(d.mantissa < 0, body);
  }

  /** Text without a point that `float` accepts is exactly the text that `int` accepts, and the
      two agree on the number: the branch choice changes only the representation. */
  lemma FloatParseExtendsIntParse(s: string)
    requires '.' !in s
    ensures ParseFloat(s).Some? <==> ParseInt(s).Some?
    ensures ParseInt(s).Some? ==> ParseFloat(s) == Some(Decimal(ParseInt(s).value, 0))
  {
    var sg := SplitSign(s);
    assert '.' !in sg.body;
    var k := IndexOf(sg.body, '.');
    assert sg.body[..k] == sg.body;
    assert sg.body + [] == sg.body;
  }
}
