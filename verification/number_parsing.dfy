/** The two integer parsers the system relies on: JavaScript's
    `Number.parseInt(text, 10)`, which reads the longest leading run of digits
    and yields NaN when there is none, and Python's `int(text)`, which accepts
    only a whole, possibly signed, numeral and raises otherwise. `None` stands
    for NaN and for the raised `ValueError`. */
module NumberParsing {
  import opened Wrappers
  import opened Text

  /** The longest prefix of `s` made of decimal digits. */
  function LeadingDigits(s: string): (r: string)
    ensures |r| <= |s| && r == s[..|r|] && AllDigits(r)
    ensures |r| < |s| ==> !IsDigit(s[|r|])
  {
    if s != [] && IsDigit(s[0]) then [s[0]] + LeadingDigits(s[1..]) else []
  }

  /** `Number.parseInt(text, 10)`: skip leading whitespace, take an optional
      sign, then the leading digits; no digits gives NaN. */
  function ParseInt(text: string): Option<int>
  {
    var t := TrimStart(text);
    var negative := t != [] && t[0] == '-';
    var unsigned := if t != [] && (t[0] == '-' || t[0] == '+') then t[1..] else t;
    var digits := LeadingDigits(unsigned);
    var value: int := if digits == [] then 0 else DigitsValue(digits);
    if digits == [] then None else Some(if negative then -value else value)
  }

  /** `Number.parseInt(text, 10) || fallback`: NaN and 0 are both falsy. */
  function ParseIntOr(text: string, fallback: int): (r: int)
    ensures r == fallback || ParseInt(text) == Some(r)
    ensures r == fallback <== ParseInt(text) == None || ParseInt(text) == Some(0)
    ensures forall v :: ParseInt(text) == Some(v) && v != 0 ==> r == v
  {
    match ParseInt(text)
    case Some(v) => if v == 0 then fallback else v
    case None => fallback
  }

  /** Python's `int(text)`: surrounding whitespace, an optional sign and at
      least one digit, with nothing else. */
  function PyInt(text: string): Option<int>
  {
    var t := Trim(text);
    var negative := t != [] && t[0] == '-';
    var unsigned := if t != [] && (t[0] == '-' || t[0] == '+') then t[1..] else t;
    if unsigned == [] || !AllDigits(unsigned) then None
    else
      var value: int := DigitsValue(unsigned);
      Some(if negative then -value else value)
  }

  lemma LeadingDigitsOfDigits(s: string)
    requires AllDigits(s)
    ensures LeadingDigits(s) == s
  {
  }

  /** Trimming leaves a text alone when it neither starts nor ends with
      whitespace. */
  lemma TrimUnchanged(s: string)
    requires s != [] && !IsWhitespace(s[0]) && !IsWhitespace(s[|s| - 1])
    ensures TrimStart(s) == s && Trim(s) == s
  {
  }

  lemma TrimOfNumeral(n: int)
    ensures TrimStart(IntToString(n)) == IntToString(n)
    ensures Trim(IntToString(n)) == IntToString(n)
  {
    var s := IntToString(n);
    var d := NatToString(if n < 0 then -n else n);
    assert IsDigit(d[0]) && IsDigit(d[|d| - 1]);
    if n < 0 {
      assert s == "-" + d;
      assert s[0] == '-' && s[|s| - 1] == d[|d| - 1];
    } else {
      assert s == d;
    }
    TrimUnchanged(s);
  }

  /** Reading back the decimal rendering of any integer gives that integer. */
  lemma ParseIntRoundTrip(n: int)
    ensures ParseInt(IntToString(n)) == Some(n)
  {
    TrimOfNumeral(n);
    var m := if n < 0 then -n else n;
    LeadingDigitsOfDigits(NatToString(m));
    NatToStringValue(m);
    if n < 0 {
      assert IntToString(n)[1..] == NatToString(m);
    }
  }

  /** The same for Python's `int`. */
  lemma PyIntRoundTrip(n: int)
    ensures PyInt(IntToString(n)) == Some(n)
  {
    TrimOfNumeral(n);
    var m := if n < 0 then -n else n;
    NatToStringValue(m);
    if n < 0 {
      assert IntToString(n)[1..] == NatToString(m);
    }
  }
}
