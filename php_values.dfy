/**
 * The values the endpoint reads out of its decoded `data` payload, and the two PHP
 * conversions it applies to them: the `(int)` cast and the implicit string conversion
 * done by `strlen`/`substr`.
 */
module PhpValues {
  import opened Wrappers

  /** A scalar JSON value as `json_decode($s, true)` hands it back. */
  datatype Scalar = Null | Bool(b: bool) | Int(i: int) | Text(s: string)

  /** A decoded payload: an object (a PHP associative array) or any other JSON value. */
  datatype Document = Object(fields: map<string, Scalar>) | NonObject

  /** `isset($json[key])`: the field exists and is not null. */
  function Lookup(doc: Document, key: string): (r: Option<Scalar>)
    ensures doc.NonObject? ==> r == None
    ensures r.Some? ==> r.value != Null
  {
    if doc.Object? && key in doc.fields && doc.fields[key] != Null then Some(doc.fields[key]) else None
  }

  /**
   * `isset` after storing `value` under `key`: the key itself is set exactly when the
   * value is not null, and every other key reads as before.
   */
  lemma LookupUpdate(fields: map<string, Scalar>, key: string, value: Scalar, other: string)
    ensures Lookup(Object(fields[key := value]), key) == if value == Null then None else Some(value)
    ensures other != key ==> Lookup(Object(fields[key := value]), other) == Lookup(Object(fields), other)
  {
  }

  predicate IsDigit(c: char) { '0' <= c <= '9' }

  predicate IsSpace(c: char) { c == ' ' || c == '\t' || c == '\n' || c == '\r' || c == '\U{0B}' || c == '\U{0C}' }

  predicate AllDigits(d: string) { forall i :: 0 <= i < |d| ==> IsDigit(d[i]) }

  /** Length of the run of decimal digits at the start of `s`. */
  function DigitRun(s: string): (n: nat)
    ensures n <= |s|
    ensures AllDigits(s[..n])
    ensures n < |s| ==> !IsDigit(s[n])
    ensures AllDigits(s) ==> n == |s|
  {
    if |s| > 0 && IsDigit(s[0]) then
      var n := 1 + DigitRun(s[1..]);
      assert s[..n] == [s[0]] + s[1..][..n - 1];
      n
    else 0
  }

  /** The number a string of decimal digits denotes. */
  function DigitsValue(d: string): nat
    requires AllDigits(d)
  {
    if d == [] then 0 else DigitsValue(d[..|d| - 1]) * 10 + (d[|d| - 1] as int - '0' as int)
  }

  /** `s` with its leading white space removed. */
  function TrimStart(s: string): (t: string)
    ensures |t| <= |s| && t == s[|s| - |t|..]
    ensures t == [] || !IsSpace(t[0])
    ensures forall i :: 0 <= i < |s| - |t| ==> IsSpace(s[i])
  {
    if |s| > 0 && IsSpace(s[0]) then TrimStart(s[1..]) else s
  }

  /** PHP's `(int)` of a string: leading blanks, an optional sign, then the leading digits (0 when none). */
  function TextToInt(s: string): int
  {
    var t := TrimStart(s);
    if |t| > 0 && (t[0] == '-' || t[0] == '+') then
      var magnitude: int := DigitsValue(t[1..][..DigitRun(t[1..])]);
      if t[0] == '-' then -magnitude else magnitude
    else
      DigitsValue(t[..DigitRun(t)])
  }

  predicate AllSpace(w: string) { forall i :: 0 <= i < |w| ==> IsSpace(w[i]) }

  /** PHP's `(int)` of a decoded scalar. */
  function IntCast(v: Scalar): (r: int)
    // a string of digits denotes its decimal value, with a leading minus its negation
    ensures v.Text? && AllDigits(v.s) ==> r == DigitsValue(v.s)
    ensures v.Text? && |v.s| > 0 && v.s[0] == '-' && AllDigits(v.s[1..]) ==> r == -(DigitsValue(v.s[1..]) as int)
    // a string that does not start with a blank, a sign or a digit casts to 0
    ensures v.Text? && (v.s == [] || !(IsSpace(v.s[0]) || IsDigit(v.s[0]) || v.s[0] == '-' || v.s[0] == '+')) ==> r == 0
    // an integer casts to itself, null to 0, booleans to 0 and 1
    ensures v.Int? ==> r == v.i
    ensures v.Null? ==> r == 0
    ensures v.Bool? ==> (r == 1 <==> v.b) && (r == 0 <==> !v.b)
  {
    match v
    case Null => 0
    case Bool(b) => if b then 1 else 0
    case Int(i) => i
    case Text(s) =>
      assert s == s[..|s|];
      assert |s| > 0 ==> s[1..] == s[1..][..|s| - 1];
      TextToInt(s)
  }

  function DigitChar(d: nat): (c: char)
    requires d < 10
    ensures IsDigit(c) && c as int - '0' as int == d
  {
    ('0' as int + d) as char
  }

  /** The decimal digits of a natural number, without leading zeros. */
  function NaturalText(n: nat): (r: string)
    ensures |r| >= 1 && AllDigits(r)
  {
    if n < 10 then [DigitChar(n)] else NaturalText(n / 10) + [DigitChar(n % 10)]
  }

  /** PHP's conversion of an integer to a string. */
  function DecimalText(i: int): (r: string)
    ensures |r| >= 1
  {
    if i < 0 then "-" + NaturalText(-i) else NaturalText(i)
  }

  /** PHP's implicit conversion of a decoded scalar to a string. */
  function StringCast(v: Scalar): string
  {
    match v
    case Null => ""
    case Bool(b) => if b then "1" else ""
    case Int(i) => DecimalText(i)
    case Text(s) => s
  }

  lemma {:induction false} DigitsValueOfNatural(n: nat)
    ensures DigitsValue(NaturalText(n)) == n
  {
    var r := NaturalText(n);
    if n >= 10 {
      DigitsValueOfNatural(n / 10);
      assert r[..|r| - 1] == NaturalText(n / 10);
    }
  }

  lemma {:induction false} TrimStartSkipsSpace(w: string, s: string)
    requires AllSpace(w)
    ensures TrimStart(w + s) == TrimStart(s)
  {
    if |w| > 0 {
      assert (w + s)[1..] == w[1..] + s;
      TrimStartSkipsSpace(w[1..], s);
    } else {
      assert w + s == s;
    }
  }

  lemma {:induction false} DigitRunOfPrefix(d: string, rest: string)
    requires AllDigits(d) && (rest == [] || !IsDigit(rest[0]))
    ensures DigitRun(d + rest) == |d|
  {
    if |d| == 0 {
      assert d + rest == rest;
    } else {
      assert (d + rest)[1..] == d[1..] + rest;
      DigitRunOfPrefix(d[1..], rest);
    }
  }

  lemma TrimStartNoSpace(t: string)
    requires t == [] || !IsSpace(t[0])
    ensures TrimStart(t) == t
  {
  }

  lemma TextToIntUnsigned(t: string)
    requires |t| > 0 && !IsSpace(t[0]) && t[0] != '-' && t[0] != '+'
    ensures TextToInt(t) == DigitsValue(t[..DigitRun(t)])
  {
    TrimStartNoSpace(t);
  }

  lemma TextToIntSigned(t: string)
    requires |t| > 0 && (t[0] == '-' || t[0] == '+')
    ensures var magnitude: int := DigitsValue(t[1..][..DigitRun(t[1..])]);
      TextToInt(t) == if t[0] == '-' then -magnitude else magnitude
  {
    TrimStartNoSpace(t);
  }

  lemma UnsignedDigitPrefix(d: string, rest: string)
    requires AllDigits(d) && |d| > 0 && (rest == [] || !IsDigit(rest[0]))
    ensures TextToInt(d + rest) == DigitsValue(d)
  {
    var t := d + rest;
    assert t[0] == d[0];
    TextToIntUnsigned(t);
    DigitRunOfPrefix(d, rest);
    assert t[..|d|] == d;
  }

  lemma SignedDigitPrefix(sign: char, d: string, rest: string)
    requires sign == '-' || sign == '+'
    requires AllDigits(d) && (rest == [] || !IsDigit(rest[0]))
    ensures TextToInt([sign] + (d + rest)) == if sign == '-' then -(DigitsValue(d) as int) else DigitsValue(d)
  {
    var u := d + rest;
    DigitRunOfPrefix(d, rest);
    assert u[..|d|] == d;
    var t := [sign] + u;
    assert t[0] == sign && t[1..] == u;
    TextToIntSigned(t);
  }

  /**
   * PHP's `(int)` keeps the run of digits at the start of a string, after an optional
   * sign, and ignores what follows: `(int)"12abc"` is 12.
   */
  lemma IntCastOfDigitPrefix(d: string, rest: string)
    requires AllDigits(d) && (rest == [] || !IsDigit(rest[0]))
    ensures |d| > 0 ==> IntCast(Text(d + rest)) == DigitsValue(d)
    ensures IntCast(Text("-" + (d + rest))) == -(DigitsValue(d) as int)
    ensures IntCast(Text("+" + (d + rest))) == DigitsValue(d)
  {
    if |d| > 0 {
      UnsignedDigitPrefix(d, rest);
    }
    SignedDigitPrefix('-', d, rest);
    SignedDigitPrefix('+', d, rest);
    assert IntCast(Text(d + rest)) == TextToInt(d + rest);
    assert IntCast(Text("-" + (d + rest))) == TextToInt("-" + (d + rest));
    assert IntCast(Text("+" + (d + rest))) == TextToInt("+" + (d + rest));
  }

  /** PHP's `(int)` skips leading white space. */
  lemma IntCastSkipsLeadingSpace(w: string, s: string)
    requires AllSpace(w)
    ensures IntCast(Text(w + s)) == IntCast(Text(s))
  {
    TrimStartSkipsSpace(w, s);
    assert IntCast(Text(w + s)) == TextToInt(w + s);
    assert IntCast(Text(s)) == TextToInt(s);
  }

  /** The `(int)` cast undoes the string conversion of an integer. */
  lemma IntCastOfStringCast(i: int)
    ensures IntCast(Text(DecimalText(i))) == i
    ensures IntCast(Text(StringCast(Int(i)))) == i
  {
    var t := DecimalText(i);
    var n := NaturalText(if i < 0 then -i else i);
    assert TrimStart(t) == t;
    DigitsValueOfNatural(if i < 0 then -i else i);
    if i < 0 {
      assert t[1..] == n;
      assert t[1..][..DigitRun(t[1..])] == n;
    } else {
      assert t[..DigitRun(t)] == n;
    }
  }
}
