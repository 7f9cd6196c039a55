/** Dynamically typed values as they appear in token claims and resolver
    keyword arguments, and the two numeric readings the source applies to
    them: ordering against a number, and Python's `int(...)` conversion. */
module Values {
  import opened Wrappers

  datatype Value = Int(i: int) | Str(s: string) | Bool(b: bool) | Null

  /** A decoded token payload: a dict from claim names to values. */
  type Claims = map<string, Value>

  /** The number a value stands for when compared with `>` against a number;
      `None` where Python raises `TypeError` (strings and `None`). A `bool`
      compares as 0 or 1. */
  function AsNumber(v: Value): (r: Option<int>)
    ensures r.None? <==> v.Str? || v.Null?
    ensures v.Int? ==> r == Some(v.i)
    ensures v.Bool? ==> r == Some(if v.b then 1 else 0)
  {
    match v
    case Int(i) => Some(i)
    case Bool(b) => Some(if b then 1 else 0)
    case Str(_) => None
    case Null => None
  }

  predicate IsDigit(c: char) {
    '0' <= c <= '9'
  }

  predicate AllDigits(s: string) {
    forall i :: 0 <= i < |s| ==> IsDigit(s[i])
  }

  /** The number a non-empty run of decimal digits denotes. */
  function DigitsValue(s: string): nat
    requires AllDigits(s)
  {
    if |s| == 0 then 0
    else DigitsValue(s[..|s| - 1]) * 10 + (s[|s| - 1] as int - '0' as int)
  }

  /** The decimal numeral of a natural number, without leading zeros. */
  function ShowNat(n: nat): (r: string)
    ensures |r| > 0 && AllDigits(r)
    ensures n > 0 ==> r[0] != '0'
    decreases n
  {
    if n < 10 then [('0' as int + n) as char]
    else ShowNat(n / 10) + [('0' as int + n % 10) as char]
  }

  /** The decimal numeral of an integer, with a leading `-` when negative. */
  function ShowInt(n: int): string {
    if n < 0 then "-" + ShowNat(-n) else ShowNat(n)
  }

  /** Python's `int(s)` on a string: an optional sign followed by one or more
      ASCII digits; anything else raises `ValueError`, modelled as `None`. */
  function ParseInt(s: string): (r: Option<int>)
    ensures r.Some? <==>
      (|s| > 0 && AllDigits(s)) ||
      (|s| > 1 && (s[0] == '-' || s[0] == '+') && AllDigits(s[1..]))
    ensures r.Some? && s[0] == '-' ==> r.value <= 0
    ensures r.Some? && s[0] != '-' ==> r.value >= 0
  {
    if |s| > 0 && AllDigits(s) then Some(DigitsValue(s))
    else if |s| > 1 && (s[0] == '-' || s[0] == '+') && AllDigits(s[1..]) then
      Some(if s[0] == '-' then 0 - DigitsValue(s[1..]) as int else DigitsValue(s[1..]) as int)
    else None
  }

  /** Python's `int(v)`: integers as they are, booleans as 0 or 1, strings
      through `ParseInt`; `None` fails (`TypeError`). */
  function ToInt(v: Value): (r: Option<int>)
    ensures v.Int? ==> r == Some(v.i)
    ensures v.Bool? ==> r == Some(if v.b then 1 else 0)
    ensures v.Null? ==> r.None?
    ensures r.None? <==> v.Null? || (v.Str? && ParseInt(v.s).None?)
  {
    match v
    case Int(i) => Some(i)
    case Bool(b) => Some(if b then 1 else 0)
    case Str(s) => ParseInt(s)
    case Null => None
  }

  lemma {:induction false} DigitsValueShowNat(n: nat)
    ensures DigitsValue(ShowNat(n)) == n
    decreases n
  {
    if n >= 10 {
      var s := ShowNat(n);
      DigitsValueShowNat(n / 10);
      assert s[..|s| - 1] == ShowNat(n / 10);
    }
  }

  /** A leading zero does not change the number a run of digits denotes. */
  lemma {:induction false} LeadingZero(d: string)
    requires AllDigits(d)
    ensures AllDigits("0" + d) && DigitsValue("0" + d) == DigitsValue(d)
    decreases |d|
  {
    var z := "0" + d;
    assert AllDigits(z) by {
      forall i | 0 <= i < |z| ensures IsDigit(z[i]) {
        if i > 0 { assert z[i] == d[i - 1]; }
      }
    }
    if |d| > 0 {
      var p := d[..|d| - 1];
      assert AllDigits(p) by {
        forall i | 0 <= i < |p| ensures IsDigit(p[i]) { assert p[i] == d[i]; }
      }
      LeadingZero(p);
      assert z[..|z| - 1] == "0" + p;
    }
  }

  /** `int(...)` ignores a leading `+` and leading zeros, and a leading `-`
      negates: with `ParseShowInt`, this fixes the value of every numeral
      `ParseInt` accepts. */
  lemma ParseIntForms(d: string)
    requires |d| > 0 && AllDigits(d)
    ensures ParseInt(d) == Some(DigitsValue(d) as int)
    ensures ParseInt("+" + d) == ParseInt(d)
    ensures ParseInt("0" + d) == ParseInt(d)
    ensures ParseInt("-" + d) == Some(-ParseInt(d).value)
  {
    ParseSigned(d, '+');
    ParseSigned(d, '-');
    LeadingZero(d);
  }

  /** A sign followed by digits: the digits' number, negated for `-`. */
  lemma ParseSigned(d: string, sign: char)
    requires |d| > 0 && AllDigits(d)
    requires sign == '+' || sign == '-'
    ensures ParseInt([sign] + d) == Some(if sign == '-' then 0 - DigitsValue(d) as int else DigitsValue(d) as int)
  {
    var s := [sign] + d;
    assert s[1..] == d;
    assert !IsDigit(s[0]);
  }

  /** Printing an integer and parsing it back with `int(...)` gives the integer. */
  lemma ParseShowInt(n: int)
    ensures ParseInt(ShowInt(n)) == Some(n)
    ensures ToInt(Str(ShowInt(n))) == Some(n)
  {
    if n < 0 {
      var s := ShowInt(n);
      DigitsValueShowNat(-n);
      assert s[1..] == ShowNat(-n);
      assert !AllDigits(s) by { assert !IsDigit(s[0]); }
    } else {
      DigitsValueShowNat(n);
    }
  }
}
