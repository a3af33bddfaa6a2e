/** The number conversions the components rely on, restricted to integers:
    `Number(s)`, `parseInt(s)` and `String(n)`. */
module JsNumbers {
  import opened Wrappers
  import opened Strings

  predicate IsDigit(c: char) {
    '0' <= c <= '9'
  }

  predicate AllDigits(s: string) {
    forall k :: 0 <= k < |s| ==> IsDigit(s[k])
  }

  /** Value of a string of decimal digits. */
  function DigitsValue(ds: string): nat
    requires AllDigits(ds)
  {
    if ds == [] then 0
    else 10 * DigitsValue(ds[..|ds| - 1]) + (ds[|ds| - 1] as int - '0' as int)
  }

  function DigitChar(d: nat): char
    requires d < 10
  {
    (d + '0' as int) as char
  }

  /** Decimal digits of `n`, without leading zeros. */
  function ShowNat(n: nat): (ds: string)
    ensures ds != [] && AllDigits(ds)
  {
    if n < 10 then [DigitChar(n)] else ShowNat(n / 10) + [DigitChar(n % 10)]
  }

  /** `String(n)` for an integer `n`. */
  function Show(n: int): string {
    if n < 0 then "-" + ShowNat(-n) else ShowNat(n)
  }

  lemma {:induction false} ShowNatValue(n: nat)
    ensures DigitsValue(ShowNat(n)) == n
  {
    if n >= 10 {
      ShowNatValue(n / 10);
      var ds := ShowNat(n);
      assert ds[..|ds| - 1] == ShowNat(n / 10);
    }
  }

  /** `Number(s)`: surrounding white space is ignored, a blank string is 0, and
      otherwise the string must be an optional sign followed by decimal digits;
      `None` stands for NaN. */
  function StringToNumber(s: string): Option<int> {
    var t := Trim(s);
    if t == [] then Some(0)
    else if t[0] == '-' || t[0] == '+' then
      var ds := t[1..];
      if ds != [] && AllDigits(ds) then
        var v: int := DigitsValue(ds);
        Some(if t[0] == '-' then -v else v)
      else None
    else if AllDigits(t) then Some(DigitsValue(t))
    else None
  }

  /** The longest run of digits at the start of `s`. */
  function LeadingDigits(s: string): (ds: string)
    ensures |ds| <= |s| && ds == s[..|ds|] && AllDigits(ds)
    ensures |ds| < |s| ==> !IsDigit(s[|ds|])
  {
    if s != [] && IsDigit(s[0]) then [s[0]] + LeadingDigits(s[1..]) else []
  }

  /** `parseInt(s)`: leading white space is skipped, then an optional sign, then the
      longest run of decimal digits; whatever follows is ignored. `None` stands for
      NaN (no digit at all). */
  function ParseInt(s: string): Option<int> {
    var t := TrimStart(s);
    var negative := t != [] && t[0] == '-';
    var body := if t != [] && (t[0] == '-' || t[0] == '+') then t[1..] else t;
    var ds := LeadingDigits(body);
    if ds == [] then None
    else
      var v: int := DigitsValue(ds);
      Some(if negative then -v else v)
  }

  lemma ShowHasNoSpace(n: int)
    ensures Show(n) != [] && !IsSpace(Show(n)[0]) && !IsSpace(Show(n)[|Show(n)| - 1])
    ensures Trim(Show(n)) == Show(n) && TrimStart(Show(n)) == Show(n)
  {
    var s := Show(n);
    var ds := ShowNat(if n < 0 then -n else n);
    assert IsDigit(ds[|ds| - 1]);
    assert s[|s| - 1] == ds[|ds| - 1];
    if n >= 0 { assert IsDigit(ds[0]); }
  }

  /** `Number(String(n))` gives `n` back. */
  lemma NumberOfShow(n: int)
    ensures StringToNumber(Show(n)) == Some(n)
  {
    ShowHasNoSpace(n);
    if n < 0 {
      ShowNatValue(-n);
      assert Show(n)[1..] == ShowNat(-n);
    } else {
      ShowNatValue(n);
      assert IsDigit(ShowNat(n)[0]);
    }
  }

  lemma {:induction false} LeadingDigitsAll(ds: string)
    requires AllDigits(ds)
    ensures LeadingDigits(ds) == ds
  {
    if ds != [] {
      LeadingDigitsAll(ds[1..]);
    }
  }

  /** `parseInt` reads back an optionally negated run of digits with nothing after it. */
  lemma ParseIntOfDigits(s: string, ds: string, negative: bool)
    requires ds != [] && AllDigits(ds) && TrimStart(s) == s
    requires s == if negative then ['-'] + ds else ds
    ensures ParseInt(s) == Some(if negative then 0 - DigitsValue(ds) as int else DigitsValue(ds))
  {
    LeadingDigitsAll(ds);
    if negative {
      assert s[0] == '-' && s[1..] == ds;
    } else {
      assert IsDigit(ds[0]);
    }
  }

  /** `parseInt(String(n))` gives `n` back. */
  lemma ParseIntOfShow(n: int)
    ensures ParseInt(Show(n)) == Some(n)
  {
    ShowHasNoSpace(n);
    var m: nat := if n < 0 then -n else n;
    ShowNatValue(m);
    ParseIntOfDigits(Show(n), ShowNat(m), n < 0);
  }
}
