/**
 * JavaScript values as the application sees them in query results and component state, with
 * truthiness, `String(v)` and `parseInt(s, 10)`. Numbers are integral: the application only
 * ever handles row counts and row ids.
 */
module JsValue {
  import opened Wrappers
  import JsText

  datatype JsValue = Undefined | Null | Num(n: int) | Str(s: string) | Bool(b: bool)

  /** JavaScript truthiness: `undefined`, `null`, `0`, `''` and `false` are falsy. */
  predicate Truthy(v: JsValue) {
    match v
    case Undefined => false
    case Null => false
    case Num(n) => n != 0
    case Str(s) => s != []
    case Bool(b) => b
  }

  predicate IsDigit(c: char) {
    '0' <= c <= '9'
  }

  predicate AllDigits(s: string) {
    forall i :: 0 <= i < |s| ==> IsDigit(s[i])
  }

  /** The character for a decimal digit. */
  function DigitChar(d: nat): char
    requires d < 10
  {
    ('0' as int + d) as char
  }

  /** The longest prefix of `s` made of decimal digits. */
  function LeadingDigits(s: string): (r: string)
    ensures |r| <= |s| && r == s[..|r|] && AllDigits(r)
    ensures |r| == |s| || !IsDigit(s[|r|])
  {
    if |s| > 0 && IsDigit(s[0]) then
      var r := [s[0]] + LeadingDigits(s[1..]);
      assert s[..|r|] == [s[0]] + s[1..][..|r| - 1];
      r
    else
      []
  }

  /** The number a string of decimal digits denotes. */
  function DigitsValue(ds: string): nat
    requires AllDigits(ds)
  {
    if ds == [] then 0 else 10 * DigitsValue(ds[..|ds| - 1]) + (ds[|ds| - 1] as int - '0' as int)
  }

  /**
   * `parseInt(s, 10)`: leading white space is skipped, one optional sign is read, then as many
   * decimal digits as follow; `None` stands for `NaN` (no digit at all).
   */
  function ParseInt(s: string): (r: Option<int>)
    ensures r.None? <==> LeadingDigits(UnsignedPart(JsText.TrimStart(s))) == []
  {
    var t := JsText.TrimStart(s);
    var ds := LeadingDigits(UnsignedPart(t));
    var magnitude: int := if ds == [] then 0 else DigitsValue(ds);
    if ds == [] then None
    else if |t| > 0 && t[0] == '-' then Some(-magnitude)
    else Some(magnitude)
  }

  /** `t` without one leading sign character. */
  function UnsignedPart(t: string): string {
    if |t| > 0 && (t[0] == '-' || t[0] == '+') then t[1..] else t
  }

  /** The decimal digits of `n`, most significant first, without leading zeros. */
  function NatToString(n: nat): (r: string)
    ensures r != [] && AllDigits(r)
    ensures r[0] != '0' || n == 0
  {
    if n < 10 then [DigitChar(n)] else NatToString(n / 10) + [DigitChar(n % 10)]
  }

  /** `String(n)` for an integral number (decimal notation, a leading `-` when negative). */
  function IntToString(n: int): string {
    if n < 0 then "-" + NatToString(-n) else NatToString(n)
  }

  /** `String(v)`. */
  function StringOf(v: JsValue): string {
    match v
    case Undefined => "undefined"
    case Null => "null"
    case Num(n) => IntToString(n)
    case Str(s) => s
    case Bool(b) => if b then "true" else "false"
  }

  /** Reading back the digits of a natural number gives the number. */
  lemma {:induction false} DigitsValueOfNat(n: nat)
    ensures DigitsValue(NatToString(n)) == n
  {
    if n >= 10 {
      DigitsValueOfNat(n / 10);
      var s := NatToString(n);
      assert s[..|s| - 1] == NatToString(n / 10);
    }
  }

  /** `parseInt(String(n), 10)` is `n` for every integral `n`. */
  lemma ParseIntOfString(n: int)
    ensures ParseInt(IntToString(n)) == Some(n)
  {
    var m: nat := if n < 0 then -n else n;
    var digits := NatToString(m);
    var s := IntToString(n);
    assert s == digits || s == "-" + digits;
    assert !JsText.IsSpace(s[0]);
    assert JsText.TrimStart(s) == s;
    if n < 0 {
      assert UnsignedPart(s) == digits;
    } else {
      assert UnsignedPart(s) == digits;
    }
    assert LeadingDigits(digits) == digits;
    DigitsValueOfNat(m);
  }
}
