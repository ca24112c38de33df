/**
 * Decimal text of integers and JavaScript's `parseInt(text, 10)`, restricted to integral numbers.
 * `'' + n` for a number is `DecimalOf(n)`; `parseInt` is `ParseInt`, where `None` stands for NaN.
 */
module Numbers {
  import opened Wrappers

  predicate IsDigit(c: char) { '0' <= c <= '9' }

  function DigitChar(d: nat): (c: char)
    requires d < 10
    ensures IsDigit(c) && DigitValue(c) == d
  {
    "0123456789"[d]
  }

  function DigitValue(c: char): nat
    requires IsDigit(c)
  {
    c as int - '0' as int
  }

  predicate AllDigits(s: string) { forall i :: 0 <= i < |s| ==> IsDigit(s[i]) }

  /** The decimal digits of `m`, most significant first, without leading zeros. */
  function NatDigits(m: nat): (s: string)
    ensures |s| > 0 && AllDigits(s)
    ensures m > 0 ==> s[0] != '0'
  {
    if m < 10 then [DigitChar(m)] else NatDigits(m / 10) + [DigitChar(m % 10)]
  }

  /**
   * The largest integer up to which every integer is a JavaScript number: beyond it `parseInt`
   * and `'' + n` round to the nearest double.
   */
  const MAX_SAFE_INTEGER: nat := 9007199254740991

  predicate IsSafeInteger(n: int) { -(MAX_SAFE_INTEGER as int) <= n <= MAX_SAFE_INTEGER }

  function Pow10(k: nat): (p: nat)
    ensures p >= 1
  {
    if k == 0 then 1 else 10 * Pow10(k - 1)
  }

  /**
   * `'' + n` for an integral JS number. It prints plain digits only below 1e21 and matches the
   * source exactly for safe integers (`SafeDecimalIsPlain`); exact integers are used throughout.
   */
  function DecimalOf(n: int): (s: string)
    ensures |s| > 0 && (s[0] == '-' || IsDigit(s[0]))
  {
    if n < 0 then "-" + NatDigits(-n) else NatDigits(n)
  }

  /** A number below `10^k` has at most `k` digits (zero has one). */
  lemma {:induction false} NatDigitsLength(m: nat, k: nat)
    requires k >= 1 && m < Pow10(k)
    ensures |NatDigits(m)| <= k
  {
    if k == 1 {
      assert Pow10(1) == 10;
    } else if m >= 10 {
      assert Pow10(k) == 10 * Pow10(k - 1);
      assert m == 10 * (m / 10) + m % 10;
      assert m / 10 < Pow10(k - 1);
      NatDigitsLength(m / 10, k - 1);
    }
  }

  /**
   * A safe integer prints as at most 16 digits after an optional sign: far below the 21 digits
   * from which `'' + n` switches to exponent form.
   */
  lemma SafeDecimalIsPlain(n: int)
    requires IsSafeInteger(n)
    ensures |DecimalOf(n)| <= 17 && AllDigits(if n < 0 then DecimalOf(n)[1..] else DecimalOf(n))
  {
    assert Pow10(1) == 10;
    assert Pow10(2) == 100;
    assert Pow10(3) == 1000;
    assert Pow10(4) == 10000;
    assert Pow10(5) == 100000;
    assert Pow10(6) == 1000000;
    assert Pow10(7) == 10000000;
    assert Pow10(8) == 100000000;
    assert Pow10(9) == 1000000000;
    assert Pow10(10) == 10000000000;
    assert Pow10(11) == 100000000000;
    assert Pow10(12) == 1000000000000;
    assert Pow10(13) == 10000000000000;
    assert Pow10(14) == 100000000000000;
    assert Pow10(15) == 1000000000000000;
    assert Pow10(16) == 10000000000000000;
    if n < 0 {
      NatDigitsLength(-n, 16);
      assert DecimalOf(n)[1..] == NatDigits(-n);
    } else {
      NatDigitsLength(n, 16);
    }
  }

  /** The value of a run of decimal digits. */
  function DigitsValue(s: string): nat
    requires AllDigits(s)
  {
    if s == [] then 0 else DigitsValue(s[..|s| - 1]) * 10 + DigitValue(s[|s| - 1])
  }

  /** The length of the longest prefix of `s` made of decimal digits. */
  function DigitRun(s: string): (k: nat)
    ensures k <= |s| && AllDigits(s[..k])
    ensures k < |s| ==> !IsDigit(s[k])
  {
    if s == [] || !IsDigit(s[0]) then 0
    else
      var k := 1 + DigitRun(s[1..]);
      assert s[..k] == [s[0]] + s[1..][..k - 1];
      k
  }

  /** The characters ECMAScript's StrWhiteSpaceChar covers: white space (Zs included) and line terminators. */
  predicate IsJsWhiteSpace(c: char) {
    || c == '\t' || c == '\U{000B}' || c == '\U{000C}' || c == ' ' || c == '\U{00A0}' || c == '\U{FEFF}'
    || c == '\U{1680}' || ('\U{2000}' <= c <= '\U{200A}') || c == '\U{202F}' || c == '\U{205F}' || c == '\U{3000}'
    || c == '\n' || c == '\r' || c == '\U{2028}' || c == '\U{2029}'
  }

  /** `s` without its leading white space. */
  function TrimStart(s: string): (t: string)
    ensures |t| <= |s| && t == s[|s| - |t|..]
    ensures t == [] || !IsJsWhiteSpace(t[0])
    ensures forall i :: 0 <= i < |s| - |t| ==> IsJsWhiteSpace(s[i])
  {
    if s != [] && IsJsWhiteSpace(s[0]) then
      var t := TrimStart(s[1..]);
      assert forall i :: 1 <= i < |s| - |t| ==> s[i] == s[1..][i - 1];
      t
    else s
  }

  /** The value of the longest prefix of decimal digits, or `None` when there is none. */
  function LeadingDigits(u: string): (r: Option<nat>)
    ensures r.None? <==> u == [] || !IsDigit(u[0])
  {
    var k := DigitRun(u);
    if k == 0 then None else Some(DigitsValue(u[..k]))
  }

  /** An optional sign followed by `LeadingDigits`. */
  function SignedLeadingDigits(t: string): (r: Option<int>)
  {
    if t != [] && t[0] == '-' then
      match LeadingDigits(t[1..])
      case None => None
      case Some(v) => Some(-(v as int))
    else if t != [] && t[0] == '+' then
      match LeadingDigits(t[1..])
      case None => None
      case Some(v) => Some(v)
    else
      match LeadingDigits(t)
      case None => None
      case Some(v) => Some(v)
  }

  /**
   * `parseInt(s, 10)`: skip leading white space, read an optional sign, then the longest run of
   * decimal digits; no digit at all gives NaN (`None`).
   */
  function ParseInt(s: string): (r: Option<int>)
    ensures var t := TrimStart(s);
      var u := if t != [] && (t[0] == '-' || t[0] == '+') then t[1..] else t;
      r.None? <==> u == [] || !IsDigit(u[0])
  {
    SignedLeadingDigits(TrimStart(s))
  }

  /** `'' + parseInt(s, 10)`: the decimal text of the parsed number, or "NaN". */
  function IntText(s: string): (r: string)
    ensures r == "NaN" <==> ParseInt(s).None?
    ensures ParseInt(s).Some? ==> ParseInt(r) == ParseInt(s)
  {
    match ParseInt(s)
    case None => "NaN"
    case Some(n) => ParseDecimalOf(n); DecimalOf(n)
  }

  lemma {:induction false} NatDigitsValue(m: nat)
    ensures DigitsValue(NatDigits(m)) == m
  {
    if m >= 10 {
      var s := NatDigits(m);
      assert s[..|s| - 1] == NatDigits(m / 10);
      NatDigitsValue(m / 10);
    }
  }

  lemma {:induction false} DigitRunOfDigits(s: string)
    requires AllDigits(s)
    ensures DigitRun(s) == |s|
  {
    if s != [] {
      DigitRunOfDigits(s[1..]);
    }
  }

  /** Reading back the decimal text of any integer gives the integer. */
  lemma {:induction false} ParseDecimalOf(n: int)
    ensures ParseInt(DecimalOf(n)) == Some(n)
  {
    if n < 0 {
      ParseDecimalOfNegative(n);
    } else {
      ParseDecimalOfNatural(n);
    }
  }

  lemma {:induction false} ParseDecimalOfNegative(n: int)
    requires n < 0
    ensures ParseInt(DecimalOf(n)) == Some(n)
  {
    var d := DecimalOf(n);
    assert d == "-" + NatDigits(-n);
    ParseNegative(n);
  }

  lemma {:induction false} ParseDecimalOfNatural(n: nat)
    ensures ParseInt(DecimalOf(n)) == Some(n)
  {
    var d := DecimalOf(n);
    assert d == NatDigits(n);
    ParseUnsigned(n);
  }

  lemma {:induction false} LeadingDigitsOf(m: nat)
    ensures LeadingDigits(NatDigits(m)) == Some(m)
  {
    var ds := NatDigits(m);
    NatDigitsValue(m);
    DigitRunOfDigits(ds);
    assert ds[..|ds|] == ds;
  }

  lemma {:induction false} ParseUnsigned(m: nat)
    ensures ParseInt(NatDigits(m)) == Some(m)
  {
    var ds := NatDigits(m);
    LeadingDigitsOf(m);
    assert !IsJsWhiteSpace(ds[0]);
    assert TrimStart(ds) == ds;
    assert ds[0] != '-' && ds[0] != '+';
    assert SignedLeadingDigits(ds) == LeadingDigits(ds);
  }

  lemma {:induction false} ParseNegative(n: int)
    requires n < 0
    ensures ParseInt("-" + NatDigits(-n)) == Some(n)
  {
    var s := "-" + NatDigits(-n);
    LeadingDigitsOf(-n);
    assert TrimStart(s) == s;
    assert s[1..] == NatDigits(-n);
  }

  /** intValueNode's text is canonical: re-parsing stored text leaves it unchanged. */
  lemma {:induction false} IntTextOfDecimal(n: int)
    ensures IntText(DecimalOf(n)) == DecimalOf(n)
  {
    ParseDecimalOf(n);
  }

  /** "NaN" holds no digit, so `parseInt` of it is NaN again. */
  lemma ParseNaN()
    ensures ParseInt("NaN") == None
  {
    assert TrimStart("NaN") == "NaN";
    assert LeadingDigits("NaN") == None;
  }

  /** The text `IntText` produces reads back as itself, "NaN" included. */
  lemma {:induction false} IntTextIdempotent(s: string)
    ensures IntText(IntText(s)) == IntText(s)
  {
    var r := ParseInt(s);
    if r.Some? {
      assert IntText(s) == DecimalOf(r.value);
      IntTextOfDecimal(r.value);
    } else {
      assert IntText(s) == "NaN";
      ParseNaN();
    }
  }

  /** Distinct integers have distinct decimal texts. */
  lemma {:induction false} DecimalOfInjective(a: int, b: int)
    requires DecimalOf(a) == DecimalOf(b)
    ensures a == b
  {
    ParseDecimalOf(a);
    ParseDecimalOf(b);
  }
}
