/**
 * The parts of Python's `str` and `int` that the converter relies on:
 * `strip`, `lower`, `endswith`, `join`, `int(s)` / `str(n)` on plain decimal
 * text, and the length of a string once encoded as UTF-8.
 */
module PyStr {

  /** `c.isspace()`: the characters `str.strip()` removes at both ends. */
  predicate IsSpace(c: char) {
    var n := c as int;
    (0x09 <= n <= 0x0D) || (0x1C <= n <= 0x20) || n == 0x85 || n == 0xA0 || n == 0x1680 ||
    (0x2000 <= n <= 0x200A) || n == 0x2028 || n == 0x2029 || n == 0x202F || n == 0x205F || n == 0x3000
  }

  function StripLeft(s: string): (r: string)
    ensures |r| <= |s| && r == s[|s| - |r|..]
    ensures r == [] || !IsSpace(r[0])
  {
    if s != [] && IsSpace(s[0]) then StripLeft(s[1..]) else s
  }

  function StripRight(s: string): (r: string)
    ensures |r| <= |s| && r == s[..|r|]
    ensures r == [] || !IsSpace(r[|r| - 1])
  {
    if s != [] && IsSpace(s[|s| - 1]) then StripRight(s[..|s| - 1]) else s
  }

  /** `s.strip()` */
  function Strip(s: string): string {
    StripLeft(StripRight(s))
  }

  function LowerChar(c: char): char {
    if 'A' <= c <= 'Z' then (c as int + 32) as char else c
  }

  /** `s.lower()`, for the ASCII letters. */
  function Lower(s: string): string {
    seq(|s|, i requires 0 <= i < |s| => LowerChar(s[i]))
  }

  /** `s.endswith(suffix)` */
  predicate EndsWith(s: string, suffix: string) {
    |suffix| <= |s| && s[|s| - |suffix|..] == suffix
  }

  /** `sep.join(xs)` */
  function Join(sep: string, xs: seq<string>): string
    decreases |xs|
  {
    if |xs| == 0 then ""
    else if |xs| == 1 then xs[0]
    else Join(sep, xs[..|xs| - 1]) + sep + xs[|xs| - 1]
  }

  lemma {:induction false} JoinAppend(sep: string, a: seq<string>, b: seq<string>)
    requires a != [] && b != []
    ensures Join(sep, a + b) == Join(sep, a) + sep + Join(sep, b)
    decreases |b|
  {
    if |b| > 1 {
      var b' := b[..|b| - 1];
      assert (a + b)[..|a + b| - 1] == a + b';
      JoinAppend(sep, a, b');
    } else {
      assert (a + b)[..|a + b| - 1] == a;
    }
  }

  // ---------------------------------------------------------------------------
  // Decimal integers: `int(s)` on [+-]?[0-9]+ and `str(n)`.

  predicate IsDigit(c: char) {
    '0' <= c <= '9'
  }

  predicate AllDigits(s: string) {
    forall i :: 0 <= i < |s| ==> IsDigit(s[i])
  }

  /** ASCII decimal text with an optional sign, the form of `int(s)` input this model accepts. */
  predicate IsIntText(s: string) {
    |s| > 0 &&
    if s[0] == '+' || s[0] == '-' then |s| > 1 && AllDigits(s[1..]) else AllDigits(s)
  }

  function Magnitude(s: string): string
    requires IsIntText(s)
  {
    if s[0] == '+' || s[0] == '-' then s[1..] else s
  }

  /** Canonical decimal text: no `+`, no leading zero, no `-0`. */
  predicate IsCanonicalInt(s: string) {
    IsIntText(s) && s[0] != '+' &&
    var m := Magnitude(s);
    (|m| == 1 || m[0] != '0') && !(s[0] == '-' && m == "0")
  }

  function DigitValue(c: char): nat
    requires IsDigit(c)
  {
    c as int - '0' as int
  }

  function DigitChar(d: nat): char
    requires d < 10
  {
    ('0' as int + d) as char
  }

  function DigitsValue(ds: string): nat
    requires AllDigits(ds)
  {
    if ds == [] then 0 else 10 * DigitsValue(ds[..|ds| - 1]) + DigitValue(ds[|ds| - 1])
  }

  /** `int(s)` */
  function IntValue(s: string): int
    requires IsIntText(s)
  {
    var v: int := DigitsValue(Magnitude(s));
    if s[0] == '-' then -v else v
  }

  function NatText(n: nat): string {
    if n < 10 then [DigitChar(n)] else NatText(n / 10) + [DigitChar(n % 10)]
  }

  /** `str(n)` */
  function DecimalText(n: int): string {
    if n < 0 then "-" + NatText(-n) else NatText(n)
  }

  lemma {:induction false} NatTextFacts(n: nat)
    ensures |NatText(n)| > 0 && AllDigits(NatText(n))
    ensures DigitsValue(NatText(n)) == n
    ensures NatText(n)[0] == '0' ==> n == 0
  {
    if n >= 10 {
      NatTextFacts(n / 10);
      var t := NatText(n);
      assert t[..|t| - 1] == NatText(n / 10);
    }
  }

  /** `str(n)` is canonical text that `int` reads back as `n`. */
  lemma DecimalTextRoundTrip(n: int)
    ensures IsCanonicalInt(DecimalText(n))
    ensures IntValue(DecimalText(n)) == n
  {
    var m := if n < 0 then -n else n;
    NatTextFacts(m);
    var t := DecimalText(n);
    if n < 0 {
      assert t[1..] == NatText(m);
    }
  }

  lemma {:induction false} LeadingNonZeroPositive(ds: string)
    requires AllDigits(ds) && ds != [] && ds[0] != '0'
    ensures DigitsValue(ds) > 0
  {
    if |ds| > 1 {
      LeadingNonZeroPositive(ds[..|ds| - 1]);
    }
  }

  lemma {:induction false} NatTextOfDigits(ds: string)
    requires AllDigits(ds) && ds != [] && (|ds| == 1 || ds[0] != '0')
    ensures NatText(DigitsValue(ds)) == ds
  {
    if |ds| > 1 {
      var init := ds[..|ds| - 1];
      LeadingNonZeroPositive(init);
      NatTextOfDigits(init);
      var v := DigitsValue(ds);
      assert v / 10 == DigitsValue(init) && v % 10 == DigitValue(ds[|ds| - 1]);
    }
  }

  /** Canonical text is a fixed point of `str(int(s))`. */
  lemma CanonicalIntFixed(s: string)
    requires IsCanonicalInt(s)
    ensures DecimalText(IntValue(s)) == s
  {
    var m := Magnitude(s);
    NatTextOfDigits(m);
    if s[0] == '-' {
      LeadingNonZeroPositive(m);
    }
  }

  // ---------------------------------------------------------------------------
  // UTF-8

  /** Bytes `c` takes in UTF-8. */
  function Utf8CharLength(c: char): nat {
    var n := c as int;
    if n < 0x80 then 1 else if n < 0x800 then 2 else if n < 0x10000 then 3 else 4
  }

  /** `len(s.encode('utf-8'))` */
  function Utf8Length(s: string): nat {
    if s == [] then 0 else Utf8Length(s[..|s| - 1]) + Utf8CharLength(s[|s| - 1])
  }

  lemma {:induction false} Utf8LengthAppend(a: string, b: string)
    ensures Utf8Length(a + b) == Utf8Length(a) + Utf8Length(b)
    decreases |b|
  {
    if b != [] {
      assert (a + b)[..|a + b| - 1] == a + b[..|b| - 1];
      Utf8LengthAppend(a, b[..|b| - 1]);
    } else {
      assert a + b == a;
    }
  }
}
