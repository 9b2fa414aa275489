/** The parts of Go's `strings` and `strconv` packages that the filter
    predicates rely on: `strings.ToLower` (ASCII letters only),
    `strings.Contains` and `strconv.Atoi` (64-bit `int`). */
module GoStrings {
  import opened Wrappers

  // ---------------------------------------------------------------------
  // strings.ToLower
  // ---------------------------------------------------------------------

  function LowerChar(c: char): char {
    if 'A' <= c <= 'Z' then (c as int + 32) as char else c
  }

  function ToLower(s: string): string {
    seq(|s|, i requires 0 <= i < |s| => LowerChar(s[i]))
  }

  /** Lowercasing twice is lowercasing once. */
  lemma ToLowerIdempotent(s: string)
    ensures ToLower(ToLower(s)) == ToLower(s)
  {
    var once := ToLower(s);
    forall i | 0 <= i < |s|
      ensures ToLower(once)[i] == once[i]
    {
      assert once[i] == LowerChar(s[i]);
    }
  }

  // ---------------------------------------------------------------------
  // strings.Contains
  // ---------------------------------------------------------------------

  /** `sub` occurs in `s` starting at offset `i`. */
  predicate OccursAt(s: string, sub: string, i: nat) {
    i + |sub| <= |s| && s[i..i + |sub|] == sub
  }

  function Contains(s: string, sub: string): bool
    decreases |s|
  {
    if |sub| > |s| then false
    else if s[..|sub|] == sub then true
    else Contains(s[1..], sub)
  }

  /** `Contains` holds exactly when the substring occurs at some offset. */
  lemma {:induction false} ContainsIffOccurs(s: string, sub: string)
    ensures Contains(s, sub) <==> exists i: nat :: OccursAt(s, sub, i)
    decreases |s|
  {
    if |sub| > |s| {
      assert forall i: nat :: !OccursAt(s, sub, i);
    } else if s[..|sub|] == sub {
      assert OccursAt(s, sub, 0);
    } else {
      ContainsIffOccurs(s[1..], sub);
      if Contains(s[1..], sub) {
        var i: nat :| OccursAt(s[1..], sub, i);
        assert s[i + 1..i + 1 + |sub|] == s[1..][i..i + |sub|];
        assert OccursAt(s, sub, i + 1);
      }
      if exists i: nat :: OccursAt(s, sub, i) {
        var i: nat :| OccursAt(s, sub, i);
        assert i != 0;
        assert s[1..][i - 1..i - 1 + |sub|] == s[i..i + |sub|];
        assert OccursAt(s[1..], sub, i - 1);
      }
    }
  }

  // ---------------------------------------------------------------------
  // strconv.Atoi
  // ---------------------------------------------------------------------

  /** Bounds of Go's `int` on a 64-bit platform. */
  const MinInt: int := -0x8000_0000_0000_0000
  const MaxInt: int := 0x7fff_ffff_ffff_ffff

  predicate IsDigit(c: char) {
    '0' <= c <= '9'
  }

  predicate AllDigits(s: string) {
    forall i :: 0 <= i < |s| ==> IsDigit(s[i])
  }

  function DigitValue(c: char): nat
    requires IsDigit(c)
  {
    c as int - '0' as int
  }

  /** The value of a string of decimal digits, most significant first. */
  function DigitsValue(s: string): nat
    requires AllDigits(s)
  {
    if s == [] then 0 else DigitsValue(s[..|s| - 1]) * 10 + DigitValue(s[|s| - 1])
  }

  /** `strconv.Atoi`: an optional `+` or `-` followed by at least one decimal
      digit, whose value fits in a 64-bit `int`; anything else is an error
      (`None`). */
  function Atoi(s: string): (r: Option<int>)
    ensures r.Some? ==> MinInt <= r.value <= MaxInt
  {
    var negative := |s| > 0 && s[0] == '-';
    var digits := if |s| > 0 && (s[0] == '-' || s[0] == '+') then s[1..] else s;
    if digits == [] || !AllDigits(digits) then None
    else
      var magnitude: int := DigitsValue(digits);
      var n := if negative then -magnitude else magnitude;
      if MinInt <= n <= MaxInt then Some(n) else None
  }

  // The decimal rendering of an int (strconv.Itoa), used to state what Atoi
  // accepts.

  function DigitChar(d: nat): (c: char)
    requires d < 10
    ensures IsDigit(c) && DigitValue(c) == d
  {
    ('0' as int + d) as char
  }

  function FormatNat(n: nat): (s: string)
    ensures |s| >= 1 && AllDigits(s)
    decreases n
  {
    if n < 10 then [DigitChar(n)] else FormatNat(n / 10) + [DigitChar(n % 10)]
  }

  function FormatInt(n: int): string {
    if n < 0 then "-" + FormatNat(-n) else FormatNat(n)
  }

  lemma {:induction false} DigitsValueFormatNat(n: nat)
    ensures DigitsValue(FormatNat(n)) == n
    decreases n
  {
    var s := FormatNat(n);
    if n >= 10 {
      DigitsValueFormatNat(n / 10);
      assert s[..|s| - 1] == FormatNat(n / 10);
    }
  }

  /** Every 64-bit integer, written in decimal, parses back to itself. */
  lemma AtoiFormatInt(n: int)
    requires MinInt <= n <= MaxInt
    ensures Atoi(FormatInt(n)) == Some(n)
  {
    if n < 0 {
      DigitsValueFormatNat(-n);
      assert FormatInt(n)[1..] == FormatNat(-n);
    } else {
      DigitsValueFormatNat(n);
      assert IsDigit(FormatNat(n)[0]);
    }
  }

  // What Atoi accepts, for every string: a sign, leading zeros, and the
  // canonical digits of the magnitude.

  function Zeros(z: nat): (s: string)
    ensures |s| == z && AllDigits(s)
  {
    if z == 0 then [] else "0" + Zeros(z - 1)
  }

  /** `s` is `n` written in decimal after some number of leading zeros. */
  ghost predicate PaddedDecimal(s: string, n: nat) {
    exists z: nat :: s == Zeros(z) + FormatNat(n)
  }

  lemma {:induction false} LeadingZeroValue(t: string)
    requires AllDigits(t)
    ensures AllDigits("0" + t) && DigitsValue("0" + t) == DigitsValue(t)
    decreases |t|
  {
    if t != [] {
      var u := "0" + t;
      assert u[..|u| - 1] == "0" + t[..|t| - 1];
      LeadingZeroValue(t[..|t| - 1]);
    } else {
      assert ("0" + t)[..0] == [];
    }
  }

  lemma PadOne(z: nat, t: string)
    ensures "0" + (Zeros(z) + t) == Zeros(z + 1) + t
  {
    assert Zeros(z + 1) == "0" + Zeros(z);
  }

  lemma {:induction false} PaddedValue(z: nat, t: string)
    requires AllDigits(t)
    ensures AllDigits(Zeros(z) + t) && DigitsValue(Zeros(z) + t) == DigitsValue(t)
    decreases z
  {
    if z > 0 {
      PaddedValue(z - 1, t);
      PadOne(z - 1, t);
      LeadingZeroValue(Zeros(z - 1) + t);
    } else {
      assert Zeros(z) + t == t;
    }
  }

  lemma {:induction false} LeadingNonZeroPositive(t: string)
    requires AllDigits(t) && |t| > 0 && t[0] != '0'
    ensures DigitsValue(t) > 0
    decreases |t|
  {
    if |t| > 1 {
      LeadingNonZeroPositive(t[..|t| - 1]);
    }
  }

  /** A digit string without a superfluous leading zero is the canonical
      rendering of its value. */
  lemma {:induction false} CanonicalDigits(t: string)
    requires AllDigits(t) && |t| > 0 && (|t| == 1 || t[0] != '0')
    ensures FormatNat(DigitsValue(t)) == t
    decreases |t|
  {
    if |t| > 1 {
      var front := t[..|t| - 1];
      CanonicalDigits(front);
      LeadingNonZeroPositive(front);
      var v := DigitsValue(t);
      assert v / 10 == DigitsValue(front) && v % 10 == DigitValue(t[|t| - 1]);
      assert t == front + [t[|t| - 1]];
    }
  }

  /** Every non-empty digit string is its value in decimal after some zeros. */
  lemma {:induction false} DigitsArePadded(d: string)
    requires AllDigits(d) && |d| > 0
    ensures PaddedDecimal(d, DigitsValue(d))
    decreases |d|
  {
    var v := DigitsValue(d);
    if |d| == 1 || d[0] != '0' {
      CanonicalDigits(d);
      assert d == Zeros(0) + FormatNat(v);
    } else {
      var rest := d[1..];
      DigitsArePadded(rest);
      var z: nat :| rest == Zeros(z) + FormatNat(DigitsValue(rest));
      assert d == "0" + rest;
      LeadingZeroValue(rest);
      assert DigitsValue(rest) == v;
      PadOne(z, FormatNat(v));
      assert d == Zeros(z + 1) + FormatNat(v);
    }
  }

  /** Whatever Atoi accepts is a sign, leading zeros and canonical digits. */
  lemma AtoiSound(s: string, n: int)
    requires Atoi(s) == Some(n)
    ensures MinInt <= n <= MaxInt
    ensures || (n >= 0 && PaddedDecimal(s, n))
            || (n >= 0 && |s| > 0 && s[0] == '+' && PaddedDecimal(s[1..], n))
            || (n <= 0 && |s| > 0 && s[0] == '-' && PaddedDecimal(s[1..], -n))
  {
    var signed := |s| > 0 && (s[0] == '-' || s[0] == '+');
    var digits := if signed then s[1..] else s;
    DigitsArePadded(digits);
  }

  /** Zeros followed by a canonical decimal is an unsigned digit string
      denoting that value. */
  lemma PaddedDigits(z: nat, m: nat)
    ensures |Zeros(z) + FormatNat(m)| > 0
    ensures AllDigits(Zeros(z) + FormatNat(m))
    ensures DigitsValue(Zeros(z) + FormatNat(m)) == m
  {
    PaddedValue(z, FormatNat(m));
    DigitsValueFormatNat(m);
  }

  lemma AtoiPaddedUnsigned(s: string, n: int)
    requires 0 <= n <= MaxInt && PaddedDecimal(s, n)
    ensures Atoi(s) == Some(n)
  {
    var z: nat :| s == Zeros(z) + FormatNat(n);
    PaddedDigits(z, n);
    assert IsDigit(s[0]);
  }

  lemma AtoiPaddedPlus(s: string, n: int)
    requires 0 <= n <= MaxInt && |s| > 0 && s[0] == '+' && PaddedDecimal(s[1..], n)
    ensures Atoi(s) == Some(n)
  {
    var z: nat :| s[1..] == Zeros(z) + FormatNat(n);
    PaddedDigits(z, n);
  }

  lemma AtoiPaddedMinus(s: string, n: int)
    requires MinInt <= n <= 0 && |s| > 0 && s[0] == '-' && PaddedDecimal(s[1..], -n)
    ensures Atoi(s) == Some(n)
  {
    var z: nat :| s[1..] == Zeros(z) + FormatNat(-n);
    PaddedDigits(z, -n);
  }

  /** `Atoi(s)` is `Some(n)` exactly when `n` fits in 64 bits and `s` is `|n|`
      in decimal, possibly after leading zeros, preceded by nothing, by `+`
      (for `n >= 0`) or by `-` (for `n <= 0`). So "50", "+50", "050" and
      "+050" all read as 50. */
  lemma AtoiAccepts(s: string, n: int)
    ensures Atoi(s) == Some(n) <==>
              MinInt <= n <= MaxInt &&
              ( (n >= 0 && PaddedDecimal(s, n))
              || (n >= 0 && |s| > 0 && s[0] == '+' && PaddedDecimal(s[1..], n))
              || (n <= 0 && |s| > 0 && s[0] == '-' && PaddedDecimal(s[1..], -n)))
  {
    if Atoi(s) == Some(n) {
      AtoiSound(s, n);
    } else if MinInt <= n <= MaxInt {
      if n >= 0 && PaddedDecimal(s, n) {
        AtoiPaddedUnsigned(s, n);
      } else if n >= 0 && |s| > 0 && s[0] == '+' && PaddedDecimal(s[1..], n) {
        AtoiPaddedPlus(s, n);
      } else if n <= 0 && |s| > 0 && s[0] == '-' && PaddedDecimal(s[1..], -n) {
        AtoiPaddedMinus(s, n);
      }
    }
  }
}
