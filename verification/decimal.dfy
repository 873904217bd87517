/** Parsing of the `:id` path segment as an unsigned 64-bit decimal, the way Go's
    `strconv.ParseUint(s, 10, 64)` does it: no sign, no base prefix, no digit
    separators, and a range error for anything above 2^64 - 1. */
module Decimal {
  import opened Outcomes

  const MaxUint64: nat := 0xFFFF_FFFF_FFFF_FFFF
  const Modulus: nat := 0x1_0000_0000_0000_0000

  predicate IsDigit(c: char) {
    '0' <= c <= '9'
  }

  function DigitValue(c: char): nat
    requires IsDigit(c)
  {
    c as int - '0' as int
  }

  function DigitChar(d: nat): char
    requires d < 10
  {
    ('0' as int + d) as char
  }

  ghost predicate IsDigits(s: string) {
    forall i :: 0 <= i < |s| ==> IsDigit(s[i])
  }

  /** A string `strconv.ParseUint(_, 10, 64)` accepts. */
  ghost predicate IsUint64(s: string) {
    |s| > 0 && IsDigits(s) && Value(s) <= MaxUint64
  }

  /** The number a digit string denotes, most significant digit first. */
  function Value(s: string): nat
    requires IsDigits(s)
  {
    if s == [] then 0 else Value(s[..|s| - 1]) * 10 + DigitValue(s[|s| - 1])
  }

  /** The shortest decimal rendering of `n`, the partner of parsing. */
  function Render(n: nat): (s: string)
    ensures |s| > 0
  {
    if n < 10 then [DigitChar(n)] else Render(n / 10) + [DigitChar(n % 10)]
  }

  /** Rendering produces a digit string that denotes the number rendered. */
  lemma {:induction false} RenderDenotes(n: nat)
    ensures IsDigits(Render(n)) && Value(Render(n)) == n
  {
    var s := Render(n);
    if n >= 10 {
      RenderDenotes(n / 10);
      assert s[..|s| - 1] == Render(n / 10);
    }
  }

  /** A prefix of a digit string never denotes more than the whole string. */
  lemma {:induction false} PrefixValueBound(s: string, k: nat)
    requires IsDigits(s) && k <= |s|
    ensures IsDigits(s[..k]) && Value(s[..k]) <= Value(s)
    decreases |s|
  {
    if k == |s| {
      assert s[..k] == s;
    } else {
      var t := s[..|s| - 1];
      PrefixValueBound(t, k);
      assert t[..k] == s[..k];
    }
  }

  /** Go's accumulation loop: reject a non-digit, reject when the accumulator
      reaches the cutoff before multiplying, and reject when adding the digit
      wraps around or passes the maximum. */
  method ParseUint(s: string) returns (r: Option<nat>)
    ensures r.Some? <==> IsUint64(s)
    ensures r.Some? ==> r.value == Value(s)
  {
    if |s| == 0 {
      return None;
    }
    var cutoff := MaxUint64 / 10 + 1;
    var n := 0;
    var i := 0;
    while i < |s|
      invariant 0 <= i <= |s|
      invariant IsDigits(s[..i])
      invariant n == Value(s[..i]) && n <= MaxUint64
    {
      var c := s[i];
      assert s[..i + 1][..i] == s[..i];
      if !IsDigit(c) {
        return None;
      }
      if n >= cutoff {
        if IsDigits(s) {
          PrefixValueBound(s, i + 1);
        }
        return None;
      }
      var shifted := n * 10;
      var n1 := (shifted + DigitValue(c)) % Modulus;
      if n1 < shifted || n1 > MaxUint64 {
        if IsDigits(s) {
          PrefixValueBound(s, i + 1);
        }
        return None;
      }
      n := n1;
      i := i + 1;
    }
    assert s[..i] == s;
    return Some(n);
  }
}
