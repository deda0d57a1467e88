/**
 * Lower-case hexadecimal numerals as produced by JavaScript's
 * `Number.prototype.toString(16)` on a non-negative integer: no sign,
 * no prefix and no zero padding.  `FromHex` is the independent
 * parser the rendering is proved against.
 */
module Hex {

  predicate IsHexDigit(c: char) {
    ('0' <= c <= '9') || ('a' <= c <= 'f')
  }

  predicate IsHex(s: string) {
    forall i :: 0 <= i < |s| ==> IsHexDigit(s[i])
  }

  /** A numeral toString(16) can produce: non-empty, and no leading zero unless it is "0". */
  predicate Canonical(s: string) {
    && |s| >= 1
    && IsHex(s)
    && (s[0] == '0' ==> |s| == 1)
  }

  /** The digit of value `d`: '0'..'9', then 'a'..'f'. */
  function Digit(d: nat): (c: char)
    requires d < 16
    ensures IsHexDigit(c)
    ensures (c == '0') <==> d == 0
  {
    if d < 10 then ('0' as int + d) as char else ('a' as int + d - 10) as char
  }

  function DigitValue(c: char): (v: nat)
    requires IsHexDigit(c)
    ensures v < 16
    ensures Digit(v) == c
    ensures forall d: nat :: d < 16 && Digit(d) == c ==> d == v
  {
    if c <= '9' then (c - '0') as nat else (c - 'a') as nat + 10
  }

  /** Powers of sixteen. */
  function Pow16(k: nat): (p: nat)
    ensures p >= 1
  {
    if k == 0 then 1 else 16 * Pow16(k - 1)
  }

  /** The base-16 rendering of `n`, most significant digit first. */
  function ToHex(n: nat): (s: string)
    ensures Canonical(s)
    ensures n < 16 <==> |s| == 1
  {
    if n < 16 then [Digit(n)]
    else
      var prefix := ToHex(n / 16);
      assert prefix[0] != '0';
      prefix + [Digit(n % 16)]
  }

  /** The value of a hexadecimal numeral, read most significant digit first. */
  function FromHex(s: string): nat
    requires IsHex(s)
  {
    if s == [] then 0
    else FromHex(s[..|s| - 1]) * 16 + DigitValue(s[|s| - 1])
  }

  /** Parsing the rendering of `n` gives back `n`. */
  lemma {:induction false} FromToHex(n: nat)
    ensures FromHex(ToHex(n)) == n
  {
    var s := ToHex(n);
    if n < 16 {
      assert s[..0] == [];
    } else {
      var q, d := n / 16, n % 16;
      FromToHex(q);
      assert s == ToHex(q) + [Digit(d)];
      assert s[..|s| - 1] == ToHex(q);
      assert DigitValue(s[|s| - 1]) == d;
      assert FromHex(s) == q * 16 + d;
    }
  }

  /** A numeral without a leading zero digit denotes a positive number. */
  lemma {:induction false} CanonicalPositive(s: string)
    requires IsHex(s) && |s| >= 1 && s[0] != '0'
    ensures FromHex(s) >= 1
  {
    if |s| == 1 {
      assert s[..0] == [];
    } else {
      var p := s[..|s| - 1];
      assert p[0] == s[0];
      CanonicalPositive(p);
    }
  }

  /** Rendering the value of a canonical numeral gives back the numeral. */
  lemma {:induction false} ToFromHex(s: string)
    requires Canonical(s)
    ensures ToHex(FromHex(s)) == s
  {
    if |s| == 1 {
      assert s[..0] == [];
      assert s == [Digit(DigitValue(s[0]))];
    } else {
      var p := s[..|s| - 1];
      var d := DigitValue(s[|s| - 1]);
      assert p[0] == s[0];
      CanonicalPositive(p);
      ToFromHex(p);
      var n := FromHex(s);
      assert n == FromHex(p) * 16 + d;
      assert n / 16 == FromHex(p) && n % 16 == d;
      assert s == p + [s[|s| - 1]];
    }
  }

  /** A number below 16^k has at most k hexadecimal digits. */
  lemma {:induction false} ToHexLength(n: nat, k: nat)
    requires 1 <= k && n < Pow16(k)
    ensures |ToHex(n)| <= k
  {
    if n >= 16 {
      assert k >= 2;
      ToHexLength(n / 16, k - 1);
    }
  }
}
