/**
 Decimal notation of non-negative integers: the string JavaScript produces
 for `n + ''` when `n` is a whole number below 10^21, and the value a string
 of decimal digits denotes.
 */
module Decimal {

  predicate IsDigit(c: char) {
    '0' <= c <= '9'
  }

  predicate AllDigits(s: string) {
    forall i :: 0 <= i < |s| ==> IsDigit(s[i])
  }

  function DigitChar(d: nat): (c: char)
    requires d < 10
    ensures IsDigit(c)
  {
    ('0' as int + d) as char
  }

  function DigitValue(c: char): (d: nat)
    requires IsDigit(c)
    ensures d < 10
  {
    c as int - '0' as int
  }

  function Pow10(k: nat): (p: nat)
    ensures p >= 1
  {
    if k == 0 then 1 else 10 * Pow10(k - 1)
  }

  /** The shortest decimal notation of `n`, without sign or leading zeros. */
  function NatToString(n: nat): (s: string)
    ensures |s| > 0 && AllDigits(s)
    ensures |s| > 1 ==> s[0] != '0'
  {
    if n < 10 then [DigitChar(n)] else NatToString(n / 10) + [DigitChar(n % 10)]
  }

  /** The number a string of decimal digits denotes, most significant digit first. */
  function ParseDigits(s: string): (n: nat)
    requires AllDigits(s)
  {
    if |s| == 0 then 0 else 10 * ParseDigits(s[..|s| - 1]) + DigitValue(s[|s| - 1])
  }

  /** Reading back a printed number gives the number. */
  lemma {:induction false} ParseNatToString(n: nat)
    ensures ParseDigits(NatToString(n)) == n
  {
    var s := NatToString(n);
    if n >= 10 {
      ParseNatToString(n / 10);
      assert s[..|s| - 1] == NatToString(n / 10);
    }
  }

  /** A string of `k` digits denotes a number below 10^k. */
  lemma {:induction false} ParseBound(s: string)
    requires AllDigits(s)
    ensures ParseDigits(s) < Pow10(|s|)
  {
    if |s| > 0 {
      ParseBound(s[..|s| - 1]);
    }
  }

  lemma {:induction false} Pow10Monotone(j: nat, k: nat)
    requires j <= k
    ensures Pow10(j) <= Pow10(k)
    decreases k
  {
    if j < k {
      Pow10Monotone(j, k - 1);
    }
  }

  /** Euclidean division has exactly one quotient and remainder. */
  lemma DivModUnique(n: int, m: int, q: int, b: int)
    requires m > 0 && 0 <= b < m && n == m * q + b
    ensures n / m == q && n % m == b
  {
    var q', b' := n / m, n % m;
    assert m * (q - q') == b' - b;
    MulAwayFromZero(m, q - q');
  }

  lemma MulAwayFromZero(m: int, x: int)
    requires m > 0
    ensures x >= 1 ==> m * x >= m
    ensures x <= -1 ==> m * x <= -m
  {
    assert m * x == m * (x - 1) + m;
    assert m * x == m * (x + 1) - m;
  }

  /** Appending digit `d` to a number `a` shifts its residue modulo `p` one place. */
  lemma ShiftMod(a: nat, p: nat, d: nat)
    requires p > 0 && d < 10
    ensures (10 * a + d) % (10 * p) == 10 * (a % p) + d
  {
    var q, r := a / p, a % p;
    assert a == p * q + r;
    assert 10 * a + d == (10 * p) * q + (10 * r + d);
    DivModUnique(10 * a + d, 10 * p, q, 10 * r + d);
  }

  /** The last `k` digits of a digit string denote its value modulo 10^k. */
  lemma {:induction false} SuffixValue(s: string, k: nat)
    requires AllDigits(s) && k <= |s|
    ensures ParseDigits(s[|s| - k..]) == ParseDigits(s) % Pow10(k)
    decreases k
  {
    var tail := s[|s| - k..];
    if k == 0 {
      assert tail == [];
    } else {
      var u := s[..|s| - 1];
      var d := DigitValue(s[|s| - 1]);
      SuffixValue(u, k - 1);
      assert tail[..|tail| - 1] == u[|u| - (k - 1)..];
      assert tail[|tail| - 1] == s[|s| - 1];
      ShiftMod(ParseDigits(u), Pow10(k - 1), d);
    }
  }

  /** Two digit strings of one length that denote the same number are equal. */
  lemma {:induction false} ParseInjective(s: string, t: string)
    requires AllDigits(s) && AllDigits(t) && |s| == |t|
    requires ParseDigits(s) == ParseDigits(t)
    ensures s == t
  {
    if |s| > 0 {
      var u, v := s[..|s| - 1], t[..|t| - 1];
      ParseInjective(u, v);
      assert s[|s| - 1] as int == t[|t| - 1] as int;
      assert s == u + [s[|s| - 1]];
      assert t == v + [t[|t| - 1]];
    }
  }
}
