/** Decimal numerals: `sprintf("%d")`, `atoi`, and the file system's own digit loop. */
module Decimal {

  function Pot10(k: nat): (p: nat)
    ensures p >= 1
  {
    if k == 0 then 1 else 10 * Pot10(k - 1)
  }

  predicate EsNumeral(s: string) {
    forall i :: 0 <= i < |s| ==> '0' <= s[i] <= '9'
  }

  function Digito(d: nat): (c: char)
    requires d < 10
    ensures '0' <= c <= '9' && c as int - '0' as int == d
  {
    ('0' as int + d) as char
  }

  /** The canonical decimal numeral of `n`. */
  function Dec(n: nat): (s: string)
    ensures |s| >= 1 && EsNumeral(s)
  {
    if n < 10 then [Digito(n)] else Dec(n / 10) + [Digito(n % 10)]
  }

  function Atoi(s: string): nat
    requires EsNumeral(s)
  {
    if s == [] then 0
    else 10 * Atoi(s[..|s| - 1]) + (s[|s| - 1] as int - '0' as int)
  }

  lemma {:induction false} AtoiDec(n: nat)
    ensures Atoi(Dec(n)) == n
  {
    if n < 10 {
      assert Dec(n)[..|Dec(n)| - 1] == [];
    } else {
      AtoiDec(n / 10);
      assert Dec(n)[..|Dec(n)| - 1] == Dec(n / 10);
    }
  }

  lemma PorDiez(x: nat, p: nat)
    ensures x * (10 * p) == 10 * (x * p)
  {
  }

  lemma {:induction false} AtoiConcat(s: string, t: string)
    requires EsNumeral(s) && EsNumeral(t)
    ensures Atoi(s + t) == Atoi(s) * Pot10(|t|) + Atoi(t)
  {
    if t == [] {
      assert s + t == s;
    } else {
      var u := t[..|t| - 1];
      AtoiConcat(s, u);
      assert (s + t)[..|s + t| - 1] == s + u;
      PorDiez(Atoi(s), Pot10(|u|));
    }
  }

  /** A numeral has as many digits as powers of ten it reaches. */
  lemma {:induction false} DecLargo(n: nat)
    ensures n < Pot10(|Dec(n)|)
    ensures n >= 10 ==> Pot10(|Dec(n)| - 1) <= n
    ensures n < 10 ==> |Dec(n)| == 1
  {
    if n >= 10 {
      DecLargo(n / 10);
      assert n / 10 < 10 ==> |Dec(n / 10)| == 1 && Pot10(1) == 10 * Pot10(0);
    } else {
      assert Pot10(1) == 10 * Pot10(0);
    }
  }
}
