/** Lists of numbers without repetitions, and taking a number out of a list. */
module Listas {

  predicate SinRepetidos(s: seq<int>) {
    forall i, j :: 0 <= i < j < |s| ==> s[i] != s[j]
  }

  /** The list without its first `x`. */
  function Quitar(s: seq<int>, x: int): (r: seq<int>)
    ensures |s| - 1 <= |r| <= |s|
  {
    if s == [] then []
    else if s[0] == x then s[1..]
    else [s[0]] + Quitar(s[1..], x)
  }

  lemma {:induction false} QuitarEs(s: seq<int>, x: int, i: nat)
    requires i < |s| && s[i] == x && forall j :: 0 <= j < i ==> s[j] != x
    ensures Quitar(s, x) == s[..i] + s[i + 1..]
  {
    if i > 0 {
      QuitarEs(s[1..], x, i - 1);
    }
  }

  /** Out of a list without repetitions every `x` is taken, and nothing else. */
  lemma {:induction false} QuitarMiembros(s: seq<int>, x: int)
    requires SinRepetidos(s)
    ensures SinRepetidos(Quitar(s, x)) && forall y :: y in Quitar(s, x) <==> y in s && y != x
    ensures x in s ==> |Quitar(s, x)| == |s| - 1
  {
    if s != [] {
      var t := s[1..];
      assert SinRepetidos(t);
      assert s[0] !in t;
      assert forall y :: y in s <==> y == s[0] || y in t;
      QuitarMiembros(t, x);
      var r := Quitar(t, x);
      if s[0] != x {
        assert forall y :: y in [s[0]] + r <==> y == s[0] || y in r;
        assert s[0] !in r;
      }
    }
  }
}
