/** The text a file's metadata keeps: decimal numerals and the bracketed list of its blocks. */
module Metadatos {
  import opened Decimal

  /** The `d`-digit numeral of `n`, with leading zeros. */
  function Fijo(n: nat, d: nat): (s: string)
    ensures |s| == d
  {
    if d == 0 then "" else Fijo(n / 10, d - 1) + [Digito(n % 10)]
  }

  lemma {:induction false} FijoDec(n: nat)
    ensures Fijo(n, |Dec(n)|) == Dec(n)
  {
    if n < 10 {
      assert Fijo(n / 10, 0) == "";
    } else {
      FijoDec(n / 10);
    }
  }

  lemma UltimoDigito(q: nat, p: nat, r: nat)
    ensures (q * (10 * p) + r) / 10 == q * p + r / 10
    ensures (q * (10 * p) + r) % 10 == r % 10
  {
  }

  /** Peeling the leading digit instead of the last one. */
  lemma {:induction false} FijoCabeza(q: nat, r: nat, d: nat)
    requires q < 10 && r < Pot10(d)
    ensures Fijo(q * Pot10(d) + r, d + 1) == [Digito(q)] + Fijo(r, d)
  {
    if d == 0 {
      assert q * Pot10(0) == q;
      assert Fijo(q / 10, 0) == "";
    } else {
      UltimoDigito(q, Pot10(d - 1), r);
      FijoCabeza(q, r / 10, d - 1);
      assert [Digito(q)] + Fijo(r / 10, d - 1) + [Digito(r % 10)] == [Digito(q)] + Fijo(r, d);
    }
  }

  lemma {:induction false} Pot10Crece(a: nat, b: nat)
    requires a < b
    ensures 10 * Pot10(a) <= Pot10(b)
  {
    if a + 1 < b {
      Pot10Crece(a, b - 1);
    }
  }

  /** The number of digits is the one exponent `k` with `10^(k-1) <= n < 10^k`, at least one. */
  lemma Digitos(n: nat, k: nat)
    requires k >= 1 && n < Pot10(k) && (k == 1 || Pot10(k - 1) <= n)
    ensures k == |Dec(n)|
  {
    DecLargo(n);
    var m := |Dec(n)|;
    if k < m {
      if k < m - 1 {
        Pot10Crece(k, m - 1);
      }
    } else if m < k {
      if m < k - 1 {
        Pot10Crece(m, k - 1);
      }
    }
  }

  lemma MenorQueUno(a: int, p: nat)
    requires p > 0
    ensures (a as real) / (p as real) < 1.0 <==> a < p
  {
    var x := (a as real) / (p as real);
    assert x * (p as real) == a as real;
  }

  function Pot(b: int, k: nat): int {
    if k == 0 then 1 else b * Pot(b, k - 1)
  }

  lemma {:induction false} PotDiez(k: nat)
    ensures Pot(10, k) == Pot10(k)
  {
    if k > 0 {
      PotDiez(k - 1);
    }
  }

  /** Any base to any exponent, except that zero to the zero is zero. */
  method Potencia(nro: int, potencia: nat) returns (aux: int)
    ensures aux == if nro == 0 then 0 else Pot(nro, potencia)
    ensures nro == 10 ==> aux == Pot10(potencia)
  {
    PotDiez(potencia);
    if nro == 0 {
      return 0;
    }
    aux := 1;
    for i := 0 to potencia
      invariant aux == Pot(nro, i)
    {
      aux := aux * nro;
    }
  }

  /** What the digit loop prints: zero for a negative number. */
  function NoNegativo(n: int): nat {
    if n < 0 then 0 else n
  }

  /** The first loop of `int_to_str`: one more than the number of digits. */
  method ContarDigitos(number: int) returns (i: nat)
    ensures i == |Dec(NoNegativo(number))| + 1
  {
    hide Pot10, Dec;
    var flag := false;
    i := 1;
    while !flag
      invariant i >= 1 && (flag ==> i >= 2)
      invariant flag ==> number < Pot10(i - 1) && (i == 2 || Pot10(i - 2) <= number)
      invariant !flag ==> i == 1 || Pot10(i - 1) <= number
      decreases !flag, NoNegativo(number) - i
    {
      var p := Potencia(10, i);
      MenorQueUno(number, p);
      PotMayor(i);
      var aux := (number as real) / (p as real);
      if aux < 1.0 {
        flag := true;
      }
      i := i + 1;
    }
    Digitos(NoNegativo(number), i - 1);
  }

  /** One turn of the second loop: the digit of weight `10^d`, and what is left without it. */
  method SacarDigito(nro: int, d: nat) returns (resto: nat, queda: int)
    requires NoNegativo(nro) < Pot10(d + 1)
    ensures resto < 10 && NoNegativo(queda) < Pot10(d)
    ensures Fijo(NoNegativo(nro), d + 1) == [Digito(resto)] + Fijo(NoNegativo(queda), d)
  {
    hide Fijo;
    resto := 0;
    var p := Potencia(10, d);
    if nro > 0 {
      resto := nro / p;
    }
    PrimerDigito(NoNegativo(nro), d, resto);
    queda := nro - resto * p;
  }

  /** Below 2^24 the single-precision quotients of the original are exact enough to compare as reals. */
  method IntToStr(number: int) returns (retorno: array<char>)
    requires number < 0x100_0000
    ensures fresh(retorno) && retorno.Length == |Dec(NoNegativo(number))| + 1
    ensures retorno[..retorno.Length - 1] == Dec(NoNegativo(number))
    ensures retorno[retorno.Length - 1] == '\0'
  {
    hide Pot10, Dec, Fijo, NoNegativo, Digito;
    ghost var n := NoNegativo(number);
    var i := ContarDigitos(number);
    var digitos := i - 1;
    DecLargo(n);
    FijoDec(n);
    retorno := new char[i];
    var nro := number;
    i := 0;
    while i < digitos
      invariant 0 <= i <= digitos && retorno.Length == digitos + 1
      invariant NoNegativo(nro) < Pot10(digitos - i)
      invariant retorno[..i] + Fijo(NoNegativo(nro), digitos - i) == Dec(n)
    {
      ghost var hasta := retorno[..i];
      var resto: nat;
      resto, nro := SacarDigito(nro, digitos - i - 1);
      retorno[i] := Digito(resto);
      assert retorno[..i + 1] == hasta + [Digito(resto)];
      i := i + 1;
      assert hasta + ([Digito(resto)] + Fijo(NoNegativo(nro), digitos - i))
          == retorno[..i] + Fijo(NoNegativo(nro), digitos - i);
    }
    retorno[digitos] := '\0';
    assert retorno[..digitos] + "" == retorno[..digitos];
  }

  /** The quotient by the highest power is the leading digit, and the remainder the rest. */
  lemma PrimerDigito(n: nat, d: nat, q: nat)
    requires n < Pot10(d + 1) && q == n / Pot10(d)
    ensures q < 10 && 0 <= n - q * Pot10(d) < Pot10(d)
    ensures Fijo(n, d + 1) == [Digito(q)] + Fijo(n - q * Pot10(d), d)
  {
    CocienteDigito(n, Pot10(d), q);
    hide Pot10, Fijo;
    FijoCabeza(q, n - q * Pot10(d), d);
  }

  lemma CocienteDigito(n: nat, p: nat, q: nat)
    requires p > 0 && n < 10 * p && q == n / p
    ensures q < 10 && 0 <= n - q * p < p
  {
    assert n == q * p + n % p;
  }

  lemma {:induction false} PotMayor(k: nat)
    ensures Pot10(k) > k
  {
    if k > 0 {
      PotMayor(k - 1);
    }
  }

  /** The blocks' numerals joined by commas. */
  function Unir(xs: seq<string>): string {
    if xs == [] then ""
    else if |xs| == 1 then xs[0]
    else xs[0] + "," + Unir(xs[1..])
  }

  /** The bracketed list. */
  function Lista(xs: seq<string>): string {
    "[" + Unir(xs) + "]"
  }

  function Largos(xs: seq<string>): nat {
    if xs == [] then 0 else |xs[0]| + Largos(xs[1..])
  }

  lemma {:induction false} UnirLargo(xs: seq<string>)
    ensures |Unir(xs)| == Largos(xs) + (if xs == [] then 0 else |xs| - 1)
  {
    if |xs| > 1 {
      UnirLargo(xs[1..]);
    } else if |xs| == 1 {
      assert Largos(xs[1..]) == 0;
    }
  }

  lemma {:induction false} LargosMinimo(xs: seq<string>)
    requires forall k :: 0 <= k < |xs| ==> xs[k] != ""
    ensures Largos(xs) >= |xs|
  {
    if xs != [] {
      LargosMinimo(xs[1..]);
    }
  }

  /** The buffer of `2 * sum + 2` characters holds the list and its terminator exactly when there is a block. */
  lemma BufferAlcanza(xs: seq<string>)
    requires forall k :: 0 <= k < |xs| ==> xs[k] != ""
    ensures |Lista(xs)| + 1 <= 2 * Largos(xs) + 2 <==> xs != []
  {
  }

  /** Appends `s` and a terminator to the `largo` characters already in `a`. */
  method Strcat(a: array<char>, largo: nat, s: string) returns (fin: nat)
    requires largo + |s| < a.Length
    modifies a
    ensures fin == largo + |s| && a[..fin] == old(a[..largo]) + s && a[fin] == '\0'
  {
    ghost var antes := a[..largo];
    for i := 0 to |s|
      invariant a[..largo + i] == antes + s[..i]
    {
      a[largo + i] := s[i];
    }
    fin := largo + |s|;
    a[fin] := '\0';
    assert a[..fin] == antes + s[..|s|];
    assert s[..|s|] == s;
  }

  lemma UnirDesde(xs: seq<string>, i: nat)
    requires i < |xs|
    ensures Unir(xs[i..]) == xs[i] + (if i + 1 != |xs| then "," else "") + Unir(xs[i + 1..])
    ensures Largos(xs[i..]) == |xs[i]| + Largos(xs[i + 1..])
  {
  }

  method ArrayToWrite(array_: seq<string>) returns (charArray: array<char>)
    requires array_ != [] && forall k :: 0 <= k < |array_| ==> array_[k] != ""
    ensures fresh(charArray) && |Lista(array_)| < charArray.Length
    ensures charArray[..|Lista(array_)|] == Lista(array_)
    ensures charArray[|Lista(array_)|] == '\0'
  {
    BufferAlcanza(array_);
    assert array_[0..] == array_ && array_[|array_|..] == [];
    ghost var total := Lista(array_);
    assert Largos([]) == 0 && Unir([]) == "" && total == "[" + Unir(array_) + "]";
    hide Unir, Largos, Lista;
    var tamanioReal := 0;
    for i := 0 to |array_|
      invariant tamanioReal + Largos(array_[i..]) == Largos(array_)
    {
      UnirDesde(array_, i);
      tamanioReal := tamanioReal + |array_[i]|;
    }
    charArray := new char[tamanioReal * 2 + 2];
    var largo: nat := Strcat(charArray, 0, "[");
    for i := 0 to |array_|
      invariant largo < charArray.Length && charArray.Length == 2 * Largos(array_) + 2
      invariant charArray[..largo] + Unir(array_[i..]) + "]" == total
    {
      UnirDesde(array_, i);
      ghost var resto := Unir(array_[i + 1..]);
      ghost var antes := charArray[..largo];
      ghost var coma := if i + 1 != |array_| then "," else "";
      Reasociar(antes, array_[i], coma, resto);
      assert |total| == |antes| + |array_[i]| + |coma| + |resto| + 1;
      largo := Strcat(charArray, largo, array_[i]);
      if i + 1 != |array_| {
        largo := Strcat(charArray, largo, ",");
      } else {
        assert charArray[..largo] + "" == charArray[..largo];
      }
    }
    assert charArray[..largo] + "" == charArray[..largo];
    largo := Strcat(charArray, largo, "]");
  }

  lemma Reasociar(a: string, b: string, c: string, d: string)
    ensures a + (b + c + d) + "]" == a + b + c + d + "]"
    ensures |a + (b + c + d) + "]"| == |a| + |b| + |c| + |d| + 1
  {
  }

  /** The pieces of `s` between commas, the first of them continuing `actual`. */
  function Partir(s: string, actual: string): seq<string> {
    if s == "" then [actual]
    else if s[0] == ',' then [actual] + Partir(s[1..], "")
    else Partir(s[1..], actual + [s[0]])
  }

  lemma {:induction false} PartirPrefijo(s: string, t: string, actual: string)
    requires ',' !in s
    ensures Partir(s + t, actual) == Partir(t, actual + s)
  {
    if s == "" {
      assert s + t == t && actual + s == actual;
    } else {
      assert (s + t)[0] == s[0] && (s + t)[1..] == s[1..] + t;
      PartirPrefijo(s[1..], t, actual + [s[0]]);
      assert actual + [s[0]] + s[1..] == actual + s;
    }
  }

  lemma {:induction false} PartirUnir(xs: seq<string>)
    requires xs != [] && forall x :: x in xs ==> ',' !in x
    ensures Partir(Unir(xs), "") == xs
  {
    var x := xs[0];
    assert "" + x == x;
    if |xs| == 1 {
      assert x + "" == x;
      PartirPrefijo(x, "", "");
    } else {
      var cola := "," + Unir(xs[1..]);
      assert Unir(xs) == x + cola;
      PartirPrefijo(x, cola, "");
      assert cola[1..] == Unir(xs[1..]);
      PartirUnir(xs[1..]);
    }
  }

  function Textos(bloques: seq<nat>): (xs: seq<string>)
    ensures |xs| == |bloques|
    ensures forall k :: 0 <= k < |bloques| ==> xs[k] == Dec(bloques[k])
  {
    seq(|bloques|, k requires 0 <= k < |bloques| => Dec(bloques[k]))
  }

  /** The text a file's metadata holds determines its list of blocks. */
  lemma ListaDeterminaBloques(a: seq<nat>, b: seq<nat>)
    requires a != [] && b != [] && Lista(Textos(a)) == Lista(Textos(b))
    ensures a == b
  {
    var s, t := Lista(Textos(a)), Lista(Textos(b));
    assert s[1..|s| - 1] == Unir(Textos(a)) && t[1..|t| - 1] == Unir(Textos(b));
    PartirUnir(Textos(a));
    PartirUnir(Textos(b));
    forall k | 0 <= k < |a|
      ensures k < |b| && a[k] == b[k]
    {
      assert Textos(a)[k] == Textos(b)[k];
      AtoiDec(a[k]);
      AtoiDec(b[k]);
    }
  }

  /** Splitting the list at its commas and reading each numeral gives back the blocks. */
  lemma ListaIdaYVuelta(a: seq<nat>, k: nat)
    requires k < |a|
    ensures var s := Lista(Textos(a)); var xs := Partir(s[1..|s| - 1], "");
            |xs| == |a| && EsNumeral(xs[k]) && Atoi(xs[k]) == a[k]
  {
    var s := Lista(Textos(a));
    assert s[1..|s| - 1] == Unir(Textos(a));
    PartirUnir(Textos(a));
    AtoiDec(a[k]);
  }
}
