/** Runs over one heap page, seen from outside: a map from the address of each occupied block to its bytes. */
module HeapVivo {
  import opened Bytes
  import opened Heap

  // ---- a list of distinct addresses as a map ----

  function Tabla(v: seq<(int, seq<Byte>)>): (m: map<int, seq<Byte>>) {
    if v == [] then map[] else Tabla(v[1..])[v[0].0 := v[0].1]
  }

  lemma {:induction false} TablaTiene(v: seq<(int, seq<Byte>)>, y: int)
    ensures y in Tabla(v) ==> exists i :: 0 <= i < |v| && v[i] == (y, Tabla(v)[y])
  {
    if v != [] && y in Tabla(v) {
      if y == v[0].0 {
        assert v[0] == (y, Tabla(v)[y]);
      } else {
        TablaTiene(v[1..], y);
        var i :| 0 <= i < |v[1..]| && v[1..][i] == (y, Tabla(v[1..])[y]);
        assert v[i + 1] == (y, Tabla(v)[y]);
      }
    }
  }

  lemma {:induction false} TablaDe(v: seq<(int, seq<Byte>)>, i: nat)
    requires i < |v|
    ensures v[i].0 in Tabla(v)
  {
    if i > 0 {
      TablaDe(v[1..], i - 1);
    }
  }

  predicate Otra(v: seq<(int, seq<Byte>)>, y: int) {
    forall i :: 0 <= i < |v| ==> v[i].0 != y
  }

  lemma TablaSin(v: seq<(int, seq<Byte>)>, y: int)
    requires Otra(v, y)
    ensures y !in Tabla(v)
  {
    TablaTiene(v, y);
  }

  /** An entry whose address no other has, taken out or put in. */
  lemma {:induction false} TablaMedio(a: seq<(int, seq<Byte>)>, x: (int, seq<Byte>), c: seq<(int, seq<Byte>)>)
    requires Otra(a, x.0)
    ensures Tabla(a + [x] + c) == Tabla(a + c)[x.0 := x.1]
  {
    if a == [] {
      assert a + c == c && (a + [x] + c)[1..] == c;
    } else {
      var b := a[1..];
      assert (a + c)[1..] == b + c && (a + [x] + c)[1..] == b + [x] + c;
      TablaMedio(b, x, c);
      Conmutan(Tabla(b + c), a[0], x);
    }
  }

  lemma Conmutan(m: map<int, seq<Byte>>, x: (int, seq<Byte>), y: (int, seq<Byte>))
    requires x.0 != y.0
    ensures m[x.0 := x.1][y.0 := y.1] == m[y.0 := y.1][x.0 := x.1]
  {
  }

  // ---- the occupied blocks of a page ----

  /** Address and bytes of every occupied block. */
  function Ocupados(bs: seq<Bloque>): map<int, seq<Byte>> {
    Tabla(Vivos(bs, 0))
  }

  /** Two entries of the list are a header apart. */
  predicate Separados(x: (int, seq<Byte>), y: (int, seq<Byte>)) {
    y.0 + |y.1| + CAB <= x.0 || x.0 + |x.1| + CAB <= y.0
  }

  lemma DireccionesDistintas(bs: seq<Bloque>, a: seq<(int, seq<Byte>)>, x: (int, seq<Byte>), c: seq<(int, seq<Byte>)>)
    requires Vivos(bs, 0) == a + [x] + c
    ensures Otra(a, x.0) && Otra(a + c, x.0)
    ensures forall i :: 0 <= i < |a + c| ==> Separados(x, (a + c)[i])
  {
    hide Vivos;
    var v := a + [x] + c;
    forall i | 0 <= i < |a + c|
      ensures Separados(x, (a + c)[i])
    {
      if i < |a| {
        VivosDisjuntos(bs, 0, i, |a|);
      } else {
        VivosDisjuntos(bs, 0, |a|, i + 1);
      }
    }
    assert forall i :: 0 <= i < |a| ==> a[i] == (a + c)[i];
  }

  /** Entry `x` of the list is block `k`. */
  predicate EsBloque(bs: seq<Bloque>, base: nat, x: (int, seq<Byte>), k: nat) {
    k < |bs| && !bs[k].libre && x == (base + Lugar(bs, k) + CAB, bs[k].datos)
  }

  lemma LugarCola(bs: seq<Bloque>, k: nat)
    requires k < |bs|
    ensures Lugar(bs, k + 1) == CAB + |bs[0].datos| + Lugar(bs[1..], k)
  {
    assert bs[..k + 1][1..] == bs[1..][..k];
  }

  lemma {:induction false} VivoDeBloque(bs: seq<Bloque>, base: nat, i: nat) returns (k: nat)
    requires i < |Vivos(bs, base)|
    ensures EsBloque(bs, base, Vivos(bs, base)[i], k)
  {
    hide Lugar;
    if !bs[0].libre && i == 0 {
      LugarCero(bs);
      k := 0;
    } else {
      var j := if bs[0].libre then i else i - 1;
      k := VivoDeBloque(bs[1..], base + CAB + |bs[0].datos|, j);
      LugarCola(bs, k);
      k := k + 1;
    }
  }

  lemma {:induction false} LugarCrece(bs: seq<Bloque>, i: nat, k: nat)
    requires i < k <= |bs|
    ensures Lugar(bs, i) < Lugar(bs, k)
  {
    hide Lugar;
    LugarSiguiente(bs, k - 1);
    if i < k - 1 {
      LugarCrece(bs, i, k - 1);
    }
  }

  lemma OcupadoDeBloque(bs: seq<Bloque>, k: nat)
    requires k < |bs| && !bs[k].libre
    ensures Lugar(bs, k) + CAB in Ocupados(bs)
  {
    SoltarVivos(bs, k);
    var a, c := Vivos(bs[..k], 0), Vivos(bs[k + 1..], Lugar(bs, k) + CAB + |bs[k].datos|);
    hide Vivos, Lugar, Tabla;
    TablaDe(a + [(Lugar(bs, k) + CAB, bs[k].datos)] + c, |a|);
  }

  lemma BloqueDeOcupado(bs: seq<Bloque>, dir: int) returns (k: nat)
    requires dir in Ocupados(bs)
    ensures EsBloque(bs, 0, (dir, Ocupados(bs)[dir]), k)
  {
    hide Vivos, Tabla, EsBloque;
    TablaTiene(Vivos(bs, 0), dir);
    var i :| 0 <= i < |Vivos(bs, 0)| && Vivos(bs, 0)[i] == (dir, Ocupados(bs)[dir]);
    k := VivoDeBloque(bs, 0, i);
  }

  /** What a client may free or write: exactly the addresses of the map. */
  lemma OcupadoEn(bs: seq<Bloque>, dir: nat)
    ensures dir in Ocupados(bs) <==> BloqueEn(bs, dir) < |bs| && !bs[BloqueEn(bs, dir)].libre
    ensures dir in Ocupados(bs) ==> Ocupados(bs)[dir] == bs[BloqueEn(bs, dir)].datos
  {
    var k := BloqueEn(bs, dir);
    if dir in Ocupados(bs) {
      var j := BloqueDeOcupado(bs, dir);
      hide Ocupados, Lugar;
      if k < j {
        LugarCrece(bs, k, j);
      }
    } else if k < |bs| && !bs[k].libre {
      OcupadoDeBloque(bs, k);
      assert false;
    }
  }

  // ---- one step ----

  /** Block `r` of `n` bytes is at least a header apart from every other. */
  predicate Aparte(m: map<int, seq<Byte>>, r: int, n: nat) {
    forall a :: a in m ==> a + |m[a]| + CAB <= r || r + n + CAB <= a
  }

  /** A step of the map: a request adds a block apart from the others or nothing, a release removes its block, a write
      changes the bytes of its block. `r` is the address answered to a request. */
  predicate PasoMapa(m: map<int, seq<Byte>>, p: Paso, r: int, n: map<int, seq<Byte>>) {
    match p
    case Pedir(e) => if r == -1 then n == m else Aparte(m, r, e) && r in n && |n[r]| == e && n == m[r := n[r]]
    case Devolver(dir) => dir in m && n == m - {dir as int}
    case Anotar(dir, off, d) => dir in m && off + |d| <= |m[dir]| && n == m[dir as int := Empalme(m[dir], off, d)]
  }

  function Contestado(bs: seq<Bloque>, p: Paso): int {
    if p.Pedir? then Direccion(bs, p.espacio) else -1
  }

  lemma ListaMapa(v: seq<(int, seq<Byte>)>, x: (int, seq<Byte>))
    requires forall i :: 0 <= i < |v| ==> Separados(x, v[i])
    ensures Aparte(Tabla(v), x.0, |x.1|)
  {
    var m := Tabla(v);
    hide Tabla;
    forall y | y in m
      ensures y + |m[y]| + CAB <= x.0 || x.0 + |x.1| + CAB <= y
    {
      TablaTiene(v, y);
    }
  }

  lemma PedirMapa(bs: seq<Bloque>, e: nat)
    ensures PasoMapa(Ocupados(bs), Pedir(e), Direccion(bs, e), Ocupados(Reservar(bs, e)))
  {
    var k, r := PrimerAjuste(bs, e), Direccion(bs, e);
    hide Vivos, Lugar, PrimerAjuste, Tabla, Separados, Aparte, Otra;
    if r != -1 {
      ReservarVivos(bs, e);
      var a, c := Vivos(bs[..k], 0), Vivos(bs[k + 1..], Lugar(bs, k) + CAB + |bs[k].datos|);
      var x := (r, bs[k].datos[..e]);
      hide Reservar, Direccion;
      DireccionesDistintas(Reservar(bs, e), a, x, c);
      TablaMedio(a, x, c);
      ListaMapa(a + c, x);
    }
  }

  lemma DevolverMapa(bs: seq<Bloque>, dir: nat)
    requires Admisible(bs, Devolver(dir))
    ensures PasoMapa(Ocupados(bs), Devolver(dir), -1, Ocupados(Dar(bs, Devolver(dir))))
  {
    hide Vivos, Compactar, Lugar, Tabla, BloqueEn, Otra, Separados;
    var k := BloqueEn(bs, dir);
    LiberarVivos(bs, k);
    var a, c := Vivos(bs[..k], 0), Vivos(bs[k + 1..], Lugar(bs, k) + CAB + |bs[k].datos|);
    var x := (dir as int, bs[k].datos);
    hide Soltar;
    DireccionesDistintas(bs, a, x, c);
    TablaMedio(a, x, c);
    TablaSin(a + c, dir);
    PuestaYQuitada(Tabla(a + c), x);
  }

  lemma PuestaYQuitada(m: map<int, seq<Byte>>, x: (int, seq<Byte>))
    requires x.0 !in m
    ensures m[x.0 := x.1] - {x.0} == m
  {
  }

  lemma AnotarVivos(bs: seq<Bloque>, k: nat, d: seq<Byte>)
    requires k < |bs| && !bs[k].libre && |d| == |bs[k].datos|
    ensures var antes, despues := Vivos(bs[..k], 0), Vivos(bs[k + 1..], Lugar(bs, k) + CAB + |bs[k].datos|);
            && Vivos(bs, 0) == antes + [(Lugar(bs, k) + CAB, bs[k].datos)] + despues
            && Vivos(bs[k := Bloque(false, d)], 0) == antes + [(Lugar(bs, k) + CAB, d)] + despues
  {
    hide Vivos, Codificar, Imagen;
    var a, b, c, o := bs[..k], bs[k], bs[k + 1..], Lugar(bs, k);
    assert bs == a + [b] + c;
    assert bs[k := Bloque(false, d)] == a + [Bloque(false, d)] + c;
    VivosUno(b, o);
    VivosUno(Bloque(false, d), o);
    SustituirVivos(a, [b], [Bloque(false, d)], c);
  }

  lemma AnotarMapa(bs: seq<Bloque>, dir: nat, off: nat, d: seq<Byte>)
    requires Admisible(bs, Anotar(dir, off, d))
    ensures PasoMapa(Ocupados(bs), Anotar(dir, off, d), -1, Ocupados(Dar(bs, Anotar(dir, off, d))))
  {
    var k := BloqueEn(bs, dir);
    var b := Empalme(bs[k].datos, off, d);
    AnotarVivos(bs, k, b);
    var a, c := Vivos(bs[..k], 0), Vivos(bs[k + 1..], Lugar(bs, k) + CAB + |bs[k].datos|);
    hide Vivos, Lugar, Tabla, Empalme, BloqueEn, Otra, Separados;
    DireccionesDistintas(bs, a, (dir as int, bs[k].datos), c);
    TablaMedio(a, (dir as int, bs[k].datos), c);
    TablaMedio(a, (dir as int, b), c);
  }

  lemma DarMapa(bs: seq<Bloque>, p: Paso)
    requires Admisible(bs, p)
    ensures PasoMapa(Ocupados(bs), p, Contestado(bs, p), Ocupados(Dar(bs, p)))
  {
    hide Ocupados, PasoMapa, Reservar, Direccion, Compactar;
    match p
    case Pedir(e) => PedirMapa(bs, e);
    case Devolver(dir) => DevolverMapa(bs, dir);
    case Anotar(dir, off, d) => AnotarMapa(bs, dir, off, d);
  }

  // ---- runs ----

  /** The addresses answered along a run. */
  function Contestados(bs: seq<Bloque>, ps: seq<Paso>): (rs: seq<int>)
    ensures |rs| <= |ps|
    decreases |ps|
  {
    if ps == [] || !Admisible(bs, ps[0]) then []
    else [Contestado(bs, ps[0])] + Contestados(Dar(bs, ps[0]), ps[1..])
  }

  ghost predicate CorridaMapa(m: map<int, seq<Byte>>, ps: seq<Paso>, rs: seq<int>, n: map<int, seq<Byte>>)
    decreases |ps|
  {
    if ps == [] then rs == [] && n == m
    else |rs| > 0 && exists x :: PasoMapa(m, ps[0], rs[0], x) && CorridaMapa(x, ps[1..], rs[1..], n)
  }

  /** Any run of requests, releases and writes on a page is a run of the map of its occupied blocks. */
  lemma {:induction false} CorridaRefinaMapa(bs: seq<Bloque>, ps: seq<Paso>, cs: seq<Bloque>)
    requires Corrida(bs, ps, cs)
    ensures CorridaMapa(Ocupados(bs), ps, Contestados(bs, ps), Ocupados(cs))
    decreases |ps|
  {
    hide Ocupados, PasoMapa, Dar, Admisible, Contestado;
    if ps != [] {
      DarMapa(bs, ps[0]);
      var c := Dar(bs, ps[0]);
      CorridaRefinaMapa(c, ps[1..], cs);
      var rs := Contestados(bs, ps);
      assert rs[0] == Contestado(bs, ps[0]) && rs[1..] == Contestados(c, ps[1..]);
    }
  }

  /** The step leaves the block at `dir` alone. */
  predicate Ajeno(p: Paso, dir: int) {
    match p
    case Pedir(_) => true
    case Devolver(d) => d != dir
    case Anotar(d, _, _) => d != dir
  }

  /** A block neither given back nor written during a run is at its address with its bytes when the run ends. */
  lemma {:induction false} BloqueIntacto(bs: seq<Bloque>, ps: seq<Paso>, cs: seq<Bloque>, dir: int)
    requires Corrida(bs, ps, cs) && dir in Ocupados(bs)
    requires forall i :: 0 <= i < |ps| ==> Ajeno(ps[i], dir)
    ensures dir in Ocupados(cs) && Ocupados(cs)[dir] == Ocupados(bs)[dir]
    decreases |ps|
  {
    hide Ocupados, Dar, Admisible, Contestado;
    if ps != [] {
      DarMapa(bs, ps[0]);
      assert Ajeno(ps[0], dir);
      BloqueIntacto(Dar(bs, ps[0]), ps[1..], cs, dir);
    }
  }
}
