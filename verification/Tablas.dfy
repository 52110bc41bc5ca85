/** The inverted page table and the chained hash index over it, as values. */
module Tablas {
  import opened Bytes
  import opened Decimal
  import opened Listas

  const LIBRE := -2
  const ADMIN := -1

  datatype Entrada = Entrada(frame: int, pid: int, pagina: int)

  datatype Mapa = Mapa(tabla: seq<Entrada>, indice: seq<seq<int>>)

  // ---- the hash ----

  /** The number `atoi` reads from the digits of `pid` followed by those of `pagina`. */
  function Concatenado(pid: nat, pagina: nat): nat {
    Atoi(Dec(pid) + Dec(pagina))
  }

  /** The pages the index can hold: `atoi` is undefined outside the range of `int`. */
  predicate Clave(pid: int, pagina: int) {
    0 <= pid && 0 <= pagina && Concatenado(pid, pagina) < TOPE31
  }

  /** What `Clave` bounds, in arithmetic: it also makes both numbers fit in an `int32_t`. */
  lemma {:induction false} ClaveAritmetica(pid: nat, pagina: nat)
    ensures Concatenado(pid, pagina) == pid * Pot10(|Dec(pagina)|) + pagina
    ensures Clave(pid, pagina) ==> pid < TOPE31 && pagina < TOPE31
  {
    AtoiConcat(Dec(pid), Dec(pagina));
    AtoiDec(pid);
    AtoiDec(pagina);
    ProductoMonotono(pid, 1, Pot10(|Dec(pagina)|));
  }

  /** A process that may use page `pagina` may use every page below it. */
  lemma {:induction false} ClaveHaciaAbajo(pid: nat, pagina: nat, menor: nat)
    requires Clave(pid, pagina) && menor <= pagina
    ensures Clave(pid, menor)
  {
    ClaveAritmetica(pid, pagina);
    ClaveAritmetica(pid, menor);
    DecMonotono(menor, pagina);
    Pot10Monotono(|Dec(menor)|, |Dec(pagina)|);
    ProductoMonotono(pid, Pot10(|Dec(menor)|), Pot10(|Dec(pagina)|));
  }

  lemma {:induction false} DecMonotono(a: nat, b: nat)
    requires a <= b
    ensures |Dec(a)| <= |Dec(b)|
    decreases b
  {
    if b >= 10 && a >= 10 {
      DecMonotono(a / 10, b / 10);
    }
  }

  lemma {:induction false} Pot10Monotono(a: nat, b: nat)
    requires a <= b
    ensures Pot10(a) <= Pot10(b)
  {
    if a < b {
      Pot10Monotono(a, b - 1);
    }
  }

  function CalcularPosicion(marcos: nat, pid: int, pagina: int): (pos: nat)
    requires marcos > 0 && Clave(pid, pagina)
    ensures pos < marcos
  {
    Concatenado(pid, pagina) % marcos
  }

  // ---- agreement of table and index ----

  predicate EsPagina(t: seq<Entrada>, f: int, pid: int, pagina: int)
    requires 0 <= f < |t|
  {
    t[f].pid == pid && t[f].pagina == pagina
  }

  predicate EntradaSana(t: seq<Entrada>, f: int)
    requires 0 <= f < |t|
  {
    t[f].frame == f && (t[f].pid == LIBRE || t[f].pid == ADMIN || Clave(t[f].pid, t[f].pagina))
  }

  /** Frame `f` holds a user page whose hash is `b`. */
  predicate EnCubeta(t: seq<Entrada>, b: int, f: int) {
    && 0 <= f < |t|
    && Clave(t[f].pid, t[f].pagina)
    && CalcularPosicion(|t|, t[f].pid, t[f].pagina) == b
  }

  /** Every user frame is in exactly the bucket of its page, once, and buckets hold nothing else. */
  ghost predicate Acuerdo(m: Mapa) {
    && |m.indice| == |m.tabla| > 0
    && (forall f :: 0 <= f < |m.tabla| ==> EntradaSana(m.tabla, f))
    && (forall b :: 0 <= b < |m.indice| ==> SinRepetidos(m.indice[b]))
    && (forall b, f :: 0 <= b < |m.indice| ==> (f in m.indice[b] <==> EnCubeta(m.tabla, b, f)))
  }

  ghost predicate EnRango(t: seq<Entrada>, c: seq<int>) {
    forall i :: 0 <= i < |c| ==> 0 <= c[i] < |t|
  }

  /** First frame of a bucket that holds the page, or -1. */
  ghost function Buscar(t: seq<Entrada>, c: seq<int>, pid: int, pagina: int): (f: int)
    requires EnRango(t, c)
    ensures f == -1 || (f in c && EsPagina(t, f, pid, pagina))
    ensures f == -1 <==> forall g :: g in c ==> !EsPagina(t, g, pid, pagina)
  {
    if c == [] then -1
    else if EsPagina(t, c[0], pid, pagina) then c[0]
    else Buscar(t, c[1..], pid, pagina)
  }

  /** No earlier frame of the bucket is the page. */
  lemma {:induction false} BuscarPrimero(t: seq<Entrada>, c: seq<int>, pid: int, pagina: int, i: nat)
    requires EnRango(t, c) && i < |c| && EsPagina(t, c[i], pid, pagina)
    requires forall j :: 0 <= j < i ==> !EsPagina(t, c[j], pid, pagina)
    ensures Buscar(t, c, pid, pagina) == c[i]
  {
    if i > 0 {
      BuscarPrimero(t, c[1..], pid, pagina, i - 1);
    }
  }

  lemma CubetaEnRango(m: Mapa, b: nat)
    requires Acuerdo(m) && b < |m.indice|
    ensures EnRango(m.tabla, m.indice[b])
  {
    forall i | 0 <= i < |m.indice[b]|
      ensures 0 <= m.indice[b][i] < |m.tabla|
    {
      assert m.indice[b][i] in m.indice[b];
      assert EnCubeta(m.tabla, b, m.indice[b][i]);
    }
  }

  /** The frame the server finds for a page, or -1: what `calcular_posicion` and `buscar_en_indice` give. */
  ghost function Marco(m: Mapa, pid: int, pagina: int): (f: int)
    requires Acuerdo(m) && Clave(pid, pagina)
  {
    var b := CalcularPosicion(|m.tabla|, pid, pagina);
    CubetaEnRango(m, b);
    Buscar(m.tabla, m.indice[b], pid, pagina)
  }

  /** Searching one bucket decides membership in the whole table. */
  lemma MarcoCorrecto(m: Mapa, pid: int, pagina: int)
    requires Acuerdo(m) && Clave(pid, pagina)
    ensures Marco(m, pid, pagina) == -1 <==> forall f :: 0 <= f < |m.tabla| ==> !EsPagina(m.tabla, f, pid, pagina)
    ensures Marco(m, pid, pagina) != -1 ==>
              0 <= Marco(m, pid, pagina) < |m.tabla| && EsPagina(m.tabla, Marco(m, pid, pagina), pid, pagina)
  {
  }

  ghost predicate PaginasUnicas(t: seq<Entrada>) {
    forall f, g :: 0 <= f < g < |t| && t[f].pid >= 0 ==> !EsPagina(t, g, t[f].pid, t[f].pagina)
  }

  /** With no page stored twice, the index answers `f` exactly when the table says `f`. */
  lemma MarcoExacto(m: Mapa, pid: int, pagina: int, f: nat)
    requires Acuerdo(m) && Clave(pid, pagina) && f < |m.tabla| && PaginasUnicas(m.tabla)
    ensures Marco(m, pid, pagina) == f <==> EsPagina(m.tabla, f, pid, pagina)
  {
  }

  // ---- bucket searches under change ----

  lemma {:induction false} BuscarIgual(t: seq<Entrada>, u: seq<Entrada>, c: seq<int>, p: int, q: int)
    requires EnRango(t, c) && |u| == |t|
    requires forall f :: f in c ==> t[f] == u[f]
    ensures Buscar(u, c, p, q) == Buscar(t, c, p, q)
  {
    if c != [] {
      BuscarIgual(t, u, c[1..], p, q);
    }
  }

  lemma {:induction false} BuscarAgregado(t: seq<Entrada>, c: seq<int>, f: int, p: int, q: int)
    requires EnRango(t, c) && 0 <= f < |t|
    ensures EnRango(t, c + [f])
    ensures Buscar(t, c + [f], p, q) ==
            if Buscar(t, c, p, q) != -1 then Buscar(t, c, p, q)
            else if EsPagina(t, f, p, q) then f else -1
  {
    if c == [] {
      assert c + [f] == [f];
    } else {
      assert (c + [f])[1..] == c[1..] + [f];
      BuscarAgregado(t, c[1..], f, p, q);
    }
  }

  lemma {:induction false} BuscarQuitado(t: seq<Entrada>, c: seq<int>, f: int, p: int, q: int)
    requires EnRango(t, c) && SinRepetidos(c)
    requires 0 <= f < |t| && !EsPagina(t, f, p, q)
    ensures EnRango(t, Quitar(c, f))
    ensures Buscar(t, Quitar(c, f), p, q) == Buscar(t, c, p, q)
  {
    QuitarMiembros(c, f);
    if c != [] && c[0] != f {
      BuscarQuitado(t, c[1..], f, p, q);
      assert ([c[0]] + Quitar(c[1..], f))[1..] == Quitar(c[1..], f);
    }
  }

  // ---- giving a frame to a page ----

  function Ocupar(m: Mapa, f: nat, pid: int, pagina: int): (r: Mapa)
    requires f < |m.tabla| && |m.indice| == |m.tabla| && Clave(pid, pagina)
  {
    var pos := CalcularPosicion(|m.tabla|, pid, pagina);
    Mapa(m.tabla[f := m.tabla[f].(pid := pid, pagina := pagina)],
         m.indice[pos := m.indice[pos] + [f]])
  }

  lemma OcuparConserva(m: Mapa, f: nat, pid: int, pagina: int)
    requires Acuerdo(m) && f < |m.tabla| && m.tabla[f].pid == LIBRE && Clave(pid, pagina)
    ensures Acuerdo(Ocupar(m, f, pid, pagina))
  {
    var r := Ocupar(m, f, pid, pagina);
    var pos := CalcularPosicion(|m.tabla|, pid, pagina);
    forall b | 0 <= b < |m.indice|
      ensures f !in m.indice[b]
    {
      assert !EnCubeta(m.tabla, b, f);
    }
    forall b, g | 0 <= b < |r.indice|
      ensures g in r.indice[b] <==> EnCubeta(r.tabla, b, g)
    {
      assert g in m.indice[b] <==> EnCubeta(m.tabla, b, g);
      if 0 <= g < |m.tabla| && g != f {
        assert r.tabla[g] == m.tabla[g];
      }
    }
    forall g | 0 <= g < |r.tabla|
      ensures EntradaSana(r.tabla, g)
    {
      assert EntradaSana(m.tabla, g);
    }
  }

  /** The new page is found in its frame, unless it was already mapped; every other search is unchanged. */
  lemma OcuparMarco(m: Mapa, f: nat, pid: int, pagina: int, p: int, q: int)
    requires Acuerdo(m) && f < |m.tabla| && m.tabla[f].pid == LIBRE && Clave(pid, pagina) && Clave(p, q)
    ensures Acuerdo(Ocupar(m, f, pid, pagina))
    ensures Marco(Ocupar(m, f, pid, pagina), p, q) ==
            if Marco(m, p, q) == -1 && p == pid && q == pagina then f else Marco(m, p, q)
  {
    OcuparConserva(m, f, pid, pagina);
    var r := Ocupar(m, f, pid, pagina);
    var b := CalcularPosicion(|m.tabla|, p, q);
    assert !EnCubeta(m.tabla, b, f);
    CubetaEnRango(m, b);
    BuscarIgual(m.tabla, r.tabla, m.indice[b], p, q);
    BuscarAgregado(r.tabla, m.indice[b], f, p, q);
    assert m.indice[b] + [] == m.indice[b];
  }

  // ---- taking a frame back ----

  function Vaciar(m: Mapa, f: nat): (r: Mapa)
    requires f < |m.tabla| && |m.indice| == |m.tabla| && Clave(m.tabla[f].pid, m.tabla[f].pagina)
  {
    var pos := CalcularPosicion(|m.tabla|, m.tabla[f].pid, m.tabla[f].pagina);
    Mapa(m.tabla[f := m.tabla[f].(pid := LIBRE, pagina := LIBRE)],
         m.indice[pos := Quitar(m.indice[pos], f)])
  }

  lemma VaciarConserva(m: Mapa, f: nat)
    requires Acuerdo(m) && f < |m.tabla| && Clave(m.tabla[f].pid, m.tabla[f].pagina)
    ensures Acuerdo(Vaciar(m, f))
  {
    hide Quitar;
    var r := Vaciar(m, f);
    var pos := CalcularPosicion(|m.tabla|, m.tabla[f].pid, m.tabla[f].pagina);
    QuitarMiembros(m.indice[pos], f);
    forall b, g | 0 <= b < |r.indice|
      ensures g in r.indice[b] <==> EnCubeta(r.tabla, b, g)
    {
      assert g in m.indice[b] <==> EnCubeta(m.tabla, b, g);
      if 0 <= g < |m.tabla| && g != f {
        assert r.tabla[g] == m.tabla[g];
      }
    }
    forall g | 0 <= g < |r.tabla|
      ensures EntradaSana(r.tabla, g)
    {
      assert EntradaSana(m.tabla, g);
    }
  }

  /** Searches for any other page are unchanged. */
  lemma VaciarMarco(m: Mapa, f: nat, p: int, q: int)
    requires Acuerdo(m) && f < |m.tabla| && Clave(m.tabla[f].pid, m.tabla[f].pagina)
    requires Clave(p, q) && !EsPagina(m.tabla, f, p, q)
    ensures Acuerdo(Vaciar(m, f))
    ensures Marco(Vaciar(m, f), p, q) == Marco(m, p, q)
  {
    hide Quitar;
    VaciarConserva(m, f);
    var r := Vaciar(m, f);
    var b := CalcularPosicion(|m.tabla|, p, q);
    var c := m.indice[b];
    var pos := CalcularPosicion(|m.tabla|, m.tabla[f].pid, m.tabla[f].pagina);
    CubetaEnRango(m, b);
    if b == pos {
      BuscarQuitado(m.tabla, c, f, p, q);
      QuitarMiembros(c, f);
      BuscarIgual(m.tabla, r.tabla, Quitar(c, f), p, q);
    } else {
      assert f in c ==> EnCubeta(m.tabla, b, f);
      BuscarIgual(m.tabla, r.tabla, c, p, q);
    }
  }

  // ---- end of a process ----

  predicate Duenio(t: seq<Entrada>, f: nat, pid: int)
    requires f < |t|
  {
    t[f].pid == pid
  }

  ghost function Finalizar(m: Mapa, pid: nat, i: nat): (r: Mapa)
    requires Acuerdo(m) && i <= |m.tabla|
    ensures Acuerdo(r) && |r.tabla| == |m.tabla|
    decreases |m.tabla| - i
  {
    if i == |m.tabla| then m
    else if m.tabla[i].pid == pid then
      assert EntradaSana(m.tabla, i);
      VaciarConserva(m, i);
      Finalizar(Vaciar(m, i), pid, i + 1)
    else Finalizar(m, pid, i + 1)
  }

  /** Exactly the frames of the process are given back. */
  lemma {:induction false} FinalizarTabla(m: Mapa, pid: nat, i: nat)
    requires Acuerdo(m) && i <= |m.tabla|
    ensures forall f :: 0 <= f < |m.tabla| ==>
              Finalizar(m, pid, i).tabla[f] ==
              if i <= f && m.tabla[f].pid == pid then Entrada(f, LIBRE, LIBRE) else m.tabla[f]
    decreases |m.tabla| - i
  {
    if i < |m.tabla| {
      assert EntradaSana(m.tabla, i);
      if m.tabla[i].pid == pid {
        VaciarConserva(m, i);
        FinalizarTabla(Vaciar(m, i), pid, i + 1);
      } else {
        FinalizarTabla(m, pid, i + 1);
      }
    }
  }

  /** No page of another process is lost, moved or shadowed. */
  lemma {:induction false} FinalizarMarco(m: Mapa, pid: nat, i: nat, p: int, q: int)
    requires Acuerdo(m) && i <= |m.tabla| && Clave(p, q) && p != pid
    ensures Marco(Finalizar(m, pid, i), p, q) == Marco(m, p, q)
    decreases |m.tabla| - i
  {
    hide Marco;
    if i < |m.tabla| {
      assert EntradaSana(m.tabla, i);
      if m.tabla[i].pid == pid {
        VaciarMarco(m, i, p, q);
        FinalizarMarco(Vaciar(m, i), pid, i + 1, p, q);
      } else {
        FinalizarMarco(m, pid, i + 1, p, q);
      }
    }
  }

  lemma FinalizarSinPaginas(m: Mapa, pid: nat, q: int)
    requires Acuerdo(m) && Clave(pid, q)
    ensures Marco(Finalizar(m, pid, 0), pid, q) == -1
  {
    FinalizarTabla(m, pid, 0);
    MarcoCorrecto(Finalizar(m, pid, 0), pid, q);
  }

  // ---- placement ----

  function Libres(t: seq<Entrada>, n: nat): (k: nat)
    requires n <= |t|
    ensures k <= n
  {
    if n == 0 then 0 else Libres(t, n - 1) + if t[n - 1].pid == LIBRE then 1 else 0
  }

  function Paginas(t: seq<Entrada>, pid: int, n: nat): (k: nat)
    requires n <= |t|
    ensures k <= n
  {
    if n == 0 then 0 else Paginas(t, pid, n - 1) + if t[n - 1].pid == pid then 1 else 0
  }

  lemma {:induction false} LibresOcupado(t: seq<Entrada>, f: nat, e: Entrada, n: nat)
    requires n <= |t| && f < |t| && t[f].pid == LIBRE && e.pid != LIBRE
    ensures Libres(t[f := e], n) == Libres(t, n) - if f < n then 1 else 0
  {
    if n > 0 {
      LibresOcupado(t, f, e, n - 1);
    }
  }

  /** First free frame at or after `desde`; `|t|` when there is none. */
  function PrimeroLibre(t: seq<Entrada>, desde: nat): (f: nat)
    requires desde <= |t|
    ensures desde <= f <= |t|
    ensures f < |t| ==> t[f].pid == LIBRE
    ensures forall g :: desde <= g < f ==> t[g].pid != LIBRE
    decreases |t| - desde
  {
    if desde == |t| || t[desde].pid == LIBRE then desde else PrimeroLibre(t, desde + 1)
  }

  lemma {:induction false} HayLibre(t: seq<Entrada>, n: nat)
    requires n <= |t| && Libres(t, n) > 0
    ensures exists f :: 0 <= f < n && t[f].pid == LIBRE
  {
    if t[n - 1].pid != LIBRE {
      HayLibre(t, n - 1);
    }
  }

  /** The wrap-around probe always meets a free frame when one exists. */
  function Hueco(t: seq<Entrada>, pos: nat): (f: nat)
    requires pos <= |t| && Libres(t, |t|) > 0
    ensures f < |t| && t[f].pid == LIBRE
    ensures forall g :: pos <= g < |t| && t[g].pid == LIBRE ==> pos <= f <= g
    ensures f < pos ==> forall g :: 0 <= g < f ==> t[g].pid != LIBRE
  {
    HayLibre(t, |t|);
    var f := PrimeroLibre(t, pos);
    if f < |t| then f else PrimeroLibre(t, 0)
  }

  function HuecoDePagina(t: seq<Entrada>, pid: int, pagina: int): (f: nat)
    requires Libres(t, |t|) > 0 && Clave(pid, pagina)
    ensures f < |t| && t[f].pid == LIBRE
  {
    HayLibre(t, |t|);
    Hueco(t, CalcularPosicion(|t|, pid, pagina))
  }

  /** The map after page `pagina` of the process gets the frame its probe finds. */
  ghost function Siguiente(m: Mapa, pid: nat, pagina: nat): (r: Mapa)
    requires Acuerdo(m) && Libres(m.tabla, |m.tabla|) > 0 && Clave(pid, pagina)
    ensures Acuerdo(r) && |r.tabla| == |m.tabla|
    ensures Libres(r.tabla, |r.tabla|) == Libres(m.tabla, |m.tabla|) - 1
  {
    var f := HuecoDePagina(m.tabla, pid, pagina);
    OcuparConserva(m, f, pid, pagina);
    LibresOcupado(m.tabla, f, m.tabla[f].(pid := pid, pagina := pagina), |m.tabla|);
    Ocupar(m, f, pid, pagina)
  }

  lemma SiguienteTabla(m: Mapa, pid: nat, pagina: nat, g: nat)
    requires Acuerdo(m) && Libres(m.tabla, |m.tabla|) > 0 && Clave(pid, pagina) && g < |m.tabla|
    ensures Siguiente(m, pid, pagina).tabla[g] ==
            if g == HuecoDePagina(m.tabla, pid, pagina) then Entrada(g, pid, pagina) else m.tabla[g]
  {
    assert EntradaSana(m.tabla, g);
  }

  lemma SiguienteMarco(m: Mapa, pid: nat, pagina: nat, p: int, q: int)
    requires Acuerdo(m) && Libres(m.tabla, |m.tabla|) > 0 && Clave(pid, pagina) && Clave(p, q)
    ensures Marco(Siguiente(m, pid, pagina), p, q) ==
            if Marco(m, p, q) == -1 && p == pid && q == pagina then HuecoDePagina(m.tabla, pid, pagina)
            else Marco(m, p, q)
  {
    OcuparMarco(m, HuecoDePagina(m.tabla, pid, pagina), pid, pagina, p, q);
  }

  /** Pages `i..n` can be placed. */
  ghost predicate Colocables(m: Mapa, pid: nat, i: nat, n: nat) {
    && Acuerdo(m) && i <= n && n - i <= Libres(m.tabla, |m.tabla|)
    && forall j :: i <= j < n ==> Clave(pid, j)
  }

  /** Pages `i..n` of a process placed one after the other. */
  ghost function Colocar(m: Mapa, pid: nat, i: nat, n: nat): (r: Mapa)
    requires Colocables(m, pid, i, n)
    ensures Acuerdo(r) && |r.tabla| == |m.tabla|
    decreases n - i
  {
    if i == n then m else Colocar(Siguiente(m, pid, i), pid, i + 1, n)
  }

  /** The frames chosen for pages `i..n`, in order. */
  ghost function Elegidos(m: Mapa, pid: nat, i: nat, n: nat): (fs: seq<nat>)
    requires Colocables(m, pid, i, n)
    ensures |fs| == n - i
    decreases n - i
  {
    if i == n then []
    else [HuecoDePagina(m.tabla, pid, i)] + Elegidos(Siguiente(m, pid, i), pid, i + 1, n)
  }

  lemma {:induction false} ElegidoLibre(m: Mapa, pid: nat, i: nat, n: nat, k: nat)
    requires Colocables(m, pid, i, n) && k < n - i
    ensures Elegidos(m, pid, i, n)[k] < |m.tabla| && m.tabla[Elegidos(m, pid, i, n)[k]].pid == LIBRE
    ensures k > 0 ==> Elegidos(m, pid, i, n)[k] != Elegidos(m, pid, i, n)[0]
    decreases n - i
  {
    hide Siguiente, Acuerdo;
    if k > 0 {
      ElegidoLibre(Siguiente(m, pid, i), pid, i + 1, n, k - 1);
      SiguienteTabla(m, pid, i, Elegidos(m, pid, i, n)[k]);
    }
  }

  lemma {:induction false} ElegidosDistintos(m: Mapa, pid: nat, i: nat, n: nat, k: nat, l: nat)
    requires Colocables(m, pid, i, n) && k < l < n - i
    ensures Elegidos(m, pid, i, n)[k] != Elegidos(m, pid, i, n)[l]
    decreases n - i
  {
    hide Siguiente, Acuerdo;
    if k == 0 {
      ElegidoLibre(m, pid, i, n, l);
    } else {
      ElegidosDistintos(Siguiente(m, pid, i), pid, i + 1, n, k - 1, l - 1);
    }
  }

  lemma {:induction false} ColocarAjeno(m: Mapa, pid: nat, i: nat, n: nat, f: nat)
    requires Colocables(m, pid, i, n) && f < |m.tabla| && f !in Elegidos(m, pid, i, n)
    ensures Colocar(m, pid, i, n).tabla[f] == m.tabla[f]
    decreases n - i
  {
    hide Siguiente, Acuerdo;
    if i < n {
      SiguienteTabla(m, pid, i, f);
      ColocarAjeno(Siguiente(m, pid, i), pid, i + 1, n, f);
    }
  }

  lemma {:induction false} ColocarPropio(m: Mapa, pid: nat, i: nat, n: nat, k: nat)
    requires Colocables(m, pid, i, n) && k < n - i
    ensures var f := Elegidos(m, pid, i, n)[k];
            f < |m.tabla| && Colocar(m, pid, i, n).tabla[f] == Entrada(f, pid, i + k)
    decreases n - i
  {
    hide Siguiente, Acuerdo;
    var m1 := Siguiente(m, pid, i);
    if k == 0 {
      var f, resto := HuecoDePagina(m.tabla, pid, i), Elegidos(m1, pid, i + 1, n);
      SiguienteTabla(m, pid, i, f);
      forall l | 0 <= l < |resto|
        ensures resto[l] != f
      {
        ElegidoLibre(m1, pid, i + 1, n, l);
      }
      ColocarAjeno(m1, pid, i + 1, n, f);
    } else {
      ColocarPropio(m1, pid, i + 1, n, k - 1);
    }
  }

  /** Each page gets its own frame, free before; no other entry of the table changes. */
  lemma ColocarTabla(m: Mapa, pid: nat, n: nat)
    requires Colocables(m, pid, 0, n)
    ensures var fs := Elegidos(m, pid, 0, n);
            var t := Colocar(m, pid, 0, n).tabla;
            && (forall k :: 0 <= k < n ==>
                fs[k] < |t| && m.tabla[fs[k]].pid == LIBRE && t[fs[k]] == Entrada(fs[k], pid, k))
            && (forall k, l :: 0 <= k < l < n ==> fs[k] != fs[l])
            && (forall f: nat :: f < |t| && f !in fs ==> t[f] == m.tabla[f])
  {
    hide Acuerdo, Colocar, Elegidos;
    var fs, t := Elegidos(m, pid, 0, n), Colocar(m, pid, 0, n).tabla;
    forall k | 0 <= k < n
      ensures fs[k] < |t| && m.tabla[fs[k]].pid == LIBRE && t[fs[k]] == Entrada(fs[k], pid, k)
    {
      ElegidoLibre(m, pid, 0, n, k);
      ColocarPropio(m, pid, 0, n, k);
    }
    forall k, l | 0 <= k < l < n
      ensures fs[k] != fs[l]
    {
      ElegidosDistintos(m, pid, 0, n, k, l);
    }
    forall f: nat | f < |t| && f !in fs
      ensures t[f] == m.tabla[f]
    {
      ColocarAjeno(m, pid, 0, n, f);
    }
  }

  /** After placement exactly the requested pages are new to the index. */
  lemma {:induction false} ColocarMarco(m: Mapa, pid: nat, i: nat, n: nat, p: int, q: int)
    requires Colocables(m, pid, i, n) && Clave(p, q)
    ensures var r := Colocar(m, pid, i, n);
            && (Marco(m, p, q) != -1 || p != pid || !(i <= q < n) ==> Marco(r, p, q) == Marco(m, p, q))
            && (Marco(m, p, q) == -1 && p == pid && i <= q < n ==> Marco(r, p, q) == Elegidos(m, pid, i, n)[q - i])
    decreases n - i
  {
    hide Siguiente, Acuerdo, Marco, Clave;
    if i < n {
      SiguienteMarco(m, pid, i, p, q);
      ColocarMarco(Siguiente(m, pid, i), pid, i + 1, n, p, q);
    }
  }
}
