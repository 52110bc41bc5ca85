/** The memory server as values: page table and index, frames, cache. Each operation follows the
    branches of the code; the lemmas relate it to a plain map from pages to bytes. */
module Modelo {
  import opened Bytes
  import opened Tablas
  import opened Cache
  import Heap

  type Opcion<T> = Heap.Opcion<T>

  /** `marcos` frames of `ms` bytes, the first `admin` of them taken by the page table;
      a cache of `entradas` lines, at most `cuota` of them for one process. */
  datatype Config = Config(marcos: nat, ms: nat, entradas: nat, cuota: int, admin: nat)

  /** `paginas[f]` is the content of frame `f`; the frames of the table itself are not shown. */
  datatype Estado = Estado(mapa: Mapa, paginas: seq<seq<Byte>>, cache: seq<Slot>)

  /** Frames needed by a table of 12 bytes an entry. */
  function PaginasAdmin(marcos: nat, ms: nat): (n: nat)
    requires ms > 0
  {
    12 * marcos / ms + if 12 * marcos % ms > 0 then 1 else 0
  }

  predicate Dimensiones(c: Config) {
    c.marcos > 0 && 12 <= c.ms < TOPE31 && c.marcos < TOPE31 && c.admin <= c.marcos
  }

  /** The page table fits in the memory it describes if and only if a frame holds one entry. */
  lemma AdminCabe(marcos: nat, ms: nat)
    requires marcos > 0 && ms > 0
    ensures PaginasAdmin(marcos, ms) <= marcos <==> ms >= 12
    ensures 12 * marcos <= PaginasAdmin(marcos, ms) * ms
  {
    var q, r, n := 12 * marcos / ms, 12 * marcos % ms, PaginasAdmin(marcos, ms);
    assert 12 * marcos == q * ms + r;
    assert n * ms == q * ms + if r > 0 then ms else 0;
    if ms >= 12 {
      ProductoMonotono(marcos, 12, ms);
      if n > marcos {
        ProductoMonotono(ms, marcos, q);
        assert false;
      }
    } else {
      ProductoMonotono(marcos, ms, 11);
      if n <= marcos {
        ProductoMonotono(ms, n, marcos);
        assert false;
      }
    }
  }

  /** One frame fewer would not hold the table. */
  lemma AdminMinimo(marcos: nat, ms: nat)
    requires marcos > 0 && ms > 0
    ensures (PaginasAdmin(marcos, ms) - 1) * ms < 12 * marcos
  {
    var q, r, n := 12 * marcos / ms, 12 * marcos % ms, PaginasAdmin(marcos, ms);
    assert 12 * marcos == q * ms + r;
    assert (n - 1) * ms == n * ms - ms;
    assert n * ms == q * ms + if r > 0 then ms else 0;
  }

  /** The frames of the table are marked as such, and no others. */
  predicate TablaProtegida(c: Config, t: seq<Entrada>) {
    forall f :: 0 <= f < |t| ==> (t[f].pid == ADMIN <==> f < c.admin)
  }

  /** A line in use holds a mapped page, and its bytes are those of the frame the index finds. */
  ghost predicate LineaCoherente(e: Estado, i: nat)
    requires Acuerdo(e.mapa) && |e.paginas| == |e.mapa.tabla| && i < |e.cache|
  {
    var s := e.cache[i];
    !Libre(s) ==>
      && Clave(s.pid, s.pagina)
      && 0 <= Marco(e.mapa, s.pid, s.pagina) < |e.paginas|
      && s.contenido == e.paginas[Marco(e.mapa, s.pid, s.pagina)]
  }

  ghost predicate Inv(c: Config, e: Estado) {
    && Dimensiones(c)
    && Acuerdo(e.mapa) && |e.mapa.tabla| == |e.paginas| == c.marcos && |e.cache| == c.entradas
    && TablaProtegida(c, e.mapa.tabla)
    && (forall f :: c.admin <= f < c.marcos ==> |e.paginas[f]| == c.ms)
    && Sana(e.cache)
    && (forall i :: 0 <= i < |e.cache| ==> |e.cache[i].contenido| == c.ms)
    && (forall i :: 0 <= i < |e.cache| ==> LineaCoherente(e, i))
  }

  lemma Forma(c: Config, e: Estado)
    requires Inv(c, e)
    ensures Dimensiones(c) && Acuerdo(e.mapa) && |e.mapa.tabla| == |e.paginas| == c.marcos && |e.cache| == c.entradas
    ensures Sana(e.cache)
  {
  }

  ghost predicate Mapeada(c: Config, e: Estado, pid: int, pagina: int)
    requires Inv(c, e)
  {
    Clave(pid, pagina) && Marco(e.mapa, pid, pagina) != -1
  }

  lemma MarcoUsuario(c: Config, e: Estado, pid: int, pagina: int)
    requires Inv(c, e) && Mapeada(c, e, pid, pagina)
    ensures c.admin <= Marco(e.mapa, pid, pagina) < c.marcos
    ensures |e.paginas[Marco(e.mapa, pid, pagina)]| == c.ms
    ensures EsPagina(e.mapa.tabla, Marco(e.mapa, pid, pagina), pid, pagina)
  {
    MarcoCorrecto(e.mapa, pid, pagina);
  }

  ghost function Contenido(c: Config, e: Estado, pid: int, pagina: int): (pg: seq<Byte>)
    requires Inv(c, e) && Mapeada(c, e, pid, pagina)
    ensures |pg| == c.ms
  {
    MarcoUsuario(c, e, pid, pagina);
    e.paginas[Marco(e.mapa, pid, pagina)]
  }

  // ---- the abstract memory ----

  datatype Pagina = Pagina(pid: int, numero: int)

  ghost function Claves(t: seq<Entrada>): set<Pagina> {
    set f | 0 <= f < |t| && t[f].pid >= 0 :: Pagina(t[f].pid, t[f].pagina)
  }

  lemma ClaveMapeada(c: Config, e: Estado, k: Pagina)
    requires Inv(c, e)
    ensures k in Claves(e.mapa.tabla) <==> Mapeada(c, e, k.pid, k.numero)
  {
    var t := e.mapa.tabla;
    if k in Claves(t) {
      var f :| 0 <= f < |t| && t[f].pid >= 0 && k == Pagina(t[f].pid, t[f].pagina);
      assert EntradaSana(t, f) && EsPagina(t, f, k.pid, k.numero);
      MarcoCorrecto(e.mapa, k.pid, k.numero);
    } else if Mapeada(c, e, k.pid, k.numero) {
      MarcoUsuario(c, e, k.pid, k.numero);
      assert false;
    }
  }

  /** The plain map from pages to bytes that the server implements. */
  ghost function Abs(c: Config, e: Estado): (a: map<Pagina, seq<Byte>>)
    requires Inv(c, e)
  {
    assert forall k :: k in Claves(e.mapa.tabla) <==> Mapeada(c, e, k.pid, k.numero) by {
      forall k: Pagina
        ensures k in Claves(e.mapa.tabla) <==> Mapeada(c, e, k.pid, k.numero)
      {
        ClaveMapeada(c, e, k);
      }
    }
    map k | k in Claves(e.mapa.tabla) :: Contenido(c, e, k.pid, k.numero)
  }

  lemma AbsEn(c: Config, e: Estado, k: Pagina)
    requires Inv(c, e)
    ensures k in Abs(c, e) <==> Mapeada(c, e, k.pid, k.numero)
    ensures k in Abs(c, e) ==> Abs(c, e)[k] == Contenido(c, e, k.pid, k.numero)
  {
    hide Acuerdo, Sana, Marco;
    ClaveMapeada(c, e, k);
  }

  // ---- replacing the bytes of a page, in memory and in the cache ----

  /** Page (pid, pagina) becomes `pg`, and the cache sees one access to it. */
  ghost function Publicar(c: Config, e: Estado, pid: int, pagina: int, pg: seq<Byte>): (r: Estado)
    requires Inv(c, e) && Mapeada(c, e, pid, pagina) && |pg| == c.ms
    ensures Inv(c, r) && r.mapa == e.mapa
  {
    var f := Marco(e.mapa, pid, pagina);
    MarcoUsuario(c, e, pid, pagina);
    var r := Estado(e.mapa, e.paginas[f := pg], Acceder(e.cache, c.cuota, pid, pagina, pg));
    AccederSana(e.cache, c.cuota, pid, pagina, pg);
    assert forall i :: 0 <= i < |r.cache| ==> LineaCoherente(r, i) && |r.cache[i].contenido| == c.ms by {
      forall i | 0 <= i < |r.cache|
        ensures LineaCoherente(r, i) && |r.cache[i].contenido| == c.ms
      {
        PublicarLinea(c, e, pid, pagina, pg, i);
      }
    }
    r
  }

  lemma PublicarLinea(c: Config, e: Estado, pid: int, pagina: int, pg: seq<Byte>, i: nat)
    requires Inv(c, e) && Mapeada(c, e, pid, pagina) && |pg| == c.ms && i < |e.cache|
    ensures 0 <= Marco(e.mapa, pid, pagina) < c.marcos
    ensures var r := Estado(e.mapa, e.paginas[Marco(e.mapa, pid, pagina) := pg],
        Acceder(e.cache, c.cuota, pid, pagina, pg));
            LineaCoherente(r, i) && |r.cache[i].contenido| == c.ms
  {
    var f := Marco(e.mapa, pid, pagina);
    MarcoUsuario(c, e, pid, pagina);
    AccederContenido(e.cache, c.cuota, pid, pagina, pg, i);
    assert LineaCoherente(e, i);
    var s := Acceder(e.cache, c.cuota, pid, pagina, pg)[i];
    if !Libre(s) && !Coincide(s, pid, pagina) {
      MarcoUsuario(c, e, s.pid, s.pagina);
    }
  }

  lemma PublicarAbs(c: Config, e: Estado, pid: int, pagina: int, pg: seq<Byte>)
    requires Inv(c, e) && Mapeada(c, e, pid, pagina) && |pg| == c.ms
    ensures Abs(c, Publicar(c, e, pid, pagina, pg)) == Abs(c, e)[Pagina(pid, pagina) := pg]
  {
    hide Acceder, Acuerdo, Sana, Abs;
    var r := Publicar(c, e, pid, pagina, pg);
    MarcoUsuario(c, e, pid, pagina);
    var a, b := Abs(c, e), Abs(c, r);
    forall k: Pagina
      ensures k in b <==> k in a || k == Pagina(pid, pagina)
      ensures k in b ==> b[k] == if k == Pagina(pid, pagina) then pg else a[k]
    {
      AbsEn(c, e, k);
      AbsEn(c, r, k);
      if k in a {
        MarcoUsuario(c, e, k.pid, k.numero);
      }
    }
  }

  // ---- reading and writing ----

  /** The line that holds a page, if any, holds its bytes. */
  lemma LineaRefleja(c: Config, e: Estado, pid: int, pagina: int)
    requires Inv(c, e) && Clave(pid, pagina)
    ensures Linea(e.cache, pid, pagina) >= 0 ==>
              Mapeada(c, e, pid, pagina)
                  && e.cache[Linea(e.cache, pid, pagina)].contenido == Contenido(c, e, pid, pagina)
  {
    var i := Linea(e.cache, pid, pagina);
    if i >= 0 {
      assert LineaCoherente(e, i) && LineaSana(e.cache[i]);
    }
  }

  lemma PublicarLoMismo(c: Config, e: Estado, pid: int, pagina: int)
    requires Inv(c, e) && Clave(pid, pagina)
    ensures Mapeada(c, e, pid, pagina) ==>
              Publicar(c, e, pid, pagina, Contenido(c, e, pid, pagina)) ==
              e.(cache := Acceder(e.cache, c.cuota, pid, pagina, Contenido(c, e, pid, pagina)))
  {
    hide Acuerdo, Sana, Acceder;
    if Mapeada(c, e, pid, pagina) {
      MarcoUsuario(c, e, pid, pagina);
      assert e.paginas[Marco(e.mapa, pid, pagina) := Contenido(c, e, pid, pagina)] == e.paginas;
    }
  }

  /** `lectura`, and `lecturaV2` inside one page: the cache first, then the index and memory. */
  ghost function Lectura(c: Config, e: Estado, pid: int, pagina: int, inicio: nat,
      largo: nat): (r: (Estado, Opcion<seq<Byte>>))
    requires Inv(c, e) && Clave(pid, pagina) && inicio + largo <= c.ms
    ensures r == if Mapeada(c, e, pid, pagina)
                 then (Publicar(c, e, pid, pagina, Contenido(c, e, pid, pagina)),
                       Heap.Algo(Contenido(c, e, pid, pagina)[inicio..inicio + largo]))
                 else (e, Heap.Nada)
  {
    LineaRefleja(c, e, pid, pagina);
    PublicarLoMismo(c, e, pid, pagina);
    var i := Linea(e.cache, pid, pagina);
    if i == -1 then
      var f := Marco(e.mapa, pid, pagina);
      if f == -1 then (e, Heap.Nada)
      else
        MarcoUsuario(c, e, pid, pagina);
        (e.(cache := Incorporar(e.cache, c.cuota, pid, pagina, e.paginas[f])),
         Heap.Algo(e.paginas[f][inicio..inicio + largo]))
    else
      (e.(cache := Reusar(e.cache, i, e.cache[i].contenido)),
       Heap.Algo(e.cache[i].contenido[inicio..inicio + largo]))
  }

  /** `escritura`: memory through the index, then the cache line if there is one. */
  ghost function Escritura(c: Config, e: Estado, pid: int, pagina: int, off: nat, d: seq<Byte>): (r: Estado)
    requires Inv(c, e) && Mapeada(c, e, pid, pagina) && off + |d| <= c.ms
    ensures r == Publicar(c, e, pid, pagina, Empalme(Contenido(c, e, pid, pagina), off, d))
  {
    LineaRefleja(c, e, pid, pagina);
    var f := Marco(e.mapa, pid, pagina);
    MarcoUsuario(c, e, pid, pagina);
    var pg := Empalme(e.paginas[f], off, d);
    var i := Linea(e.cache, pid, pagina);
    Estado(e.mapa, e.paginas[f := pg],
           if i >= 0 then Reusar(e.cache, i, Empalme(e.cache[i].contenido, off, d))
           else Incorporar(e.cache, c.cuota, pid, pagina, pg))
  }

  /** Cache and index are transparent: a read answers with the bytes of the abstract map, or nothing
      exactly when the page is not in it, whichever path served it. */
  lemma LecturaTransparente(c: Config, e: Estado, pid: int, pagina: int, inicio: nat, largo: nat)
    requires Inv(c, e) && Clave(pid, pagina) && inicio + largo <= c.ms
    ensures Inv(c, Lectura(c, e, pid, pagina, inicio, largo).0)
    ensures Abs(c, Lectura(c, e, pid, pagina, inicio, largo).0) == Abs(c, e)
    ensures Pagina(pid, pagina) in Abs(c, e) ==> |Abs(c, e)[Pagina(pid, pagina)]| == c.ms
    ensures Lectura(c, e, pid, pagina, inicio, largo).1 ==
            if Pagina(pid, pagina) in Abs(c, e) then Heap.Algo(Abs(c, e)[Pagina(pid, pagina)][inicio..inicio + largo])
            else Heap.Nada
  {
    hide Acuerdo, Sana, Abs, Publicar, Lectura;
    var k := Pagina(pid, pagina);
    AbsEn(c, e, k);
    if k in Abs(c, e) {
      PublicarAbs(c, e, pid, pagina, Contenido(c, e, pid, pagina));
      assert Abs(c, e)[k := Abs(c, e)[k]] == Abs(c, e);
    }
  }

  /** Write-through: memory and the cached copy take the same bytes. */
  lemma EscrituraTransparente(c: Config, e: Estado, pid: int, pagina: int, off: nat, d: seq<Byte>)
    requires Inv(c, e) && Mapeada(c, e, pid, pagina) && off + |d| <= c.ms
    ensures var r, k := Escritura(c, e, pid, pagina, off, d), Pagina(pid, pagina);
            && k in Abs(c, e) && |Abs(c, e)[k]| == c.ms
            && Abs(c, r) == Abs(c, e)[k := Empalme(Abs(c, e)[k], off, d)]
  {
    hide Acuerdo, Sana, Marco, Escritura, Publicar, Abs;
    AbsEn(c, e, Pagina(pid, pagina));
    PublicarAbs(c, e, pid, pagina, Empalme(Contenido(c, e, pid, pagina), off, d));
  }

  // ---- new pages ----

  /** The bytes of a frame after the first heap header is written over them. */
  function Formateada(c: Config, pg: seq<Byte>): (r: seq<Byte>)
    requires |pg| == c.ms && Dimensiones(c)
    ensures |r| == c.ms
  {
    Empalme(pg, 0, Heap.Cabecera(c.ms - Heap.CAB, true))
  }

  /** A new page is one free block. */
  lemma FormateadaEsUnBloque(c: Config, pg: seq<Byte>)
    requires |pg| == c.ms && Dimensiones(c)
    ensures Heap.Parsear(Formateada(c, pg)) == Heap.Algo([Heap.Bloque(true, pg[Heap.CAB..])])
  {
    Heap.PaginaNueva(pg);
    Heap.ParsearCodificar([Heap.Bloque(true, pg[Heap.CAB..])]);
  }

  /** Free frame `f` becomes page `n` of the process, formatted as one free block. */
  ghost function AgregarPagina(c: Config, e: Estado, f: nat, pid: int, n: int): (r: Estado)
    requires Inv(c, e) && f < c.marcos && e.mapa.tabla[f].pid == LIBRE && Clave(pid, n)
    ensures Inv(c, r)
  {
    assert f >= c.admin;
    var pg := Formateada(c, e.paginas[f]);
    OcuparConserva(e.mapa, f, pid, n);
    var r := Estado(Ocupar(e.mapa, f, pid, n), e.paginas[f := pg], e.cache);
    assert forall i :: 0 <= i < |r.cache| ==> LineaCoherente(r, i) by {
      forall i | 0 <= i < |r.cache|
        ensures LineaCoherente(r, i)
      {
        assert LineaCoherente(e, i) && LineaSana(e.cache[i]);
        var s := e.cache[i];
        if !Libre(s) {
          OcuparMarco(e.mapa, f, pid, n, s.pid, s.pagina);
          MarcoUsuario(c, e, s.pid, s.pagina);
        }
      }
    }
    r
  }

  lemma AgregarPaginaAbs(c: Config, e: Estado, f: nat, pid: int, n: int)
    requires Inv(c, e) && f < c.marcos && e.mapa.tabla[f].pid == LIBRE && Clave(pid, n)
    ensures var a, k := Abs(c, e), Pagina(pid, n);
            |e.paginas[f]| == c.ms &&
            Abs(c, AgregarPagina(c, e, f, pid, n)) == if k in a then a else a[k := Formateada(c, e.paginas[f])]
  {
    hide Acuerdo, Sana, Ocupar, Formateada, Marco, Abs;
    var r, a, k0 := AgregarPagina(c, e, f, pid, n), Abs(c, e), Pagina(pid, n);
    AbsEn(c, e, k0);
    var b := if k0 in a then a else a[k0 := Formateada(c, e.paginas[f])];
    forall k: Pagina
      ensures k in Abs(c, r) <==> k in b
      ensures k in b ==> Abs(c, r)[k] == b[k]
    {
      AbsEn(c, e, k);
      AbsEn(c, r, k);
      if Clave(k.pid, k.numero) {
        OcuparMarco(e.mapa, f, pid, n, k.pid, k.numero);
        if k in a {
          MarcoUsuario(c, e, k.pid, k.numero);
        }
      }
    }
  }

  /** `asignar_nueva_pagina`: the next page number by count, placed by hash. */
  ghost function NuevaPagina(c: Config, e: Estado, pid: nat): (r: (Estado, int))
    requires Inv(c, e) && Clave(pid, Paginas(e.mapa.tabla, pid, c.marcos))
    ensures Inv(c, r.0)
  {
    var t := e.mapa.tabla;
    if Libres(t, |t|) == 0 then (e, -1)
    else
      var n: int := Paginas(t, pid, |t|);
      (AgregarPagina(c, e, HuecoDePagina(t, pid, n), pid, n), n)
  }

  /** `buscar_espacio_para_heap`: the same number, in the first free frame of the table. */
  ghost function PaginaDeHeap(c: Config, e: Estado, pid: nat): (r: (Estado, int))
    requires Inv(c, e) && Clave(pid, Paginas(e.mapa.tabla, pid, c.marcos))
    ensures Inv(c, r.0)
  {
    var t := e.mapa.tabla;
    var f := PrimeroLibre(t, 0);
    if f == |t| then (e, -1)
    else
      var n: int := Paginas(t, pid, |t|);
      (AgregarPagina(c, e, f, pid, n), n)
  }

  // ---- giving pages back ----

  ghost function LiberarPagina(c: Config, e: Estado, pid: int, pagina: int): (r: Estado)
    requires Inv(c, e) && Mapeada(c, e, pid, pagina)
    ensures Inv(c, r)
  {
    var f := Marco(e.mapa, pid, pagina);
    MarcoUsuario(c, e, pid, pagina);
    VaciarConserva(e.mapa, f);
    var r := Estado(Vaciar(e.mapa, f), e.paginas, SinPagina(e.cache, pid, pagina));
    assert forall i :: 0 <= i < |r.cache| ==> LineaCoherente(r, i) by {
      forall i | 0 <= i < |r.cache|
        ensures LineaCoherente(r, i)
      {
        assert LineaCoherente(e, i);
        var s := e.cache[i];
        if !Libre(r.cache[i]) {
          VaciarMarco(e.mapa, f, s.pid, s.pagina);
        }
      }
    }
    r
  }

  /** Frame `f` is the only one that holds its page. */
  ghost predicate UnicoMarco(t: seq<Entrada>, f: nat)
    requires f < |t|
  {
    forall g :: 0 <= g < |t| && g != f ==> !EsPagina(t, g, t[f].pid, t[f].pagina)
  }

  /** Freeing a page leaves every other page alone. */
  lemma LiberarPaginaAbs(c: Config, e: Estado, pid: int, pagina: int)
    requires Inv(c, e) && Mapeada(c, e, pid, pagina)
    ensures Abs(c, LiberarPagina(c, e, pid, pagina)) - {Pagina(pid, pagina)} == Abs(c, e) - {Pagina(pid, pagina)}
  {
    hide Acuerdo, Sana, Vaciar, Marco, SinPagina, Abs;
    var a, b := Abs(c, e), Abs(c, LiberarPagina(c, e, pid, pagina));
    forall k: Pagina | k != Pagina(pid, pagina)
      ensures k in a <==> k in b
      ensures k in a ==> a[k] == b[k]
    {
      AbsEn(c, e, k);
      AbsEn(c, LiberarPagina(c, e, pid, pagina), k);
      if Clave(k.pid, k.numero) {
        MarcoUsuario(c, e, pid, pagina);
        VaciarMarco(e.mapa, Marco(e.mapa, pid, pagina), k.pid, k.numero);
      }
    }
  }

  /** The freed page is unmapped if and only if no second frame holds the same number. */
  lemma LiberarPaginaDesmapea(c: Config, e: Estado, pid: int, pagina: int)
    requires Inv(c, e) && Mapeada(c, e, pid, pagina)
    ensures 0 <= Marco(e.mapa, pid, pagina) < c.marcos
    ensures Mapeada(c, LiberarPagina(c, e, pid, pagina), pid, pagina) <==>
            !UnicoMarco(e.mapa.tabla, Marco(e.mapa, pid, pagina))
  {
    MarcoUsuario(c, e, pid, pagina);
    VaciarDesmapea(e.mapa, Marco(e.mapa, pid, pagina));
  }

  lemma VaciarDesmapea(m: Mapa, f: nat)
    requires Acuerdo(m) && f < |m.tabla| && Clave(m.tabla[f].pid, m.tabla[f].pagina)
    ensures Acuerdo(Vaciar(m, f))
    ensures Marco(Vaciar(m, f), m.tabla[f].pid, m.tabla[f].pagina) == -1 <==> UnicoMarco(m.tabla, f)
  {
    VaciarConserva(m, f);
    var r, p, q := Vaciar(m, f), m.tabla[f].pid, m.tabla[f].pagina;
    MarcoCorrecto(r, p, q);
    forall g | 0 <= g < |m.tabla|
      ensures EsPagina(r.tabla, g, p, q) <==> g != f && EsPagina(m.tabla, g, p, q)
    {
    }
  }

  ghost function FinalizarProceso(c: Config, e: Estado, pid: nat): (r: Estado)
    requires Inv(c, e)
    ensures Inv(c, r)
  {
    var r := Estado(Finalizar(e.mapa, pid, 0), e.paginas, SinProceso(e.cache, c.ms, pid));
    FinalizarTabla(e.mapa, pid, 0);
    assert forall i :: 0 <= i < |r.cache| ==> LineaCoherente(r, i) by {
      forall i | 0 <= i < |r.cache|
        ensures LineaCoherente(r, i)
      {
        assert LineaCoherente(e, i) && LineaSana(e.cache[i]);
        var s := e.cache[i];
        if !Libre(r.cache[i]) {
          FinalizarMarco(e.mapa, pid, 0, s.pid, s.pagina);
        }
      }
    }
    r
  }

  ghost function SinPid(a: map<Pagina, seq<Byte>>, pid: int): map<Pagina, seq<Byte>> {
    map k | k in a && k.pid != pid :: a[k]
  }

  /** Ending a process removes all its pages and nothing else. */
  lemma FinalizarProcesoAbs(c: Config, e: Estado, pid: nat)
    requires Inv(c, e)
    ensures Abs(c, FinalizarProceso(c, e, pid)) == SinPid(Abs(c, e), pid)
  {
    hide Acuerdo, Sana, Finalizar, Marco, SinProceso, Abs;
    var r := FinalizarProceso(c, e, pid);
    var a, b := Abs(c, e), Abs(c, r);
    forall k: Pagina
      ensures k in b <==> k in a && k.pid != pid
      ensures k in b ==> a[k] == b[k]
    {
      AbsEn(c, e, k);
      AbsEn(c, r, k);
      if Clave(k.pid, k.numero) {
        if k.pid == pid {
          FinalizarSinPaginas(e.mapa, pid, k.numero);
        } else {
          FinalizarMarco(e.mapa, pid, 0, k.pid, k.numero);
        }
      }
    }
  }

  ghost function Flush(c: Config, e: Estado): (r: Estado)
    requires Inv(c, e)
    ensures Inv(c, r)
  {
    e.(cache := Vaciada(e.cache, c.ms))
  }

  lemma FlushAbs(c: Config, e: Estado)
    requires Inv(c, e)
    ensures Abs(c, Flush(c, e)) == Abs(c, e)
  {
    hide Acuerdo, Sana, Abs;
    forall k: Pagina
      ensures k in Abs(c, Flush(c, e)) <==> k in Abs(c, e)
      ensures k in Abs(c, e) ==> Abs(c, Flush(c, e))[k] == Abs(c, e)[k]
    {
      AbsEn(c, e, k);
      AbsEn(c, Flush(c, e), k);
    }
  }

  // ---- a new process ----

  /** Frames for pages 0..n-1 of the process. */
  ghost function Admitir(c: Config, e: Estado, pid: nat, n: nat): (r: Estado)
    requires Inv(c, e) && Colocables(e.mapa, pid, 0, n)
    ensures Inv(c, r)
  {
    ColocarTabla(e.mapa, pid, n);
    var r := e.(mapa := Colocar(e.mapa, pid, 0, n));
    var fs := Elegidos(e.mapa, pid, 0, n);
    assert TablaProtegida(c, r.mapa.tabla) by {
      forall f: nat | f < c.marcos
        ensures r.mapa.tabla[f].pid == ADMIN <==> f < c.admin
      {
        if f in fs {
          var k :| 0 <= k < |fs| && fs[k] == f;
          assert r.mapa.tabla[fs[k]] == Entrada(f, pid, k) && e.mapa.tabla[fs[k]].pid == LIBRE;
        }
      }
    }
    assert forall i :: 0 <= i < |r.cache| ==> LineaCoherente(r, i) by {
      forall i | 0 <= i < |r.cache|
        ensures LineaCoherente(r, i)
      {
        assert LineaCoherente(e, i);
        var s := e.cache[i];
        if !Libre(s) {
          ColocarMarco(e.mapa, pid, 0, n, s.pid, s.pagina);
        }
      }
    }
    r
  }

  /** Exactly the requested pages become mapped; pages already mapped keep their bytes,
      and a new page shows the bytes its frame had. */
  lemma AdmitirAbs(c: Config, e: Estado, pid: nat, n: nat, k: Pagina)
    requires Inv(c, e) && Colocables(e.mapa, pid, 0, n)
    ensures var a, b := Abs(c, e), Abs(c, Admitir(c, e, pid, n));
            && (k in b <==> k in a || (k.pid == pid && 0 <= k.numero < n))
            && (k in a ==> b[k] == a[k])
            && (k in b && k !in a ==>
                  var f := Elegidos(e.mapa, pid, 0, n)[k.numero];
                  f < c.marcos && e.mapa.tabla[f].pid == LIBRE && b[k] == e.paginas[f])
  {
    hide Acuerdo, Sana, Colocar, Elegidos, Marco, Abs;
    ColocarTabla(e.mapa, pid, n);
    AbsEn(c, e, k);
    AbsEn(c, Admitir(c, e, pid, n), k);
    if Clave(k.pid, k.numero) {
      ColocarMarco(e.mapa, pid, 0, n, k.pid, k.numero);
    }
  }

  ghost predicate TodasMapeadas(c: Config, e: Estado, pid: nat, n: nat)
    requires Inv(c, e)
  {
    forall j :: 0 <= j < n ==> Mapeada(c, e, pid, j)
  }

  lemma MapeadasIguales(c: Config, e: Estado, r: Estado, pid: nat, n: nat)
    requires Inv(c, e) && Inv(c, r) && r.mapa == e.mapa && TodasMapeadas(c, e, pid, n)
    ensures TodasMapeadas(c, r, pid, n)
  {
    hide Inv, Marco, Clave;
    forall j | 0 <= j < n
      ensures Mapeada(c, r, pid, j)
    {
      assert Mapeada(c, e, pid, j);
    }
  }

  ghost function CopiarUna(c: Config, e: Estado, pid: nat, trozos: seq<seq<Byte>>, i: nat): (r: Estado)
    requires Inv(c, e) && i < |trozos| && TodasMapeadas(c, e, pid, |trozos|) && |trozos[i]| == c.ms
    ensures Inv(c, r) && r.mapa == e.mapa && TodasMapeadas(c, r, pid, |trozos|)
  {
    assert Mapeada(c, e, pid, i);
    hide Inv;
    var r := Escritura(c, e, pid, i, 0, trozos[i]);
    MapeadasIguales(c, e, r, pid, |trozos|);
    r
  }

  lemma CopiarUnaAbs(c: Config, e: Estado, pid: nat, trozos: seq<seq<Byte>>, i: nat)
    requires Inv(c, e) && i < |trozos| && TodasMapeadas(c, e, pid, |trozos|) && |trozos[i]| == c.ms
    ensures Pagina(pid, i) in Abs(c, e)
    ensures Abs(c, CopiarUna(c, e, pid, trozos, i)) == Abs(c, e)[Pagina(pid, i) := trozos[i]]
  {
    assert Mapeada(c, e, pid, i);
    hide Inv, Escritura, Publicar, Contenido, Marco, Clave, Abs;
    AbsEn(c, e, Pagina(pid, i));
    EscrituraTransparente(c, e, pid, i, 0, trozos[i]);
    EmpalmeTotal(Contenido(c, e, pid, i), trozos[i]);
  }

  /** The loop that copies whole pages of the script, `trozos[i..]`, to pages `i..` of the process. */
  ghost function CopiarPaginas(c: Config, e: Estado, pid: nat, trozos: seq<seq<Byte>>, i: nat): (r: Estado)
    requires Inv(c, e) && i <= |trozos| && TodasMapeadas(c, e, pid, |trozos|)
    requires forall k :: 0 <= k < |trozos| ==> |trozos[k]| == c.ms
    ensures Inv(c, r) && r.mapa == e.mapa
    decreases |trozos| - i
  {
    if i == |trozos| then e
    else CopiarPaginas(c, CopiarUna(c, e, pid, trozos, i), pid, trozos, i + 1)
  }

  lemma {:induction false} CopiarPaginasAbs(c: Config, e: Estado, pid: nat, trozos: seq<seq<Byte>>, i: nat, k: Pagina)
    requires Inv(c, e) && i <= |trozos| && TodasMapeadas(c, e, pid, |trozos|)
    requires forall k :: 0 <= k < |trozos| ==> |trozos[k]| == c.ms
    ensures var a, b := Abs(c, e), Abs(c, CopiarPaginas(c, e, pid, trozos, i));
            && (k in b <==> k in a)
            && (k in a && k.pid == pid && i <= k.numero < |trozos| ==> b[k] == trozos[k.numero])
            && (k in a && !(k.pid == pid && i <= k.numero < |trozos|) ==> b[k] == a[k])
    decreases |trozos| - i
  {
    hide Inv, CopiarUna, Contenido, Abs, TodasMapeadas;
    if i < |trozos| {
      CopiarUnaAbs(c, e, pid, trozos, i);
      CopiarPaginasAbs(c, CopiarUna(c, e, pid, trozos, i), pid, trozos, i + 1, k);
    }
  }

  /** The frames of a new process, all its pages mapped. */
  lemma AdmitirMapea(c: Config, e: Estado, pid: nat, n: nat)
    requires Inv(c, e) && Colocables(e.mapa, pid, 0, n)
    ensures TodasMapeadas(c, Admitir(c, e, pid, n), pid, n)
  {
    hide Inv, Admitir, Elegidos, Abs, Mapeada;
    var r := Admitir(c, e, pid, n);
    forall j | 0 <= j < n
      ensures Mapeada(c, r, pid, j)
    {
      AdmitirAbs(c, e, pid, n, Pagina(pid, j));
      AbsEn(c, r, Pagina(pid, j));
    }
  }

  /** The copy of the whole script into pages that are already mapped. */
  ghost function CopiarGuion(c: Config, e: Estado, pid: nat, trozos: seq<seq<Byte>>, cola: seq<Byte>): (r: Estado)
    requires Inv(c, e) && TodasMapeadas(c, e, pid, |trozos| + 1) && |cola| <= c.ms
    requires forall k :: 0 <= k < |trozos| ==> |trozos[k]| == c.ms
    ensures Inv(c, r) && r.mapa == e.mapa
  {
    assert Mapeada(c, e, pid, |trozos|);
    Escritura(c, CopiarPaginas(c, e, pid, trozos, 0), pid, |trozos|, 0, cola)
  }

  /** After the copy the pages hold the pieces of the script and nothing else has changed. */
  lemma CopiarGuionAbs(c: Config, e: Estado, pid: nat, trozos: seq<seq<Byte>>, cola: seq<Byte>, k: Pagina)
    requires Inv(c, e) && TodasMapeadas(c, e, pid, |trozos| + 1) && |cola| <= c.ms
    requires forall k :: 0 <= k < |trozos| ==> |trozos[k]| == c.ms
    ensures var a, b := Abs(c, e), Abs(c, CopiarGuion(c, e, pid, trozos, cola));
            && (k in b <==> k in a)
            && (k in a && !(k.pid == pid && 0 <= k.numero <= |trozos|) ==> b[k] == a[k])
            && (k in a && k.pid == pid && 0 <= k.numero < |trozos| ==> b[k] == trozos[k.numero])
            && (k == Pagina(pid, |trozos|) ==> k in a && b[k] == Empalme(a[k], 0, cola))
  {
    hide Inv, Escritura, Abs, CopiarPaginas;
    assert Mapeada(c, e, pid, |trozos|);
    AbsEn(c, e, Pagina(pid, |trozos|));
    var e1 := CopiarPaginas(c, e, pid, trozos, 0);
    CopiarPaginasAbs(c, e, pid, trozos, 0, k);
    CopiarPaginasAbs(c, e, pid, trozos, 0, Pagina(pid, |trozos|));
    EscrituraTransparente(c, e1, pid, |trozos|, 0, cola);
  }

  /** Pages of a script of `largo` bytes. */
  function PaginasDeGuion(largo: nat, ms: nat): (n: nat)
    requires ms > 0
    ensures largo > 0 ==> n > 0
  {
    largo / ms + if largo % ms > 0 then 1 else 0
  }

  /** The pages of the script the loop copies whole: all but the last. */
  function Trozos(guion: seq<Byte>, ms: nat): (t: seq<seq<Byte>>)
    requires ms > 0 && |guion| > 0
    ensures |t| == PaginasDeGuion(|guion|, ms) - 1
    ensures forall k :: 0 <= k < |t| ==> |t[k]| == ms
  {
    var n := PaginasDeGuion(|guion|, ms) - 1;
    TrozosCaben(|guion|, ms);
    Regiones(guion[..n * ms], n, ms, 0)
  }

  lemma TrozosCaben(largo: nat, ms: nat)
    requires ms > 0 && largo > 0
    ensures 0 <= (PaginasDeGuion(largo, ms) - 1) * ms <= largo
    ensures largo % ms != 0 ==> (PaginasDeGuion(largo, ms) - 1) * ms == largo - largo % ms
    ensures largo % ms == 0 ==> (PaginasDeGuion(largo, ms) - 1) * ms == largo - ms
  {
    var q, r := largo / ms, largo % ms;
    assert largo == q * ms + r;
    assert (q - 1) * ms == q * ms - ms;
    ProductoMonotono(ms, 0, PaginasDeGuion(largo, ms) - 1);
  }

  /** What the last write of the copy stores: the remainder of the length, taken from the end. */
  function Cola(guion: seq<Byte>, ms: nat): (d: seq<Byte>)
    requires ms > 0
    ensures |d| == |guion| % ms < ms
  {
    guion[|guion| - |guion| % ms..]
  }

  function Aplanar(t: seq<seq<Byte>>): seq<Byte> {
    if t == [] then [] else Aplanar(t[..|t| - 1]) + t[|t| - 1]
  }

  lemma RegionPrefijo(s: seq<Byte>, ms: nat, f: nat, m: nat)
    requires f * ms + ms <= m <= |s|
    ensures Region(s[..m], ms, f) == Region(s, ms, f)
  {
  }

  lemma RegionFinal(s: seq<Byte>, ms: nat, f: nat)
    requires f * ms + ms == |s|
    ensures s == s[..f * ms] + Region(s, ms, f)
  {
  }

  lemma RegionesUltima(s: seq<Byte>, n: nat, ms: nat)
    requires |s| == n * ms && n > 0
    ensures (n - 1) * ms == n * ms - ms >= 0
    ensures Regiones(s, n, ms, 0)[..n - 1] == Regiones(s[..n * ms - ms], n - 1, ms, 0)
    ensures s == s[..n * ms - ms] + Regiones(s, n, ms, 0)[n - 1]
  {
    hide Regiones, Region;
    RegionCabe(n, ms, n - 1);
    assert (n - 1) * ms == n * ms - ms;
    var u := s[..n * ms - ms];
    forall f | 0 <= f < n - 1
      ensures Regiones(s, n, ms, 0)[f] == Regiones(u, n - 1, ms, 0)[f]
    {
      RegionCabe(n - 1, ms, f);
      RegionDeRegiones(s, n, ms, 0, f);
      RegionDeRegiones(u, n - 1, ms, 0, f);
      RegionPrefijo(s, ms, f, |u|);
    }
    RegionDeRegiones(s, n, ms, 0, n - 1);
    RegionFinal(s, ms, n - 1);
  }

  lemma {:induction false} AplanarRegiones(s: seq<Byte>, n: nat, ms: nat)
    requires |s| == n * ms
    ensures Aplanar(Regiones(s, n, ms, 0)) == s
  {
    if n > 0 {
      var u := s[..n * ms - ms];
      assert (n - 1) * ms == n * ms - ms;
      AplanarRegiones(u, n - 1, ms);
      RegionesUltima(s, n, ms);
    }
  }

  /** The copied pieces are the whole script if and only if its length is not a whole number of pages;
      otherwise they are the script without its last page. */
  lemma GuionCompleto(guion: seq<Byte>, ms: nat)
    requires ms > 0 && |guion| > 0
    ensures Aplanar(Trozos(guion, ms)) + Cola(guion, ms) == guion <==> |guion| % ms != 0
    ensures |guion| % ms == 0 ==> Aplanar(Trozos(guion, ms)) + Cola(guion, ms) == guion[..|guion| - ms]
  {
    var n := PaginasDeGuion(|guion|, ms) - 1;
    TrozosCaben(|guion|, ms);
    AplanarRegiones(guion[..n * ms], n, ms);
  }

  /** Where frame `f` starts in memory. */
  function DireccionFisica(c: Config, f: int): int {
    f * c.ms
  }

  /** Page numbers below `n` can be hashed, unless so many pages will be refused for lack of frames. */
  ghost predicate Numerables(c: Config, e: Estado, pid: nat, n: nat)
    requires Inv(c, e)
  {
    n <= Libres(e.mapa.tabla, c.marcos) ==> forall j :: 0 <= j < n ==> Clave(pid, j)
  }

  /** `NUEVO_PROCESO`: the script and two zero bytes, then `pila` more pages.
      The result is the new state, the page count and the address answered. */
  ghost function NuevoProceso(c: Config, e: Estado, pid: nat, mensaje: seq<Byte>, pila: nat): (r: (Estado, int, int))
    requires Inv(c, e)
    requires Numerables(c, e, pid, PaginasDeGuion(|mensaje| + 2, c.ms) + pila)
    ensures Inv(c, r.0)
  {
    var guion: seq<Byte> := mensaje + [0, 0];
    var total: int := PaginasDeGuion(|guion|, c.ms) + pila;
    if total > Libres(e.mapa.tabla, c.marcos) then (e, -1, -1)
    else
      AdmitirMapea(c, e, pid, total);
      var e0 := Admitir(c, e, pid, total);
      (CopiarGuion(c, e0, pid, Trozos(guion, c.ms), Cola(guion, c.ms)), total,
       DireccionFisica(c, Marco(e0.mapa, pid, 0)))
  }
}
