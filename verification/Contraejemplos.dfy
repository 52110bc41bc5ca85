/** Runs of a server that has just started in which the code does not do what it is for. */
module Contraejemplos {
  import opened Bytes
  import opened Tablas
  import opened Conteo
  import opened Cache
  import opened Modelo
  import opened Asignacion
  import opened Disposicion
  import opened Abstracta
  import opened Corridas
  import HeapDeProceso
  import Heap

  // ---- a run grown at its end ----

  lemma {:induction false} EjecutarAgrega(c: Config, e: Estado, os: seq<Orden>, o: Orden)
    requires Inv(c, e) && Ejecutable(c, e, os) && Puede(c, Ejecutar(c, e, os).0, o)
    ensures Ejecutable(c, e, os + [o])
    ensures Ejecutar(c, e, os + [o]).0 == Hacer(c, Ejecutar(c, e, os).0, o).0
    ensures Ejecutar(c, e, os + [o]).1 == Ejecutar(c, e, os).1 + [Hacer(c, Ejecutar(c, e, os).0, o).1]
    decreases |os|
  {
    hide Inv, Puede, Hacer;
    if os == [] {
      assert [] + [o] == [o] && [o][1..] == [];
    } else {
      assert (os + [o])[0] == os[0] && (os + [o])[1..] == os[1..] + [o];
      EjecutarAgrega(c, Hacer(c, e, os[0]).0, os[1..], o);
    }
  }

  lemma EjecutarNada(c: Config, e: Estado)
    requires Inv(c, e)
    ensures Ejecutable(c, e, []) && Ejecutar(c, e, []) == (e, [])
  {
  }

  // ---- single requests ----

  /** The state after a page asked for, seen at page `(p, q)`. */
  lemma PedirPaso(c: Config, e: Estado, pid: nat, p: nat, q: int)
    requires Inv(c, e) && Clave(pid, Cuantas(c, e, pid)) && MarcosLibres(c, e) > 0
    ensures Puede(c, e, PedirPagina(pid))
    ensures var r := Hacer(c, e, PedirPagina(pid)).0;
      && Hacer(c, e, PedirPagina(pid)).1 == Numero(Cuantas(c, e, pid)) && r.cache == e.cache
      && MarcosLibres(c, r) == MarcosLibres(c, e) - 1
      && Cuantas(c, r, p) == Cuantas(c, e, p) + (if p == pid then 1 else 0)
      && VecesEn(c, r, p, q) == VecesEn(c, e, p, q) + (if p == pid && q == Cuantas(c, e, pid) then 1 else 0)
  {
    var n := Cuantas(c, e, pid);
    Forma(c, e);
    var f := HuecoDePagina(e.mapa.tabla, pid, n);
    AgregarCuentas(c, e, f, pid, n, p, q);
    assert Hacer(c, e, PedirPagina(pid)) == (AgregarPagina(c, e, f, pid, n), Numero(n));
    hide Inv, Acuerdo, VecesEn, Libres, Paginas, Clave;
  }

  lemma DevolverPaso(c: Config, e: Estado, pid: nat, pagina: int, p: nat, q: int)
    requires Inv(c, e) && VecesEn(c, e, pid, pagina) > 0
    ensures Puede(c, e, DevolverPagina(pid, pagina))
    ensures var r := Hacer(c, e, DevolverPagina(pid, pagina)).0;
      && r.cache == SinPagina(e.cache, pid, pagina)
      && MarcosLibres(c, r) == MarcosLibres(c, e) + 1
      && Cuantas(c, r, p) == Cuantas(c, e, p) - (if p == pid then 1 else 0)
      && VecesEn(c, r, p, q) == VecesEn(c, e, p, q) - (if p == pid && q == pagina then 1 else 0)
  {
    MapeadaPorVeces(c, e, pid, pagina);
    VaciarCuentas(c, e, pid, pagina, p, q);
    hide Inv, VecesEn, MarcosLibres, Cuantas, Marco;
  }

  lemma MapeadaPorVeces(c: Config, e: Estado, pid: nat, pagina: int)
    requires Inv(c, e)
    ensures VecesEn(c, e, pid, pagina) > 0 <==> Mapeada(c, e, pid, pagina)
  {
    Forma(c, e);
    ClaveMapeada(c, e, Pagina(pid, pagina));
    EnClaves(e.mapa.tabla, Pagina(pid, pagina));
    hide Inv, Acuerdo, Sana, Mapeada, Claves;
  }

  lemma LeerPaso(c: Config, e: Estado, pid: nat, pagina: int)
    requires Inv(c, e) && VecesEn(c, e, pid, pagina) > 0
    ensures Mapeada(c, e, pid, pagina) && Puede(c, e, Leer(pid, pagina, 0, 1))
    ensures var r := Hacer(c, e, Leer(pid, pagina, 0, 1)).0;
      r.mapa == e.mapa && Sana(e.cache)
          && r.cache == Acceder(e.cache, c.cuota, pid, pagina, Contenido(c, e, pid, pagina))
  {
    Forma(c, e);
    MapeadaPorVeces(c, e, pid, pagina);
    hide Inv, Acuerdo, Sana, Acceder, VecesEn;
  }

  lemma TerminarPaso(c: Config, e: Estado, pid: nat, p: nat, q: int)
    requires Inv(c, e)
    ensures Puede(c, e, Terminar(pid))
    ensures var r := Hacer(c, e, Terminar(pid)).0;
      && r.cache == SinProceso(e.cache, c.ms, pid)
      && VecesEn(c, r, p, q) == if p == pid then 0 else VecesEn(c, e, p, q)
  {
    TerminarCuentas(c, e, pid, p, q);
    hide Inv, VecesEn, Finalizar, MarcosLibres, Cuantas;
  }

  // ---- a page number given twice ----

  lemma CuatroPasos<T>(a: T, b: T, d: T, f: T, g: T)
    ensures [] + [a] + [b] + [d] == [a, b, d]
    ensures [a, b, d] + [f] + [g] == [a, b, d, f, g]
  {
  }

  /** A page asked for at the end of a run. */
  lemma PedirSigue(c: Config, e: Estado, os: seq<Orden>, pid: nat, p: nat, q: int)
    requires Inv(c, e) && Ejecutable(c, e, os)
    requires var m := Ejecutar(c, e, os).0;
      MarcosLibres(c, m) > 0 && Clave(pid, Cuantas(c, m, pid))
    ensures Ejecutable(c, e, os + [PedirPagina(pid)])
    ensures var m, r := Ejecutar(c, e, os).0, Ejecutar(c, e, os + [PedirPagina(pid)]).0;
      && r.cache == m.cache && MarcosLibres(c, r) == MarcosLibres(c, m) - 1
      && Cuantas(c, r, pid) == Cuantas(c, m, pid) + 1
      && VecesEn(c, r, p, q) == VecesEn(c, m, p, q) + (if p == pid && q == Cuantas(c, m, pid) then 1 else 0)
  {
    hide Inv, Puede, Hacer, Clave, MarcosLibres, Cuantas, VecesEn, Ejecutable, Ejecutar;
    var m := Ejecutar(c, e, os).0;
    PedirPaso(c, m, pid, p, q);
    PedirPaso(c, m, pid, pid, q);
    EjecutarAgrega(c, e, os, PedirPagina(pid));
  }

  lemma ClavesBajas(pid: nat)
    requires Clave(pid, 2)
    ensures Clave(pid, 0) && Clave(pid, 1)
  {
    ClaveHaciaAbajo(pid, 2, 1);
    ClaveHaciaAbajo(pid, 2, 0);
  }

  /** Three pages for a process that has none. */
  lemma TresPaginas(c: Config, e: Estado, os: seq<Orden>, pid: nat, p: nat, q: int)
    requires Inv(c, e) && Ejecutable(c, e, os)
    requires var m := Ejecutar(c, e, os).0;
      Cuantas(c, m, pid) == 0 && MarcosLibres(c, m) >= 3 && Clave(pid, 2)
    ensures var m := Ejecutar(c, e, os).0;
      var pp := os + [PedirPagina(pid)] + [PedirPagina(pid)] + [PedirPagina(pid)];
      && Ejecutable(c, e, pp)
      && var r := Ejecutar(c, e, pp).0;
        && r.cache == m.cache && MarcosLibres(c, r) == MarcosLibres(c, m) - 3
        && Cuantas(c, r, pid) == 3
        && VecesEn(c, r, p, q) == VecesEn(c, m, p, q) + (if p == pid && 0 <= q < 3 then 1 else 0)
  {
    hide Inv, Clave, MarcosLibres, Cuantas, VecesEn, Ejecutable, Ejecutar, Puede, Hacer;
    ClavesBajas(pid);
    var o := PedirPagina(pid);
    PedirSigue(c, e, os, pid, p, q);
    var o1 := os + [o];
    assert Cuantas(c, Ejecutar(c, e, o1).0, pid) == 1;
    PedirSigue(c, e, o1, pid, p, q);
    var o2 := o1 + [o];
    assert Cuantas(c, Ejecutar(c, e, o2).0, pid) == 2;
    PedirSigue(c, e, o2, pid, p, q);
  }

  lemma DosMarcos(c: Config, e: Estado, pid: nat, q: int)
    requires Inv(c, e) && VecesEn(c, e, pid, q) == 2
    ensures !PaginasUnicas(e.mapa.tabla)
    ensures exists f, g ::
      0 <= f < g < c.marcos && EsPagina(e.mapa.tabla, f, pid, q) && EsPagina(e.mapa.tabla, g, pid, q)
  {
    var t := e.mapa.tabla;
    VecesCero(t, pid, q, c.marcos);
    var f :| 0 <= f < c.marcos && EsPagina(t, f, pid, q);
    VecesUna(t, pid, q, f, c.marcos);
    var g :| 0 <= g < c.marcos && g != f && EsPagina(t, g, pid, q);
    assert f < g || g < f;
  }

  /**
   * Ask a started server for three pages, give page 1 back and ask for another: it is answered with number 2, which
   * is in use, and two frames hold the same page.
   */
  lemma NumeroRepetido(c: Config, e: Estado, pid: nat)
    requires Arranque(c, e) && c.marcos - c.admin >= 3 && Clave(pid, 2)
    ensures var o := PedirPagina(pid);
      var os := [o, o, o, DevolverPagina(pid, 1), o];
      && Inv(c, e) && Ejecutable(c, e, os)
      && var (r, xs) := Ejecutar(c, e, os);
        && xs[4] == Numero(2) && VecesEn(c, r, pid, 2) == 2 && !PaginasUnicas(r.mapa.tabla)
        && exists f, g :: 0 <= f < g < c.marcos
             && EsPagina(r.mapa.tabla, f, pid, 2) && EsPagina(r.mapa.tabla, g, pid, 2)
  {
    CuentasIniciales(c, e, pid, 1);
    CuentasIniciales(c, e, pid, 2);
    EjecutarNada(c, e);
    TresPaginas(c, e, [], pid, pid, 1);
    TresPaginas(c, e, [], pid, pid, 2);
    hide Inv, Puede, Hacer, Clave, MarcosLibres, Cuantas, VecesEn, Ejecutable, Ejecutar, Arranque;
    var o, d := PedirPagina(pid), DevolverPagina(pid, 1);
    CuatroPasos(o, o, o, d, o);
    var m3 := Ejecutar(c, e, [o, o, o]).0;
    DevolverPaso(c, m3, pid, 1, pid, 2);
    EjecutarAgrega(c, e, [o, o, o], d);
    var m4 := Ejecutar(c, e, [o, o, o] + [d]).0;
    PedirPaso(c, m4, pid, pid, 2);
    EjecutarAgrega(c, e, [o, o, o] + [d], o);
    DosMarcos(c, Ejecutar(c, e, [o, o, o] + [d] + [o]).0, pid, 2);
  }

  // ---- a failed request that takes every frame ----

  lemma PaginaNoToma(c: Config, e: Estado, pid: nat, espacio: nat)
    requires Inv(c, e) && HeapContiguo(c, e, pid, 0) && Cuantas(c, e, pid) == 1 && espacio + 2 * Heap.CAB > c.ms
    requires Pagina(pid, 0) in Abs(c, e) && EsNueva(c, Abs(c, e)[Pagina(pid, 0)])
    ensures !CabeEnAlguna(c, e, pid, 0, espacio)
  {
    hide Inv, Acuerdo, Sana, Abs, HeapContiguo, DeBloques, Bloques, Cuantas, CabeEnAlguna, EsNueva, Heap.Direccion,
      Heap.Parsear;
    Forma(c, e);
    CabeDesde(c, e, pid, 0, espacio);
    BloquesEnAbs(c, e, pid, 0);
    NuevaTomaPedido(c, Abs(c, e)[Pagina(pid, 0)], espacio);
  }

  lemma PrimeraPagina(c: Config, e: Estado, pid: nat)
    requires Inv(c, e) && Clave(pid, c.marcos) && Clave(pid, 0)
    requires MarcosLibres(c, e) > 0 && Cuantas(c, e, pid) == 0 && Abs(c, e) == map[]
    ensures Puede(c, e, PedirPagina(pid))
    ensures var r := Hacer(c, e, PedirPagina(pid)).0;
      HeapContiguo(c, r, pid, 0) && Pagina(pid, 0) in Abs(c, r) && EsNueva(c, Abs(c, r)[Pagina(pid, 0)])
  {
    PedirPaso(c, e, pid, pid, 0);
    PasoRefina(c, e, PedirPagina(pid));
    var r := Hacer(c, e, PedirPagina(pid)).0;
    VerEn(c, e, pid, Pagina(pid, 0));
    VerPaginas(c, e);
    hide Inv, Ver, Abs, Hacer, Puede, EsNueva, Cuantas, MarcosLibres, VecesEn, HeapContiguo, Clave;
    VerPaginas(c, r);
    var a, b := Ver(c, e), Ver(c, r);
    assert HeapDeProceso.SinDespues(a, pid);
    HeapDeProceso.HeapEmpieza(c, a, pid, 0, b);
    HeapDeProceso.HeapEnContiguo(c, r, pid, 0);
    assert ExtiendeEn(c, a, pid, 1, b, Pagina(pid, 0));
  }

  lemma TodosDelProceso(c: Config, e: Estado, pid: nat, espacio: nat)
    requires Inv(c, e) && HeapContiguo(c, e, pid, 0)
    requires !CabeEnAlguna(c, e, pid, 0, espacio) && espacio + 2 * Heap.CAB > c.ms
    ensures Cuantas(c, Alocar(c, e, pid, 0, espacio).0, pid) == Cuantas(c, e, pid) + MarcosLibres(c, e)
  {
    BuscarLugarAgregadas(c, e, pid, 0, espacio);
    assert Alocar(c, e, pid, 0, espacio).0.mapa == BuscarLugar(c, e, pid, 0, espacio).0.mapa by {
      hide Inv, Publicar, BuscarLugar, HeapContiguo, DeBloques, Bloques;
    }
    hide Alocar, Inv, BuscarLugar, HeapContiguo, CabeEnAlguna, MarcosLibres;
  }

  /** The request itself. */
  lemma PedidoSinLugar(c: Config, e: Estado, pid: nat, espacio: nat)
    requires Inv(c, e) && HeapContiguo(c, e, pid, 0) && !CabeEnAlguna(c, e, pid, 0, espacio)
    requires espacio + 2 * Heap.CAB > c.ms
    ensures Puede(c, e, Asignar(pid, 0, espacio))
    ensures var (r, x) := Hacer(c, e, Asignar(pid, 0, espacio));
      && x.Puntero? && x.direccion == -1 && MarcosLibres(c, r) == 0
      && Cuantas(c, r, pid) == Cuantas(c, e, pid) + MarcosLibres(c, e)
  {
    hide Inv, HeapContiguo, Cuantas, MarcosLibres, CabeEnAlguna, Alocar;
    AlocarFallido(c, e, pid, 0, espacio);
    TodosDelProceso(c, e, pid, espacio);
  }

  /** A started server after its first page asked for. */
  lemma TrasPrimera(c: Config, e: Estado, pid: nat, espacio: nat)
    requires Arranque(c, e) && c.marcos - c.admin >= 2 && Clave(pid, c.marcos) && espacio + 2 * Heap.CAB > c.ms
    ensures Inv(c, e) && Puede(c, e, PedirPagina(pid))
    ensures var r := Hacer(c, e, PedirPagina(pid)).0;
      && HeapContiguo(c, r, pid, 0) && !CabeEnAlguna(c, r, pid, 0, espacio)
      && Cuantas(c, r, pid) == 1 && MarcosLibres(c, r) == c.marcos - c.admin - 1
  {
    CuentasIniciales(c, e, pid, 0);
    ClaveHaciaAbajo(pid, c.marcos, 0);
    hide Inv, Arranque, Clave, EsNueva, HeapContiguo, Abs, Cuantas, MarcosLibres, VecesEn, CabeEnAlguna, Hacer, Puede;
    PrimeraPagina(c, e, pid);
    PedirPaso(c, e, pid, pid, 0);
    PaginaNoToma(c, Hacer(c, e, PedirPagina(pid)).0, pid, espacio);
  }

  /**
   * A started server with two frames or more, asked for a page and then for a heap block no page can hold: the answer
   * is -1 and every frame of the server now belongs to the process.
   */
  lemma PedidoImposible(c: Config, e: Estado, pid: nat, espacio: nat)
    requires Arranque(c, e) && c.marcos - c.admin >= 2 && Clave(pid, c.marcos) && espacio + 2 * Heap.CAB > c.ms
    ensures var os := [PedirPagina(pid), Asignar(pid, 0, espacio)];
      && Inv(c, e) && Ejecutable(c, e, os)
      && var (r, xs) := Ejecutar(c, e, os);
        && xs[1].Puntero? && xs[1].direccion == -1
        && MarcosLibres(c, r) == 0 && Cuantas(c, r, pid) == c.marcos - c.admin
  {
    TrasPrimera(c, e, pid, espacio);
    EjecutarNada(c, e);
    hide Inv, Arranque, Clave, HeapContiguo, Cuantas, MarcosLibres, CabeEnAlguna, Hacer, Puede, Ejecutar, Ejecutable;
    var o, d := PedirPagina(pid), Asignar(pid, 0, espacio);
    EjecutarAgrega(c, e, [], o);
    assert [] + [o] == [o] && [o] + [d] == [o, d];
    PedidoSinLugar(c, Hacer(c, e, o).0, pid, espacio);
    EjecutarAgrega(c, e, [o], d);
  }

  // ---- a quota exceeded ----

  /** Line `i` of the cache is this, whatever it contains. */
  predicate LineaEs(s: Slot, pid: int, pagina: int, refPid: int, edad: int) {
    s.pid == pid && s.pagina == pagina && s.refPid == refPid && s.edad == edad
  }

  /** A miss with a free line at `v` and none before it, the process below a quota of one. */
  lemma FalloEnLibre(c: seq<Slot>, pid: nat, pagina: nat, b: seq<Byte>, v: nat)
    requires Sana(c) && |c| == 2 && v < 2 && Libre(c[v]) && (v == 1 ==> !Libre(c[0]))
    requires c[0].pid != pid && c[1].pid != pid
    ensures var r := Acceder(c, 1, pid, pagina, b);
      r == Envejecer(c)[v := Slot(pid, pagina, b, pid, 0)]
  {
    var d := Envejecer(c);
    assert Entradas(d, pid, 0) == 0 && Entradas(d, pid, 1) == 0 && Entradas(d, pid, 2) == 0;
    assert Libre(d[v]) && HayEspacio(d);
    assert PrimeraLibre(d, 0) == v;
    assert !Presente(c, pid, pagina);
  }

  /** A miss of the process that has line 0 and whose freed line 1 is older. */
  lemma FalloEnVieja(c: seq<Slot>, pid: nat, pagina: nat, b: seq<Byte>)
    requires Sana(c) && |c| == 2 && CuotaRespetada(c, 1) && c[0].pid == pid && c[0].pagina != pagina
    requires Libre(c[1]) && c[0].refPid == c[1].refPid == pid && c[0].edad < c[1].edad
    ensures !CuotaRespetada(Acceder(c, 1, pid, pagina, b), 1)
  {
    assert Entradas(c, pid, 0) == 0 && Entradas(c, pid, 1) == 1 && Entradas(c, pid, 2) == 1;
    assert MasVieja(c, pid, 1);
    assert !Presente(c, pid, pagina);
    IncorporarCuota(c, 1, pid, pagina, b);
  }

  lemma UnaLinea(c: seq<Slot>, pid: nat)
    requires |c| == 2 && c[0].pid == pid && c[1].pid < 0
    ensures CuotaRespetada(c, 1)
  {
    forall q | q >= 0
      ensures Entradas(c, q, 2) <= 1
    {
      assert Entradas(c, q, 1) <= 1;
    }
  }

  /** Both caches the run goes through at the end, from the lines alone. */
  lemma CacheExcedida(c0: seq<Slot>, c1: seq<Slot>, c2: seq<Slot>, c3: seq<Slot>, c4: seq<Slot>, c5: seq<Slot>,
                      c6: seq<Slot>, ms: nat, p: nat, q: nat,
                      b0: seq<Byte>, b1: seq<Byte>, b2: seq<Byte>, b3: seq<Byte>)
    requires p != q && |c0| == 2 && forall i :: 0 <= i < 2 ==> LineaEs(c0[i], NADIE, NADIE, NADIE, NADIE)
    requires Sana(c0) && c1 == Acceder(c0, 1, p, 0, b0)
    requires Sana(c1) && c2 == Acceder(c1, 1, q, 0, b1)
    requires Sana(c2) && c3 == SinProceso(c2, ms, p)
    requires Sana(c3) && c4 == SinPagina(c3, q, 0)
    requires Sana(c4) && c5 == Acceder(c4, 1, q, 1, b2)
    requires Sana(c5) && c6 == Acceder(c5, 1, q, 2, b3)
    ensures CuotaRespetada(c5, 1) && !CuotaRespetada(c6, 1)
  {
    hide Sana, Acceder, CuotaRespetada;
    FalloEnLibre(c0, p, 0, b0, 0);
    assert LineaEs(c1[0], p, 0, p, 0) && LineaEs(c1[1], NADIE, NADIE, NADIE, NADIE);
    FalloEnLibre(c1, q, 0, b1, 1);
    assert LineaEs(c2[0], p, 0, p, 1) && LineaEs(c2[1], q, 0, q, 0);
    assert LineaEs(c3[0], NADIE, NADIE, NADIE, NADIE) && LineaEs(c3[1], q, 0, q, 0);
    assert LineaEs(c4[0], NADIE, NADIE, NADIE, NADIE) && LineaEs(c4[1], NADIE, NADIE, q, 0);
    FalloEnLibre(c4, q, 1, b2, 0);
    assert LineaEs(c5[0], q, 1, q, 0) && LineaEs(c5[1], NADIE, NADIE, q, 1);
    UnaLinea(c5, q);
    FalloEnVieja(c5, q, 2, b3);
  }

  /** A read at the end of a run: the cache sees one access, and no page moves. */
  lemma LeerSigue(c: Config, e: Estado, os: seq<Orden>, pid: nat, pagina: int) returns (b: seq<Byte>)
    requires Inv(c, e) && Ejecutable(c, e, os) && VecesEn(c, Ejecutar(c, e, os).0, pid, pagina) > 0
    ensures Ejecutable(c, e, os + [Leer(pid, pagina, 0, 1)])
    ensures var m, r := Ejecutar(c, e, os).0, Ejecutar(c, e, os + [Leer(pid, pagina, 0, 1)]).0;
      r.mapa == m.mapa && Sana(m.cache) && r.cache == Acceder(m.cache, c.cuota, pid, pagina, b)
  {
    hide Inv, Ejecutable, Ejecutar, Puede, Hacer, Acceder, Sana, VecesEn;
    var m := Ejecutar(c, e, os).0;
    LeerPaso(c, m, pid, pagina);
    EjecutarAgrega(c, e, os, Leer(pid, pagina, 0, 1));
    b := Contenido(c, m, pid, pagina);
  }

  lemma MismoMapa(c: Config, e: Estado, r: Estado, pid: nat, pagina: int)
    requires Inv(c, e) && Inv(c, r) && r.mapa == e.mapa
    ensures VecesEn(c, r, pid, pagina) == VecesEn(c, e, pid, pagina)
  {
  }

  function Pedidas(p: nat, q: nat): seq<Orden> {
    [PedirPagina(p)] + [PedirPagina(q)] + [PedirPagina(q)] + [PedirPagina(q)]
  }

  /** One page for `p` and three for `q`. */
  lemma TrasPedidas(c: Config, e: Estado, p: nat, q: nat)
    requires Arranque(c, e) && c.marcos - c.admin >= 4 && p != q && Clave(p, 0) && Clave(q, 2)
    ensures Inv(c, e) && Ejecutable(c, e, Pedidas(p, q))
    ensures var r := Ejecutar(c, e, Pedidas(p, q)).0;
      && r.cache == e.cache && VecesEn(c, r, p, 0) == 1
      && VecesEn(c, r, q, 0) == 1 && VecesEn(c, r, q, 1) == 1 && VecesEn(c, r, q, 2) == 1
  {
    CuentasIniciales(c, e, p, 0);
    CuentasIniciales(c, e, q, 0);
    CuentasIniciales(c, e, q, 1);
    CuentasIniciales(c, e, q, 2);
    EjecutarNada(c, e);
    hide Inv, Arranque, Puede, Hacer, Clave, MarcosLibres, Cuantas, VecesEn, Ejecutable, Ejecutar;
    PedirPaso(c, e, p, p, 0);
    PedirPaso(c, e, p, q, 0);
    PedirPaso(c, e, p, q, 1);
    PedirPaso(c, e, p, q, 2);
    EjecutarAgrega(c, e, [], PedirPagina(p));
    assert [] + [PedirPagina(p)] == [PedirPagina(p)];
    TresPaginas(c, e, [PedirPagina(p)], q, p, 0);
    TresPaginas(c, e, [PedirPagina(p)], q, q, 0);
    TresPaginas(c, e, [PedirPagina(p)], q, q, 1);
    TresPaginas(c, e, [PedirPagina(p)], q, q, 2);
  }

  lemma CacheSana(c: Config, e: Estado)
    requires Inv(c, e)
    ensures Sana(e.cache)
  {
  }

  lemma TerminarSigue(c: Config, e: Estado, os: seq<Orden>, p: nat, q: nat)
    requires Inv(c, e) && Ejecutable(c, e, os) && p != q
    ensures Ejecutable(c, e, os + [Terminar(p)])
    ensures var m, r := Ejecutar(c, e, os).0, Ejecutar(c, e, os + [Terminar(p)]).0;
      && Sana(m.cache) && r.cache == SinProceso(m.cache, c.ms, p)
      && forall k :: VecesEn(c, r, q, k) == VecesEn(c, m, q, k)
  {
    hide Inv, Sana, Puede, Hacer, VecesEn, Ejecutable, Ejecutar;
    var m := Ejecutar(c, e, os).0;
    CacheSana(c, m);
    TerminarPaso(c, m, p, q, 0);
    EjecutarAgrega(c, e, os, Terminar(p));
    forall k
      ensures VecesEn(c, Hacer(c, m, Terminar(p)).0, q, k) == VecesEn(c, m, q, k)
    {
      TerminarPaso(c, m, p, q, k);
    }
  }

  lemma DevolverSigue(c: Config, e: Estado, os: seq<Orden>, q: nat)
    requires Inv(c, e) && Ejecutable(c, e, os) && VecesEn(c, Ejecutar(c, e, os).0, q, 0) > 0
    ensures Ejecutable(c, e, os + [DevolverPagina(q, 0)])
    ensures var m, r := Ejecutar(c, e, os).0, Ejecutar(c, e, os + [DevolverPagina(q, 0)]).0;
      && Sana(m.cache) && r.cache == SinPagina(m.cache, q, 0)
      && forall k :: k != 0 ==> VecesEn(c, r, q, k) == VecesEn(c, m, q, k)
  {
    hide Inv, Sana, Puede, Hacer, VecesEn, Ejecutable, Ejecutar, MarcosLibres, Cuantas;
    var m := Ejecutar(c, e, os).0;
    CacheSana(c, m);
    DevolverPaso(c, m, q, 0, q, 0);
    EjecutarAgrega(c, e, os, DevolverPagina(q, 0));
    forall k | k != 0
      ensures VecesEn(c, Hacer(c, m, DevolverPagina(q, 0)).0, q, k) == VecesEn(c, m, q, k)
    {
      DevolverPaso(c, m, q, 0, q, k);
    }
  }

  /** Up to the access that breaks the quota. */
  function HastaElLimite(p: nat, q: nat): seq<Orden> {
    Pedidas(p, q) + [Leer(p, 0, 0, 1)] + [Leer(q, 0, 0, 1)] + [Terminar(p)] + [DevolverPagina(q, 0)]
      + [Leer(q, 1, 0, 1)]
  }

  lemma VecesTrasDos(c: Config, a: Estado, b: Estado, r: Estado, q: nat)
    requires Inv(c, a) && Inv(c, b) && Inv(c, r) && b.mapa == a.mapa && r.mapa == b.mapa
    ensures forall k :: VecesEn(c, r, q, k) == VecesEn(c, a, q, k) == VecesEn(c, b, q, k)
  {
  }

  /**
   * A started server with two cache lines, a quota of one and four frames or more: a page for process `p` and three
   * for `q`; `p` and then `q` read their page 0; `p` ends and `q` gives its page 0 back; `q` reads page 1, which
   * takes the line of `p`. The quota holds so far, and reading page 2 breaks it: the oldest line of `q` is the one
   * freed.
   */
  lemma CuotaExcedida(c: Config, e: Estado, p: nat, q: nat)
    requires Arranque(c, e) && c.marcos - c.admin >= 4 && c.entradas == 2 && c.cuota == 1
    requires p != q && Clave(p, 0) && Clave(q, 2)
    ensures var os := HastaElLimite(p, q);
      && Inv(c, e) && Ejecutable(c, e, os) && Ejecutable(c, e, os + [Leer(q, 2, 0, 1)])
      && CuotaRespetada(Ejecutar(c, e, os).0.cache, 1)
      && !CuotaRespetada(Ejecutar(c, e, os + [Leer(q, 2, 0, 1)]).0.cache, 1)
  {
    TrasPedidas(c, e, p, q);
    assert |e.cache| == 2 && forall i :: 0 <= i < 2 ==> LineaEs(e.cache[i], NADIE, NADIE, NADIE, NADIE);
    hide Inv, Arranque, Clave, VecesEn, Ejecutable, Ejecutar, Pedidas, Acceder, Sana, CuotaRespetada, SinProceso,
      SinPagina, LineaEs;
    var o1 := Pedidas(p, q);
    var b0 := LeerSigue(c, e, o1, p, 0);
    var o2 := o1 + [Leer(p, 0, 0, 1)];
    var m1, m2 := Ejecutar(c, e, o1).0, Ejecutar(c, e, o2).0;
    MismoMapa(c, m1, m2, q, 0);
    var b1 := LeerSigue(c, e, o2, q, 0);
    var o3 := o2 + [Leer(q, 0, 0, 1)];
    var m3 := Ejecutar(c, e, o3).0;
    VecesTrasDos(c, m1, m2, m3, q);
    TerminarSigue(c, e, o3, p, q);
    DevolverSigue(c, e, o3 + [Terminar(p)], q);
    var o5 := o3 + [Terminar(p)] + [DevolverPagina(q, 0)];
    var m5 := Ejecutar(c, e, o5).0;
    var b2 := LeerSigue(c, e, o5, q, 1);
    var o6 := o5 + [Leer(q, 1, 0, 1)];
    var m6 := Ejecutar(c, e, o6).0;
    MismoMapa(c, m5, m6, q, 2);
    var b3 := LeerSigue(c, e, o6, q, 2);
    CacheExcedida(m1.cache, m2.cache, m3.cache, SinProceso(m3.cache, c.ms, p), m5.cache, m6.cache,
                  Ejecutar(c, e, o6 + [Leer(q, 2, 0, 1)]).0.cache, c.ms, p, q, b0, b1, b2, b3);
  }

  // ---- bytes of a process that ended ----

  /** The one frame a server with a single user frame gives to any page. */
  lemma PedirUnico(c: Config, e: Estado, pid: nat, p: nat, q: int)
    requires Inv(c, e) && c.marcos == c.admin + 1 && MarcosLibres(c, e) > 0 && Cuantas(c, e, pid) == 0 && Clave(pid, 0)
    ensures Puede(c, e, PedirPagina(pid)) && |e.paginas[c.admin]| == c.ms
    ensures var r := Hacer(c, e, PedirPagina(pid)).0;
      && r.paginas[c.admin] == Formateada(c, e.paginas[c.admin])
      && MarcosLibres(c, r) == MarcosLibres(c, e) - 1
      && Cuantas(c, r, p) == Cuantas(c, e, p) + (if p == pid then 1 else 0)
      && VecesEn(c, r, p, q) == VecesEn(c, e, p, q) + (if p == pid && q == 0 then 1 else 0)
  {
    PedirPaso(c, e, pid, p, q);
    Forma(c, e);
    var f := HuecoDePagina(e.mapa.tabla, pid, 0);
    assert f == c.admin;
    assert Hacer(c, e, PedirPagina(pid)) == (AgregarPagina(c, e, f, pid, 0), Numero(0));
    hide Inv, Acuerdo, Formateada, MarcosLibres, Cuantas, VecesEn, Clave;
  }

  lemma MarcoUnico(c: Config, e: Estado, pid: nat, pagina: int)
    requires Inv(c, e) && c.marcos == c.admin + 1 && VecesEn(c, e, pid, pagina) > 0
    ensures Mapeada(c, e, pid, pagina) && Clave(pid, pagina)
    ensures Contenido(c, e, pid, pagina) == e.paginas[c.admin]
  {
    MapeadaPorVeces(c, e, pid, pagina);
    MarcoUsuario(c, e, pid, pagina);
    hide Inv, VecesEn;
  }

  lemma EscribirUnico(c: Config, e: Estado, pid: nat, off: nat, d: seq<Byte>)
    requires Inv(c, e) && c.marcos == c.admin + 1 && VecesEn(c, e, pid, 0) > 0 && off + |d| <= c.ms
    ensures Puede(c, e, Escribir(pid, 0, off, d)) && |e.paginas[c.admin]| == c.ms
    ensures var r := Hacer(c, e, Escribir(pid, 0, off, d)).0;
      r.mapa == e.mapa && r.paginas[c.admin] == Empalme(e.paginas[c.admin], off, d)
  {
    MarcoUnico(c, e, pid, 0);
    MarcoUsuario(c, e, pid, 0);
    hide Inv, Acuerdo, Sana, Acceder, Empalme, VecesEn, Marco;
  }

  lemma TerminarUnico(c: Config, e: Estado, pid: nat, p: nat, q: int)
    requires Inv(c, e)
    ensures Puede(c, e, Terminar(pid))
    ensures var r := Hacer(c, e, Terminar(pid)).0;
      && r.paginas == e.paginas && MarcosLibres(c, r) == MarcosLibres(c, e) + Cuantas(c, e, pid)
      && (p != pid ==> Cuantas(c, r, p) == Cuantas(c, e, p) && VecesEn(c, r, p, q) == VecesEn(c, e, p, q))
  {
    TerminarCuentas(c, e, pid, p, q);
    hide Inv, VecesEn, Finalizar, MarcosLibres, Cuantas;
  }

  lemma LeerUnico(c: Config, e: Estado, pid: nat, off: nat, n: nat)
    requires Inv(c, e) && c.marcos == c.admin + 1 && VecesEn(c, e, pid, 0) > 0 && off + n <= c.ms
    ensures Puede(c, e, Leer(pid, 0, off, n)) && |e.paginas[c.admin]| == c.ms
    ensures Hacer(c, e, Leer(pid, 0, off, n)).1 == Datos(Heap.Algo(e.paginas[c.admin][off..off + n]))
  {
    MarcoUnico(c, e, pid, 0);
    MarcoUsuario(c, e, pid, 0);
    hide Inv, Acuerdo, Sana, Acceder, VecesEn, Marco, Publicar;
  }

  /**
   * A started server with a single user frame: process `p` asks for a page, writes in it and ends; process `q` asks for
   * a page and reads there what `p` wrote.
   */
  lemma BytesAjenos(c: Config, e: Estado, p: nat, q: nat, d: seq<Byte>)
    requires Arranque(c, e) && c.marcos == c.admin + 1 && p != q && Clave(p, 0) && Clave(q, 0)
    requires Heap.CAB + |d| <= c.ms
    ensures var os := [PedirPagina(p), Escribir(p, 0, Heap.CAB, d), Terminar(p), PedirPagina(q)];
      && Inv(c, e) && Ejecutable(c, e, os + [Leer(q, 0, Heap.CAB, |d|)])
      && Ejecutar(c, e, os + [Leer(q, 0, Heap.CAB, |d|)]).1[4] == Datos(Heap.Algo(d))
  {
    CuentasIniciales(c, e, p, 0);
    CuentasIniciales(c, e, q, 0);
    EjecutarNada(c, e);
    hide Inv, Arranque, Clave, Formateada, Empalme, MarcosLibres, Cuantas, VecesEn, Hacer, Puede, Ejecutar, Ejecutable;
    var o1, o2, o3, o4 := PedirPagina(p), Escribir(p, 0, Heap.CAB, d), Terminar(p), PedirPagina(q);
    PedirUnico(c, e, p, p, 0);
    PedirUnico(c, e, p, q, 0);
    var e1 := Hacer(c, e, o1).0;
    EscribirUnico(c, e1, p, Heap.CAB, d);
    var e2 := Hacer(c, e1, o2).0;
    MismasCuentas(c, e1, e2, p);
    MismasCuentas(c, e1, e2, q);
    TerminarUnico(c, e2, p, q, 0);
    var e3 := Hacer(c, e2, o3).0;
    PedirUnico(c, e3, q, q, 0);
    var e4 := Hacer(c, e3, o4).0;
    LeerUnico(c, e4, q, Heap.CAB, |d|);
    CincoPasos(c, e, e1, e2, e3, e4, o1, o2, o3, o4, Leer(q, 0, Heap.CAB, |d|));
    QuedaEscrito(c, e1.paginas[c.admin], d);
  }

  lemma MismasCuentas(c: Config, e: Estado, r: Estado, p: nat)
    requires Inv(c, e) && Inv(c, r) && r.mapa == e.mapa
    ensures MarcosLibres(c, r) == MarcosLibres(c, e) && Cuantas(c, r, p) == Cuantas(c, e, p)
    ensures VecesEn(c, r, p, 0) == VecesEn(c, e, p, 0)
  {
  }

  /** The new header leaves the bytes after it. */
  lemma QuedaEscrito(c: Config, pg: seq<Byte>, d: seq<Byte>)
    requires |pg| == c.ms && Dimensiones(c) && Heap.CAB + |d| <= c.ms
    ensures Formateada(c, Empalme(pg, Heap.CAB, d))[Heap.CAB..Heap.CAB + |d|] == d
  {
    EmpalmeLeido(pg, Heap.CAB, d);
    EmpalmeFuera(Empalme(pg, Heap.CAB, d), 0, Heap.Cabecera(c.ms - Heap.CAB, true), Heap.CAB, Heap.CAB + |d|);
    hide Empalme;
  }

  /** A run of five requests, one by one. */
  lemma CincoPasos(c: Config, e: Estado, e1: Estado, e2: Estado, e3: Estado, e4: Estado, a: Orden, b: Orden, d: Orden,
                   f: Orden, g: Orden)
    requires Inv(c, e) && Puede(c, e, a) && e1 == Hacer(c, e, a).0 && Puede(c, e1, b) && e2 == Hacer(c, e1, b).0
    requires Puede(c, e2, d) && e3 == Hacer(c, e2, d).0 && Puede(c, e3, f) && e4 == Hacer(c, e3, f).0 && Puede(c, e4, g)
    ensures Ejecutable(c, e, [a, b, d, f] + [g])
    ensures Ejecutar(c, e, [a, b, d, f] + [g]).1[4] == Hacer(c, e4, g).1
  {
    hide Inv, Puede, Hacer, Ejecutar, Ejecutable;
    EjecutarNada(c, e);
    assert [] + [a] == [a] && [a] + [b] == [a, b] && [a, b] + [d] == [a, b, d] && [a, b, d] + [f] == [a, b, d, f];
    EjecutarAgrega(c, e, [], a);
    EjecutarAgrega(c, e, [a], b);
    EjecutarAgrega(c, e, [a, b], d);
    EjecutarAgrega(c, e, [a, b, d], f);
    EjecutarAgrega(c, e, [a, b, d, f], g);
  }

  // ---- a script of whole pages ----

  /** Scripts of whole pages, equal but for the last one. */
  predicate SalvoLaUltima(ms: nat, m: seq<Byte>, w: seq<Byte>) {
    && ms > 1 && |w| == |m| && (|m| + 2) % ms == 0
    && forall i :: 0 <= i < |m| + 2 - ms ==> w[i] == m[i]
  }

  lemma TrozosIguales(ms: nat, m: seq<Byte>, w: seq<Byte>)
    requires SalvoLaUltima(ms, m, w)
    ensures Trozos(m + [0, 0], ms) == Trozos(w + [0, 0], ms) && Cola(m + [0, 0], ms) == Cola(w + [0, 0], ms) == []
  {
    TrozosCaben(|m| + 2, ms);
    assert |m| + 2 - ms >= 0 ==> (m + [0, 0])[..|m| + 2 - ms] == (w + [0, 0])[..|m| + 2 - ms];
  }

  /** Two scripts of whole pages that differ only in the last one leave the server in the same state. */
  lemma UltimaPaginaPerdida(c: Config, e: Estado, pid: nat, m: seq<Byte>, w: seq<Byte>, pila: nat)
    requires Inv(c, e) && Puede(c, e, Nuevo(pid, m, pila)) && SalvoLaUltima(c.ms, m, w)
    ensures Puede(c, e, Nuevo(pid, w, pila)) && Hacer(c, e, Nuevo(pid, w, pila)) == Hacer(c, e, Nuevo(pid, m, pila))
  {
    hide Inv, CopiarGuion, Admitir, Libres, Acuerdo, Trozos, Cola;
    TrozosIguales(c.ms, m, w);
  }

  // ---- and a run that shows it ----

  lemma DosPasos(c: Config, e: Estado, e1: Estado, a: Orden, b: Orden)
    requires Inv(c, e) && Puede(c, e, a) && e1 == Hacer(c, e, a).0 && Puede(c, e1, b)
    ensures Ejecutable(c, e, [a] + [b])
    ensures Ejecutar(c, e, [a] + [b]).1 == [Hacer(c, e, a).1] + [Hacer(c, e1, b).1]
  {
    hide Inv, Puede, Hacer, Ejecutar, Ejecutable;
    EjecutarNada(c, e);
    assert [] + [a] == [a] && [] + [Hacer(c, e, a).1] == [Hacer(c, e, a).1];
    EjecutarAgrega(c, e, [], a);
    EjecutarAgrega(c, e, [a], b);
  }

  lemma GuionAdmitido(c: Config, e: Estado, pid: nat, m: seq<Byte>)
    requires Inv(c, e) && MarcosLibres(c, e) > 0 && Clave(pid, 0) && |m| + 2 == c.ms
    ensures Puede(c, e, Nuevo(pid, m, 0)) && Hacer(c, e, Nuevo(pid, m, 0)).1 == Numero(1)
    ensures Mapeada(c, Hacer(c, e, Nuevo(pid, m, 0)).0, pid, 0)
  {
    hide Inv, Clave, CopiarGuion, Admitir, Trozos, Cola, Acuerdo, Libres, Marco, Mapeada, Contenido;
    Forma(c, e);
    assert PaginasDeGuion(c.ms, c.ms) == 1;
    AdmitirMapea(c, e, pid, 1);
    var e0, r := Admitir(c, e, pid, 1), Hacer(c, e, Nuevo(pid, m, 0)).0;
    assert r.mapa == e0.mapa && Mapeada(c, e0, pid, 0);
    MapeadasIguales(c, e0, r, pid, 1);
  }

  lemma PaginaLeida(c: Config, e: Estado, pid: nat)
    requires Inv(c, e) && Mapeada(c, e, pid, 0)
    ensures Puede(c, e, Leer(pid, 0, 0, c.ms))
    ensures var x := Hacer(c, e, Leer(pid, 0, 0, c.ms)).1;
      x.Datos? && x.datos.Algo?
  {
    hide Inv, Marco, Contenido, Publicar;
  }

  /** A script that fills one page, admitted by a started server and read. */
  function GuionLeido(c: Config, pid: nat, m: seq<Byte>): seq<Orden> {
    [Nuevo(pid, m, 0)] + [Leer(pid, 0, 0, c.ms)]
  }

  /**
   * A started server loads a script that fills one page: what is read back from that page is the same for every such
   * script.
   */
  lemma GuionPerdido(c: Config, e: Estado, pid: nat, m: seq<Byte>, w: seq<Byte>)
    requires Arranque(c, e) && c.marcos > c.admin && Clave(pid, 0) && |m| + 2 == c.ms && |w| + 2 == c.ms
    ensures Inv(c, e) && Ejecutable(c, e, GuionLeido(c, pid, m)) && Ejecutable(c, e, GuionLeido(c, pid, w))
    ensures Ejecutar(c, e, GuionLeido(c, pid, m)).1 == Ejecutar(c, e, GuionLeido(c, pid, w)).1
    ensures var xs := Ejecutar(c, e, GuionLeido(c, pid, m)).1;
      xs[0] == Numero(1) && xs[1].Datos? && xs[1].datos.Algo?
  {
    hide Inv, Arranque, Clave, Puede, Hacer, Ejecutar, Ejecutable, Mapeada, MarcosLibres, Abs;
    CuentasIniciales(c, e, pid, 0);
    UnaPagina(c, e, m, w);
    GuionAdmitido(c, e, pid, m);
    UltimaPaginaPerdida(c, e, pid, m, w, 0);
    var e1 := Hacer(c, e, Nuevo(pid, m, 0)).0;
    PaginaLeida(c, e1, pid);
    DosPasos(c, e, e1, Nuevo(pid, m, 0), Leer(pid, 0, 0, c.ms));
    DosPasos(c, e, e1, Nuevo(pid, w, 0), Leer(pid, 0, 0, c.ms));
  }

  lemma UnaPagina(c: Config, e: Estado, m: seq<Byte>, w: seq<Byte>)
    requires Inv(c, e) && |m| + 2 == c.ms && |w| + 2 == c.ms
    ensures SalvoLaUltima(c.ms, m, w)
  {
  }
}
