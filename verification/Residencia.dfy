/** Which pages are in the cache, over whole runs of the memory server: what brings a page in and what takes it out. */
module Residencia {
  import opened Bytes
  import opened Tablas
  import opened Cache
  import opened Modelo
  import opened Asignacion
  import opened Abstracta
  import opened Corridas
  import Heap

  /** What happens to the cache: a page is accessed, everything is flushed, a process ends, or a page is given back. */
  datatype Suceso =
    | Acceso(pid: nat, pagina: nat, bytes: seq<Byte>)
    | Limpieza
    | FinDe(pid: nat)
    | Devuelta(pid: nat, numero: int)

  function Aplicar(c: Config, s: seq<Slot>, x: Suceso): (r: seq<Slot>)
    requires Sana(s)
    ensures |r| == |s|
  {
    match x
    case Acceso(pid, pagina, bytes) => Acceder(s, c.cuota, pid, pagina, bytes)
    case Limpieza => Vaciada(s, c.ms)
    case FinDe(pid) => SinProceso(s, c.ms, pid)
    case Devuelta(pid, pagina) => SinPagina(s, pid, pagina)
  }

  lemma AplicarSana(c: Config, s: seq<Slot>, x: Suceso)
    requires Sana(s)
    ensures Sana(Aplicar(c, s, x))
  {
    if x.Acceso? {
      hide Sana, Acceder;
      AccederSana(s, c.cuota, x.pid, x.pagina, x.bytes);
    }
  }

  /** The event takes page `(q, k)` out of the cache. */
  ghost predicate Expulsa(c: Config, s: seq<Slot>, x: Suceso, q: int, k: int) {
    match x
    case Acceso(pid, pagina, _) =>
      && !Presente(s, pid, pagina) && Habilitada(s, c.cuota)
      && exists v :: Cede(s, c.cuota, pid, v) && 0 <= v < |s| && Coincide(s[v], q, k)
    case Limpieza => true
    case FinDe(pid) => q == pid
    case Devuelta(pid, pagina) => q == pid && k == pagina
  }

  /** The event brings it in, or keeps it. */
  predicate Trae(c: Config, s: seq<Slot>, x: Suceso, q: int, k: int) {
    x.Acceso? && x.pid == q && x.pagina == k && Habilitada(s, c.cuota)
  }

  lemma FalloResidencia(s: seq<Slot>, cuota: int, pid: nat, pagina: nat, bytes: seq<Byte>, v: int, q: int, k: int)
    requires Sana(s) && !Presente(s, pid, pagina) && Habilitada(s, cuota) && Cede(s, cuota, pid, v) && 0 <= v < |s|
    requires q >= 0 && k >= 0
    ensures Presente(Acceder(s, cuota, pid, pagina, bytes), q, k)
       <==> (Presente(s, q, k) && !Coincide(s[v], q, k)) || (q == pid && k == pagina)
  {
    FalloEnLinea(s, cuota, pid, pagina, bytes);
    var r := Acceder(s, cuota, pid, pagina, bytes);
    hide Acceder, Cede;
    if Presente(r, q, k) && !(q == pid && k == pagina) {
      var j :| 0 <= j < |r| && Coincide(r[j], q, k);
      assert j != v && Coincide(s[j], q, k);
    }
    if Presente(s, q, k) && !Coincide(s[v], q, k) {
      var j :| 0 <= j < |s| && Coincide(s[j], q, k);
      assert Coincide(r[j], q, k);
    }
    if q == pid && k == pagina {
      assert Coincide(r[v], q, k);
    }
  }

  lemma AciertoResidencia(s: seq<Slot>, cuota: int, pid: nat, pagina: nat, bytes: seq<Byte>, q: int, k: int)
    requires Sana(s) && (Presente(s, pid, pagina) || !Habilitada(s, cuota))
    ensures Presente(Acceder(s, cuota, pid, pagina, bytes), q, k) <==> Presente(s, q, k)
  {
    var r := Acceder(s, cuota, pid, pagina, bytes);
    forall j | 0 <= j < |s|
      ensures Coincide(r[j], q, k) <==> Coincide(s[j], q, k)
    {
      AciertoEnLinea(s, cuota, pid, pagina, bytes, j);
    }
    hide Acceder;
    if Presente(s, q, k) {
      var j :| 0 <= j < |s| && Coincide(s[j], q, k);
      assert Coincide(r[j], q, k);
    }
  }

  /** A page is resident after an event exactly when the event brings it in, or it was there and is not expelled. */
  lemma PasoResidencia(c: Config, s: seq<Slot>, x: Suceso, q: nat, k: nat)
    requires Sana(s)
    ensures Presente(Aplicar(c, s, x), q, k) <==> Trae(c, s, x, q, k) || (Presente(s, q, k) && !Expulsa(c, s, x, q, k))
  {
    match x
    case Acceso(pid, pagina, bytes) =>
      hide Sana, Acceder, Cede, Coincide;
      if !Presente(s, pid, pagina) && Habilitada(s, c.cuota) {
        FalloEnLinea(s, c.cuota, pid, pagina, bytes);
        var v :| Cede(s, c.cuota, pid, v);
        FalloResidencia(s, c.cuota, pid, pagina, bytes, v, q, k);
        forall w | Cede(s, c.cuota, pid, w)
          ensures w == v
        {
          CedeUnica(s, c.cuota, pid, v, w);
        }
      } else {
        AciertoResidencia(s, c.cuota, pid, pagina, bytes, q, k);
        PresenteLinea(s, c.cuota, pid, pagina);
      }
    case Limpieza =>
    case FinDe(pid) =>
      if q == pid {
        SinProcesoAusente(s, c.ms, pid, k);
      } else {
        AjenoResidencia(s, SinProceso(s, c.ms, pid), q, k);
      }
    case Devuelta(pid, pagina) =>
      if !(q == pid && k == pagina) {
        AjenoResidencia(s, SinPagina(s, pid, pagina), q, k);
      }
  }

  lemma PresenteLinea(s: seq<Slot>, cuota: int, pid: nat, pagina: nat)
    ensures Habilitada(s, cuota) && !Presente(s, pid, pagina) ==> |s| > 0
  {
  }

  lemma AjenoResidencia(s: seq<Slot>, r: seq<Slot>, q: nat, k: nat)
    requires |r| == |s| && forall j :: 0 <= j < |s| ==> (Coincide(r[j], q, k) <==> Coincide(s[j], q, k))
    ensures Presente(r, q, k) <==> Presente(s, q, k)
  {
    if Presente(s, q, k) {
      var j :| 0 <= j < |s| && Coincide(s[j], q, k);
      assert Coincide(r[j], q, k);
    }
  }

  /** A miss expels a page only when no line is free or its process is at its quota. */
  lemma ExpulsaSinLugar(c: Config, s: seq<Slot>, x: Suceso, q: nat, k: nat)
    requires Sana(s) && x.Acceso? && Expulsa(c, s, x, q, k)
    ensures !HayEspacio(s) || Entradas(s, x.pid, |s|) >= c.cuota
  {
  }

  // ---- the events of a request ----

  ghost function AplicarTodos(c: Config, s: seq<Slot>, xs: seq<Suceso>): (r: seq<Slot>)
    requires Sana(s)
    ensures Sana(r) && |r| == |s|
    decreases |xs|
  {
    if xs == [] then s else
      AplicarSana(c, s, xs[0]);
      AplicarTodos(c, Aplicar(c, s, xs[0]), xs[1..])
  }

  lemma {:induction false} AplicarConcat(c: Config, s: seq<Slot>, xs: seq<Suceso>, ys: seq<Suceso>)
    requires Sana(s)
    ensures AplicarTodos(c, s, xs + ys) == AplicarTodos(c, AplicarTodos(c, s, xs), ys)
    decreases |xs|
  {
    hide Sana, Aplicar;
    if xs == [] {
      assert xs + ys == ys;
    } else {
      AplicarSana(c, s, xs[0]);
      assert (xs + ys)[0] == xs[0] && (xs + ys)[1..] == xs[1..] + ys;
      AplicarConcat(c, Aplicar(c, s, xs[0]), xs[1..], ys);
    }
  }

  lemma AplicarUno(c: Config, s: seq<Slot>, x: Suceso)
    requires Sana(s)
    ensures AplicarTodos(c, s, [x]) == Aplicar(c, s, x)
  {
    AplicarSana(c, s, x);
    hide Sana, Aplicar;
    assert [x][1..] == [];
  }

  lemma CacheSana(c: Config, e: Estado)
    requires Inv(c, e)
    ensures Sana(e.cache)
  {
  }

  /** Replacing the bytes of a mapped page is one access. */
  ghost function Publicado(c: Config, e: Estado, pid: nat, pagina: int, pg: seq<Byte>): (x: Suceso)
    requires Inv(c, e) && Mapeada(c, e, pid, pagina) && |pg| == c.ms
    ensures x.Acceso? && x.pid == pid && x.pagina == pagina
  {
    Acceso(pid, pagina, pg)
  }

  lemma PublicarEs(c: Config, e: Estado, pid: nat, pagina: int, pg: seq<Byte>)
    requires Inv(c, e) && Mapeada(c, e, pid, pagina) && |pg| == c.ms
    ensures Sana(e.cache)
    ensures Publicar(c, e, pid, pagina, pg).cache == AplicarTodos(c, e.cache, [Publicado(c, e, pid, pagina, pg)])
  {
    hide Acuerdo, Sana, Acceder, AplicarTodos;
    Forma(c, e);
    AplicarUno(c, e.cache, Publicado(c, e, pid, pagina, pg));
  }

  /** The accesses of the copy of a script, page by page. */
  ghost function SucesosCopia(c: Config, e: Estado, pid: nat, trozos: seq<seq<Byte>>, i: nat): (xs: seq<Suceso>)
    requires Inv(c, e) && i <= |trozos| && TodasMapeadas(c, e, pid, |trozos|)
    requires forall k :: 0 <= k < |trozos| ==> |trozos[k]| == c.ms
    ensures forall x :: x in xs ==> x.Acceso? && x.pid == pid
    decreases |trozos| - i
  {
    if i == |trozos| then []
    else
      assert Mapeada(c, e, pid, i);
      [Publicado(c, e, pid, i, Empalme(Contenido(c, e, pid, i), 0, trozos[i]))]
        + SucesosCopia(c, CopiarUna(c, e, pid, trozos, i), pid, trozos, i + 1)
  }

  lemma {:induction false} CopiaSucesos(c: Config, e: Estado, pid: nat, trozos: seq<seq<Byte>>, i: nat)
    requires Inv(c, e) && i <= |trozos| && TodasMapeadas(c, e, pid, |trozos|)
    requires forall k :: 0 <= k < |trozos| ==> |trozos[k]| == c.ms
    ensures Sana(e.cache)
    ensures CopiarPaginas(c, e, pid, trozos, i).cache
         == AplicarTodos(c, e.cache, SucesosCopia(c, e, pid, trozos, i))
    decreases |trozos| - i
  {
    hide Inv, Sana, Publicar, Publicado, AplicarTodos;
    CacheSana(c, e);
    if i == |trozos| {
      AplicarNada(c, e.cache);
    } else {
      assert Mapeada(c, e, pid, i);
      var pg := Empalme(Contenido(c, e, pid, i), 0, trozos[i]);
      var e1 := CopiarUna(c, e, pid, trozos, i);
      PublicarEs(c, e, pid, i, pg);
      CopiaSucesos(c, e1, pid, trozos, i + 1);
      AplicarConcat(c, e.cache, [Publicado(c, e, pid, i, pg)], SucesosCopia(c, e1, pid, trozos, i + 1));
    }
  }

  lemma AplicarNada(c: Config, s: seq<Slot>)
    requires Sana(s)
    ensures AplicarTodos(c, s, []) == s
  {
  }

  /** The accesses of the copy of a whole script. */
  ghost function SucesosGuion(c: Config, e: Estado, pid: nat, trozos: seq<seq<Byte>>,
                              cola: seq<Byte>): (xs: seq<Suceso>)
    requires Inv(c, e) && TodasMapeadas(c, e, pid, |trozos| + 1) && |cola| <= c.ms
    requires forall k :: 0 <= k < |trozos| ==> |trozos[k]| == c.ms
    ensures forall x :: x in xs ==> x.Acceso? && x.pid == pid
  {
    hide Inv;
    assert Mapeada(c, e, pid, |trozos|);
    var e1 := CopiarPaginas(c, e, pid, trozos, 0);
    SucesosCopia(c, e, pid, trozos, 0)
      + [Publicado(c, e1, pid, |trozos|, Empalme(Contenido(c, e1, pid, |trozos|), 0, cola))]
  }

  lemma GuionSucesos(c: Config, e: Estado, pid: nat, trozos: seq<seq<Byte>>, cola: seq<Byte>)
    requires Inv(c, e) && TodasMapeadas(c, e, pid, |trozos| + 1) && |cola| <= c.ms
    requires forall k :: 0 <= k < |trozos| ==> |trozos[k]| == c.ms
    ensures Sana(e.cache)
    ensures CopiarGuion(c, e, pid, trozos, cola).cache
         == AplicarTodos(c, e.cache, SucesosGuion(c, e, pid, trozos, cola))
  {
    hide Inv, Sana, AplicarTodos, Publicar, Publicado, CopiarPaginas, SucesosCopia, Clave, Marco;
    assert Mapeada(c, e, pid, |trozos|);
    var e1 := CopiarPaginas(c, e, pid, trozos, 0);
    CopiaSucesos(c, e, pid, trozos, 0);
    var pg := Empalme(Contenido(c, e1, pid, |trozos|), 0, cola);
    PublicarEs(c, e1, pid, |trozos|, pg);
    AplicarConcat(c, e.cache, SucesosCopia(c, e, pid, trozos, 0), [Publicado(c, e1, pid, |trozos|, pg)]);
  }

  /** The events a request is for the cache, in order. */
  ghost function Sucesos(c: Config, e: Estado, o: Orden): (xs: seq<Suceso>)
    requires Inv(c, e) && Puede(c, e, o)
    ensures forall x :: x in xs ==>
      match x
      case Acceso(pid, _, _) => !o.Vaciar? && !o.Terminar? && !o.DevolverPagina? && pid == o.pid
      case Limpieza => o.Vaciar?
      case FinDe(pid) => o == Terminar(pid)
      case Devuelta(pid, numero) => o == DevolverPagina(pid, numero)
  {
    hide Acuerdo, Sana, Trozos, Cola, Admitir, Marco;
    match o
    case Nuevo(pid, mensaje, pila) =>
      var guion: seq<Byte> := mensaje + [0, 0];
      var total: int := PaginasDeGuion(|guion|, c.ms) + pila;
      if total > Libres(e.mapa.tabla, c.marcos) then []
      else
        AdmitirMapea(c, e, pid, total);
        SucesosGuion(c, Admitir(c, e, pid, total), pid, Trozos(guion, c.ms), Cola(guion, c.ms))
    case Leer(pid, pagina, _, _) =>
      if Mapeada(c, e, pid, pagina) then [Publicado(c, e, pid, pagina, Contenido(c, e, pid, pagina))] else []
    case Escribir(pid, pagina, off, d) =>
      [Publicado(c, e, pid, pagina, Empalme(Contenido(c, e, pid, pagina), off, d))]
    case Asignar(pid, pagina, espacio) =>
      var (e1, p, _) := BuscarLugar(c, e, pid, pagina, espacio);
      ReservarLargo(Bloques(c, e1, pid, p), espacio);
      [Publicado(c, e1, pid, p, Heap.Codificar(Heap.Reservar(Bloques(c, e1, pid, p), espacio)))]
    case Soltar(pid, pagina, dir) =>
      [Publicado(c, e, pid, pagina, Soltada(c, e, pid, pagina, dir))]
    case DevolverPagina(pid, pagina) => [Devuelta(pid, pagina)]
    case Vaciar => [Limpieza]
    case Terminar(pid) => [FinDe(pid)]
    case PedirPagina(_) => []
  }

  /** A heap page after a release. */
  ghost function Soltada(c: Config, e: Estado, pid: nat, pagina: int, dir: nat): (pg: seq<Byte>)
    requires Inv(c, e) && Puede(c, e, Soltar(pid, pagina, dir))
    ensures |pg| == c.ms
  {
    var bs := Bloques(c, e, pid, pagina);
    var k := Heap.BloqueEn(bs, dir);
    Heap.SoltarBytes(bs, k);
    Heap.CompactarLargo(Heap.Soltar(bs, k));
    Heap.Codificar(Heap.Compactar(Heap.Soltar(bs, k)))
  }

  lemma NuevoSucesos(c: Config, e: Estado, o: Orden)
    requires Inv(c, e) && o.Nuevo? && Puede(c, e, o)
    ensures Sana(e.cache)
    ensures NuevoProceso(c, e, o.pid, o.mensaje, o.pila).0.cache == AplicarTodos(c, e.cache, Sucesos(c, e, o))
  {
    hide Inv, Sana, AplicarTodos, CopiarGuion, SucesosGuion, Trozos, Cola, Elegidos, Acuerdo, Colocar, Libres, Clave;
    Forma(c, e);
    var guion: seq<Byte> := o.mensaje + [0, 0];
    var pid, total: int := o.pid, PaginasDeGuion(|guion|, c.ms) + o.pila;
    if total <= Libres(e.mapa.tabla, c.marcos) {
      AdmitirMapea(c, e, pid, total);
      GuionSucesos(c, Admitir(c, e, pid, total), pid, Trozos(guion, c.ms), Cola(guion, c.ms));
    } else {
      AplicarNada(c, e.cache);
    }
  }

  /** The cache after a request is the cache before it after the request's events. */
  lemma PasoSucesos(c: Config, e: Estado, o: Orden)
    requires Inv(c, e) && Puede(c, e, o)
    ensures Sana(e.cache) && Hacer(c, e, o).0.cache == AplicarTodos(c, e.cache, Sucesos(c, e, o))
  {
    hide Inv, Sana, AplicarTodos, Publicar, Publicado, BuscarLugar, HeapContiguo, NuevoProceso, Aplicar, Mapeada;
    CacheSana(c, e);
    match o
    case Nuevo(_, _, _) =>
      hide Sucesos;
      NuevoSucesos(c, e, o);
    case Leer(pid, pagina, inicio, largo) =>
      if Mapeada(c, e, pid, pagina) {
        PublicarEs(c, e, pid, pagina, Contenido(c, e, pid, pagina));
      } else {
        AplicarNada(c, e.cache);
      }
    case Escribir(pid, pagina, off, datos) =>
      PublicarEs(c, e, pid, pagina, Empalme(Contenido(c, e, pid, pagina), off, datos));
    case PedirPagina(pid) => AplicarNada(c, e.cache);
    case Asignar(pid, pagina, espacio) =>
      var (e1, p, d) := BuscarLugar(c, e, pid, pagina, espacio);
      BuscarLugarCache(c, e, pid, pagina, espacio);
      ReservarLargo(Bloques(c, e1, pid, p), espacio);
      PublicarEs(c, e1, pid, p, Heap.Codificar(Heap.Reservar(Bloques(c, e1, pid, p), espacio)));
    case Soltar(pid, pagina, dir) => PublicarEs(c, e, pid, pagina, Soltada(c, e, pid, pagina, dir));
    case DevolverPagina(_, _) => LimpiarSucesos(c, e, o);
    case Vaciar => LimpiarSucesos(c, e, o);
    case Terminar(_) => LimpiarSucesos(c, e, o);
  }

  lemma LimpiarSucesos(c: Config, e: Estado, o: Orden)
    requires Inv(c, e) && Puede(c, e, o) && (o.DevolverPagina? || o.Vaciar? || o.Terminar?)
    ensures Sana(e.cache) && Hacer(c, e, o).0.cache == AplicarTodos(c, e.cache, Sucesos(c, e, o))
  {
    hide Inv, Sana, AplicarTodos, Acuerdo;
    CacheSana(c, e);
    AplicarUno(c, e.cache, Sucesos(c, e, o)[0]);
  }

  // ---- whole runs ----

  /** All the events of a run, in order. */
  ghost function SucesosDe(c: Config, e: Estado, os: seq<Orden>): (xs: seq<Suceso>)
    requires Inv(c, e) && Ejecutable(c, e, os)
    decreases |os|
  {
    if os == [] then [] else Sucesos(c, e, os[0]) + SucesosDe(c, Hacer(c, e, os[0]).0, os[1..])
  }

  lemma {:induction false} CorridaSucesos(c: Config, e: Estado, os: seq<Orden>)
    requires Inv(c, e) && Ejecutable(c, e, os)
    ensures Sana(e.cache) && Ejecutar(c, e, os).0.cache == AplicarTodos(c, e.cache, SucesosDe(c, e, os))
    decreases |os|
  {
    hide Inv, Sana, Hacer, Puede, Sucesos, AplicarTodos;
    CacheSana(c, e);
    if os == [] {
      AplicarNada(c, e.cache);
    } else {
      var e1 := Hacer(c, e, os[0]).0;
      PasoSucesos(c, e, os[0]);
      CorridaSucesos(c, e1, os[1..]);
      AplicarConcat(c, e.cache, Sucesos(c, e, os[0]), SucesosDe(c, e1, os[1..]));
    }
  }

  /** Event `i` of the list takes page `(q, k)` out of the cache. */
  ghost predicate ExpulsaEn(c: Config, s: seq<Slot>, xs: seq<Suceso>, i: nat, q: nat, k: nat)
    requires Sana(s) && i < |xs|
  {
    Expulsa(c, AplicarTodos(c, s, xs[..i]), xs[i], q, k)
  }

  /** Event `i` of the list brings it in, or finds it there. */
  ghost predicate TraeEn(c: Config, s: seq<Slot>, xs: seq<Suceso>, i: nat, q: nat, k: nat)
    requires Sana(s) && i < |xs|
  {
    Trae(c, AplicarTodos(c, s, xs[..i]), xs[i], q, k)
  }

  /** The page was there or event `i` brought it in, and no later event expels it. */
  ghost predicate QuedaDesde(c: Config, s: seq<Slot>, xs: seq<Suceso>, i: int, q: nat, k: nat)
    requires Sana(s)
  {
    && -1 <= i < |xs| && (if i == -1 then Presente(s, q, k) else TraeEn(c, s, xs, i, q, k))
    && forall j :: i < j < |xs| ==> !ExpulsaEn(c, s, xs, j, q, k)
  }

  lemma PrefijoIgual(c: Config, s: seq<Slot>, xs: seq<Suceso>, j: nat, q: nat, k: nat)
    requires Sana(s) && j + 1 < |xs|
    ensures ExpulsaEn(c, s, xs[..|xs| - 1], j, q, k) <==> ExpulsaEn(c, s, xs, j, q, k)
    ensures TraeEn(c, s, xs[..|xs| - 1], j, q, k) <==> TraeEn(c, s, xs, j, q, k)
  {
    hide Sana, AplicarTodos;
    assert xs[..|xs| - 1][..j] == xs[..j];
  }

  /**
   * A page is resident after a list of events exactly when it was there, or an event brought it in, and no later event
   * expels it.
   */
  lemma {:induction false} ResidenciaDe(c: Config, s: seq<Slot>, xs: seq<Suceso>, q: nat, k: nat)
    requires Sana(s)
    ensures Presente(AplicarTodos(c, s, xs), q, k) <==> exists i :: QuedaDesde(c, s, xs, i, q, k)
    decreases |xs|
  {
    hide Sana, Aplicar, Presente, Expulsa, Trae, AplicarTodos;
    if xs == [] {
      AplicarNada(c, s);
      assert Presente(s, q, k) ==> QuedaDesde(c, s, xs, -1, q, k);
    } else {
      var n := |xs| - 1;
      var ys := xs[..n];
      ResidenciaDe(c, s, ys, q, k);
      var t := AplicarTodos(c, s, ys);
      assert xs == ys + [xs[n]];
      AplicarConcat(c, s, ys, [xs[n]]);
      AplicarUno(c, t, xs[n]);
      PasoResidencia(c, t, xs[n], q, k);
      assert ExpulsaEn(c, s, xs, n, q, k) <==> Expulsa(c, t, xs[n], q, k);
      assert TraeEn(c, s, xs, n, q, k) <==> Trae(c, t, xs[n], q, k);
      forall i | -1 <= i < n
        ensures QuedaDesde(c, s, xs, i, q, k) <==> QuedaDesde(c, s, ys, i, q, k) && !ExpulsaEn(c, s, xs, n, q, k)
      {
        QuedaUnoMas(c, s, xs, i, q, k);
      }
      if TraeEn(c, s, xs, n, q, k) {
        assert QuedaDesde(c, s, xs, n, q, k);
      }
    }
  }

  lemma QuedaUnoMas(c: Config, s: seq<Slot>, xs: seq<Suceso>, i: int, q: nat, k: nat)
    requires Sana(s) && xs != [] && -1 <= i < |xs| - 1
    ensures var n := |xs| - 1;
      QuedaDesde(c, s, xs, i, q, k) <==> QuedaDesde(c, s, xs[..n], i, q, k) && !ExpulsaEn(c, s, xs, n, q, k)
  {
    hide Sana, Presente, ExpulsaEn, TraeEn;
    var n := |xs| - 1;
    if i >= 0 {
      PrefijoIgual(c, s, xs, i, q, k);
    }
    if QuedaDesde(c, s, xs, i, q, k) {
      forall j | i < j < n
        ensures !ExpulsaEn(c, s, xs[..n], j, q, k)
      {
        assert !ExpulsaEn(c, s, xs, j, q, k);
        PrefijoIgual(c, s, xs, j, q, k);
      }
    }
    if QuedaDesde(c, s, xs[..n], i, q, k) && !ExpulsaEn(c, s, xs, n, q, k) {
      forall j | i < j < |xs|
        ensures !ExpulsaEn(c, s, xs, j, q, k)
      {
        if j < n {
          assert !ExpulsaEn(c, s, xs[..n], j, q, k);
          PrefijoIgual(c, s, xs, j, q, k);
        }
      }
    }
  }

  /** The same over a run of the server. */
  lemma CorridaResidencia(c: Config, e: Estado, os: seq<Orden>, q: nat, k: nat)
    requires Inv(c, e) && Ejecutable(c, e, os)
    ensures Sana(e.cache)
    ensures Presente(Ejecutar(c, e, os).0.cache, q, k)
       <==> exists i :: QuedaDesde(c, e.cache, SucesosDe(c, e, os), i, q, k)
  {
    hide Inv, Sana, Presente, QuedaDesde, AplicarTodos, Ejecutar, Ejecutable, SucesosDe;
    CorridaSucesos(c, e, os);
    ResidenciaDe(c, e.cache, SucesosDe(c, e, os), q, k);
  }

  /**
   * A request after which a page is no longer in the cache is a flush, the end of its process, its release, or one of
   * its accesses missed when no line was free or its process was at its quota.
   */
  lemma PorQueSale(c: Config, e: Estado, o: Orden, q: nat, k: nat)
    requires Inv(c, e) && Puede(c, e, o)
    requires Presente(e.cache, q, k) && !Presente(Hacer(c, e, o).0.cache, q, k)
    ensures Sana(e.cache)
    ensures o.Vaciar? || o == Terminar(q) || o == DevolverPagina(q, k)
      || exists i :: 0 <= i < |Sucesos(c, e, o)| && FallaSinLugar(c, AplicarTodos(c, e.cache, Sucesos(c, e, o)[..i]),
                                                                 Sucesos(c, e, o)[i])
  {
    hide Inv, Sana, Presente, Hacer, Puede, AplicarTodos, Expulsa, Sucesos;
    var xs := Sucesos(c, e, o);
    PasoSucesos(c, e, o);
    ResidenciaDe(c, e.cache, xs, q, k);
    assert !QuedaDesde(c, e.cache, xs, -1, q, k);
    var j :| 0 <= j < |xs| && ExpulsaEn(c, e.cache, xs, j, q, k);
    assert xs[j] in xs;
    Causa(c, AplicarTodos(c, e.cache, xs[..j]), xs[j], q, k);
  }

  /** An access that misses with no line free, or with its process at its quota. */
  predicate FallaSinLugar(c: Config, s: seq<Slot>, x: Suceso) {
    x.Acceso? && !Presente(s, x.pid, x.pagina) && (!HayEspacio(s) || Entradas(s, x.pid, |s|) >= c.cuota)
  }

  lemma Causa(c: Config, s: seq<Slot>, x: Suceso, q: nat, k: nat)
    requires Sana(s) && Expulsa(c, s, x, q, k)
    ensures FallaSinLugar(c, s, x) || x.Limpieza? || x == FinDe(q) || x == Devuelta(q, k)
  {
    if x.Acceso? {
      ExpulsaSinLugar(c, s, x, q, k);
    }
  }

  // ---- after a flush ----

  /** A flushed line: no page, no process, no age, and nothing but zeros. */
  predicate EnBlanco(s: Slot, ms: nat) {
    s.pid == -1 && s.pagina == -1 && s.refPid == -1 && s.edad == -1
    && |s.contenido| == ms && forall i :: 0 <= i < ms ==> s.contenido[i] == 0
  }

  lemma FlushVacia(c: Config, e: Estado, q: nat, k: nat)
    requires Inv(c, e)
    ensures var r := Hacer(c, e, Vaciar).0;
      && |r.cache| == |e.cache| && (forall i :: 0 <= i < |r.cache| ==> EnBlanco(r.cache[i], c.ms))
      && !Presente(r.cache, q, k) && r.mapa == e.mapa && r.paginas == e.paginas
  {
    hide Acuerdo, Sana;
  }

  /** The end of a process leaves its lines the same way, and no other line changes. */
  lemma FinalVacia(c: Config, e: Estado, pid: nat, i: nat)
    requires Inv(c, e) && i < |e.cache|
    ensures var r := Hacer(c, e, Terminar(pid)).0;
      |r.cache| == |e.cache|
          && if e.cache[i].refPid == pid then EnBlanco(r.cache[i], c.ms) else r.cache[i] == e.cache[i]
  {
    hide Acuerdo, Sana;
  }

  lemma PrimeraLinea(s: seq<Slot>, cuota: int, pid: nat, ms: nat)
    requires Habilitada(s, cuota) && forall i :: 0 <= i < |s| ==> EnBlanco(s[i], ms)
    ensures Cede(s, cuota, pid, 0)
  {
    SinEntradas(s, pid, |s|);
    assert Libre(s[0]) && HayEspacio(s);
  }

  lemma {:induction false} SinEntradas(s: seq<Slot>, pid: nat, n: nat)
    requires n <= |s| && forall i :: 0 <= i < |s| ==> s[i].pid == -1
    ensures Entradas(s, pid, n) == 0
  {
    if n > 0 {
      SinEntradas(s, pid, n - 1);
    }
  }

  lemma LeerEs(c: Config, e: Estado, pid: nat, pagina: int, inicio: nat, largo: nat)
    requires Inv(c, e) && inicio + largo <= c.ms && Mapeada(c, e, pid, pagina)
    ensures Sana(e.cache) && pagina >= 0 && Puede(c, e, Leer(pid, pagina, inicio, largo))
    ensures Hacer(c, e, Leer(pid, pagina, inicio, largo)).0.cache
         == Acceder(e.cache, c.cuota, pid, pagina, Contenido(c, e, pid, pagina))
  {
    hide Acuerdo, Sana, Marco, Acceder, Contenido;
    Forma(c, e);
  }

  lemma MismaPagina(c: Config, e: Estado, r: Estado, pid: nat, pagina: int)
    requires Inv(c, e) && Inv(c, r) && r.mapa == e.mapa && r.paginas == e.paginas && Mapeada(c, e, pid, pagina)
    ensures Mapeada(c, r, pid, pagina) && Contenido(c, r, pid, pagina) == Contenido(c, e, pid, pagina)
  {
    hide Acuerdo, Sana;
  }

  /** After a flush the first read of a mapped page is a miss that takes line 0 and leaves every other line blank. */
  lemma PrimeraLectura(c: Config, e: Estado, pid: nat, pagina: int, inicio: nat, largo: nat)
    requires Inv(c, e) && Habilitada(e.cache, c.cuota) && inicio + largo <= c.ms && Mapeada(c, e, pid, pagina)
    ensures var e1 := Hacer(c, e, Vaciar).0;
      && !Presente(e1.cache, pid, pagina) && Puede(c, e1, Leer(pid, pagina, inicio, largo))
      && var r := Hacer(c, e1, Leer(pid, pagina, inicio, largo)).0;
        && r.cache[0] == Slot(pid, pagina, Contenido(c, e, pid, pagina), pid, 0)
        && forall i :: 0 < i < |r.cache| ==> r.cache[i].pid == -1 && r.cache[i].pagina == -1 && r.cache[i].refPid == -1
  {
    hide Inv, Sana, Hacer, Mapeada, Contenido, Acceder, Cede;
    var e1 := Hacer(c, e, Vaciar).0;
    LeerEs(c, e, pid, pagina, inicio, largo);
    FlushVacia(c, e, pid, pagina);
    MismaPagina(c, e, e1, pid, pagina);
    LeerEs(c, e1, pid, pagina, inicio, largo);
    PrimeraLinea(e1.cache, c.cuota, pid, c.ms);
    FalloEnLinea(e1.cache, c.cuota, pid, pagina, Contenido(c, e, pid, pagina));
  }
}
