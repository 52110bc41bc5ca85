/** Runs of the memory server: every sequence of requests, against the plain machine. */
module Corridas {
  import opened Bytes
  import opened Tablas
  import opened Conteo
  import opened Cache
  import opened Modelo
  import opened Asignacion
  import opened Disposicion
  import opened Abstracta
  import Heap

  // ---- runs ----

  ghost predicate Ejecutable(c: Config, e: Estado, os: seq<Orden>)
    requires Inv(c, e)
    decreases |os|
  {
    os == [] || (Puede(c, e, os[0]) && Ejecutable(c, Hacer(c, e, os[0]).0, os[1..]))
  }

  ghost function Ejecutar(c: Config, e: Estado, os: seq<Orden>): (r: (Estado, seq<Respuesta>))
    requires Inv(c, e) && Ejecutable(c, e, os)
    ensures Inv(c, r.0) && |r.1| == |os|
    decreases |os|
  {
    if os == [] then (e, [])
    else
      var (e1, x) := Hacer(c, e, os[0]);
      var (r, xs) := Ejecutar(c, e1, os[1..]);
      (r, [x] + xs)
  }

  ghost predicate CorridaAbs(c: Config, a: Vision, os: seq<Orden>, xs: seq<Respuesta>, b: Vision)
    requires c.ms > 0 && |xs| == |os|
    decreases |os|
  {
    if os == [] then b.paginas == a.paginas && MismosMarcos(a, b)
    else exists m: Vision :: PasoAbs(c, a, os[0], xs[0], m) && CorridaAbs(c, m, os[1..], xs[1..], b)
  }

  /** Whatever the requests, the answers of the server are answers of the plain machine. */
  lemma {:induction false} CorridaRefina(c: Config, e: Estado, os: seq<Orden>)
    requires Inv(c, e) && Ejecutable(c, e, os)
    ensures c.ms > 0 && Inv(c, Ejecutar(c, e, os).0)
    ensures CorridaAbs(c, Ver(c, e), os, Ejecutar(c, e, os).1, Ver(c, Ejecutar(c, e, os).0))
    decreases |os|
  {
    hide Acuerdo, Sana, Inv, Ver, Hacer, Puede, PasoAbs;
    Forma(c, e);
    if os != [] {
      PasoRefina(c, e, os[0]);
      CorridaRefina(c, Hacer(c, e, os[0]).0, os[1..]);
      var xs := Ejecutar(c, e, os).1;
      assert xs[0] == Hacer(c, e, os[0]).1 && xs[1..] == Ejecutar(c, Hacer(c, e, os[0]).0, os[1..]).1;
    }
  }

  // ---- recency and quota along a run ----

  /** The lines touched by the copy of a script, in order. */
  ghost function ToquesCopia(c: Config, e: Estado, pid: nat, trozos: seq<seq<Byte>>, i: nat): (h: seq<int>)
    requires Inv(c, e) && i <= |trozos| && TodasMapeadas(c, e, pid, |trozos|)
    requires forall k :: 0 <= k < |trozos| ==> |trozos[k]| == c.ms
    decreases |trozos| - i
  {
    if i == |trozos| then []
    else [Toque(e.cache, c.cuota, pid, i)] + ToquesCopia(c, CopiarUna(c, e, pid, trozos, i), pid, trozos, i + 1)
  }

  /** The cache lines a request touches, one entry an access. */
  ghost function Toques(c: Config, e: Estado, o: Orden): (h: seq<int>)
    requires Inv(c, e) && Puede(c, e, o)
  {
    match o
    case Nuevo(pid, mensaje, pila) =>
      var guion: seq<Byte> := mensaje + [0, 0];
      var total: int := PaginasDeGuion(|guion|, c.ms) + pila;
      if total > Libres(e.mapa.tabla, c.marcos) then []
      else
        AdmitirMapea(c, e, pid, total);
        var e0, trozos := Admitir(c, e, pid, total), Trozos(guion, c.ms);
        ToquesCopia(c, e0, pid, trozos, 0) + [Toque(CopiarPaginas(c, e0, pid, trozos, 0).cache, c.cuota, pid, |trozos|)]
    case Leer(pid, pagina, _, _) => if Mapeada(c, e, pid, pagina) then [Toque(e.cache, c.cuota, pid, pagina)] else []
    case Escribir(pid, pagina, _, _) => [Toque(e.cache, c.cuota, pid, pagina)]
    case Asignar(pid, pagina, espacio) => [Toque(e.cache, c.cuota, pid, BuscarLugar(c, e, pid, pagina, espacio).1)]
    case Soltar(pid, pagina, _) => [Toque(e.cache, c.cuota, pid, pagina)]
    case _ => []
  }

  lemma PublicarEdades(c: Config, e: Estado, pid: int, pagina: int, pg: seq<Byte>, h: seq<int>)
    requires Inv(c, e) && Mapeada(c, e, pid, pagina) && |pg| == c.ms
    ensures EdadesReales(e.cache, h) ==>
              EdadesReales(Publicar(c, e, pid, pagina, pg).cache, h + [Toque(e.cache, c.cuota, pid, pagina)])
    ensures Sincronizada(e.cache) && CuotaRespetada(e.cache, c.cuota) ==>
              Sincronizada(Publicar(c, e, pid, pagina, pg).cache)
                  && CuotaRespetada(Publicar(c, e, pid, pagina, pg).cache, c.cuota)
  {
    hide Acuerdo, Inv, Sana, EdadesReales, CuotaRespetada, Sincronizada, Acceder, Toque;
    Forma(c, e);
    if EdadesReales(e.cache, h) {
      AccederEdades(e.cache, c.cuota, pid, pagina, pg, h);
    }
    if Sincronizada(e.cache) && CuotaRespetada(e.cache, c.cuota) {
      AccederCuota(e.cache, c.cuota, pid, pagina, pg);
    }
  }

  lemma {:induction false} BuscarLugarCache(c: Config, e: Estado, pid: nat, pagina: nat, espacio: nat)
    requires Inv(c, e) && HeapContiguo(c, e, pid, pagina)
    ensures BuscarLugar(c, e, pid, pagina, espacio).0.cache == e.cache
    decreases MarcosLibres(c, e), Cuantas(c, e, pid) - pagina
  {
    hide Inv, HeapContiguo, DeBloques, Bloques, BuscarLugar, Cuantas, MarcosLibres, Clave;
    BuscarLugarAqui(c, e, pid, pagina, espacio);
    if Heap.Direccion(Bloques(c, e, pid, pagina), espacio) != -1 {
    } else if pagina + 1 < Cuantas(c, e, pid) {
      BuscarLugarSigue(c, e, pid, pagina, espacio);
      BuscarLugarCache(c, e, pid, pagina + 1, espacio);
    } else if MarcosLibres(c, e) > 0 {
      BuscarLugarAgrega(c, e, pid, pagina, espacio);
      BuscarLugarCache(c, ConPagina(c, e, pid, pagina), pid, pagina + 1, espacio);
    }
  }

  lemma {:induction false} CopiaEdades(c: Config, e: Estado, pid: nat, trozos: seq<seq<Byte>>, i: nat, h: seq<int>)
    requires Inv(c, e) && i <= |trozos| && TodasMapeadas(c, e, pid, |trozos|)
    requires forall k :: 0 <= k < |trozos| ==> |trozos[k]| == c.ms
    ensures var r := CopiarPaginas(c, e, pid, trozos, i);
            && (EdadesReales(e.cache, h) ==> EdadesReales(r.cache, h + ToquesCopia(c, e, pid, trozos, i)))
            && (Sincronizada(e.cache) && CuotaRespetada(e.cache, c.cuota) ==>
                  Sincronizada(r.cache) && CuotaRespetada(r.cache, c.cuota))
    decreases |trozos| - i
  {
    hide Inv, EdadesReales, CuotaRespetada, Sincronizada, Publicar, Toque;
    if i == |trozos| {
      assert h + [] == h;
    } else {
      assert Mapeada(c, e, pid, i);
      PublicarEdades(c, e, pid, i, Empalme(Contenido(c, e, pid, i), 0, trozos[i]), h);
      var e1, t := CopiarUna(c, e, pid, trozos, i), [Toque(e.cache, c.cuota, pid, i)];
      CopiaEdades(c, e1, pid, trozos, i + 1, h + t);
      ConcatAsocia(h, t, ToquesCopia(c, e1, pid, trozos, i + 1));
    }
  }

  lemma NuevoEdades(c: Config, e: Estado, pid: nat, mensaje: seq<Byte>, pila: nat, h: seq<int>)
    requires Inv(c, e) && Puede(c, e, Nuevo(pid, mensaje, pila))
    ensures var r := NuevoProceso(c, e, pid, mensaje, pila).0;
            && (EdadesReales(e.cache, h) ==> EdadesReales(r.cache, h + Toques(c, e, Nuevo(pid, mensaje, pila))))
            && (Sincronizada(e.cache) && CuotaRespetada(e.cache, c.cuota) ==>
                  Sincronizada(r.cache) && CuotaRespetada(r.cache, c.cuota))
  {
    hide Inv, EdadesReales, CuotaRespetada, Sincronizada, Publicar, Toque, CopiarPaginas, ToquesCopia, Trozos, Cola,
      Elegidos, Acuerdo, Sana;
    Forma(c, e);
    var guion: seq<Byte> := mensaje + [0, 0];
    var total: int := PaginasDeGuion(|guion|, c.ms) + pila;
    assert h + [] == h;
    if total <= Libres(e.mapa.tabla, c.marcos) {
      AdmitirMapea(c, e, pid, total);
      var e0, trozos, cola := Admitir(c, e, pid, total), Trozos(guion, c.ms), Cola(guion, c.ms);
      CopiaEdades(c, e0, pid, trozos, 0, h);
      var e1, hs := CopiarPaginas(c, e0, pid, trozos, 0), ToquesCopia(c, e0, pid, trozos, 0);
      assert Mapeada(c, e0, pid, |trozos|);
      PublicarEdades(c, e1, pid, |trozos|, Empalme(Contenido(c, e1, pid, |trozos|), 0, cola), h + hs);
      ConcatAsocia(h, hs, [Toque(e1.cache, c.cuota, pid, |trozos|)]);
    }
  }

  /** Every request keeps the ages in the cache equal to the true ones; and every request but the return
      of a page keeps the quota. */
  lemma PasoEdades(c: Config, e: Estado, o: Orden, h: seq<int>)
    requires Inv(c, e) && Puede(c, e, o)
    ensures EdadesReales(e.cache, h) ==> EdadesReales(Hacer(c, e, o).0.cache, h + Toques(c, e, o))
    ensures !o.DevolverPagina? && Sincronizada(e.cache) && CuotaRespetada(e.cache, c.cuota) ==>
              Sincronizada(Hacer(c, e, o).0.cache) && CuotaRespetada(Hacer(c, e, o).0.cache, c.cuota)
  {
    hide Inv, EdadesReales, CuotaRespetada, Sincronizada, Publicar, Toque, BuscarLugar, HeapContiguo, NuevoProceso;
    assert h + [] == h;
    match o
    case Nuevo(pid, mensaje, pila) => NuevoEdades(c, e, pid, mensaje, pila, h);
    case Leer(pid, pagina, inicio, largo) =>
      if Mapeada(c, e, pid, pagina) {
        PublicarEdades(c, e, pid, pagina, Contenido(c, e, pid, pagina), h);
      }
    case Escribir(pid, pagina, off, datos) =>
      PublicarEdades(c, e, pid, pagina, Empalme(Contenido(c, e, pid, pagina), off, datos), h);
    case PedirPagina(pid) =>
    case Asignar(pid, pagina, espacio) =>
      var (e1, p, d) := BuscarLugar(c, e, pid, pagina, espacio);
      BuscarLugarCache(c, e, pid, pagina, espacio);
      ReservarLargo(Bloques(c, e1, pid, p), espacio);
      PublicarEdades(c, e1, pid, p, Heap.Codificar(Heap.Reservar(Bloques(c, e1, pid, p), espacio)), h);
    case Soltar(pid, pagina, dir) =>
      var bs := Bloques(c, e, pid, pagina);
      var k := Heap.BloqueEn(bs, dir);
      Heap.SoltarBytes(bs, k);
      Heap.CompactarLargo(Heap.Soltar(bs, k));
      PublicarEdades(c, e, pid, pagina, Heap.Codificar(Heap.Compactar(Heap.Soltar(bs, k))), h);
    case DevolverPagina(pid, pagina) =>
      if EdadesReales(e.cache, h) { LimpiezasEdades(e.cache, h, c.ms, pid, pagina); }
    case Vaciar =>
      if EdadesReales(e.cache, h) { LimpiezasEdades(e.cache, h, c.ms, 0, 0); }
      if Sincronizada(e.cache) && CuotaRespetada(e.cache, c.cuota) { LimpiezasCuota(e.cache, c.cuota, c.ms, 0); }
    case Terminar(pid) =>
      if EdadesReales(e.cache, h) { LimpiezasEdades(e.cache, h, c.ms, pid, 0); }
      if Sincronizada(e.cache) && CuotaRespetada(e.cache, c.cuota) { LimpiezasCuota(e.cache, c.cuota, c.ms, pid); }
  }

  /** All the lines touched along a run, in order. */
  ghost function Historia(c: Config, e: Estado, os: seq<Orden>): (h: seq<int>)
    requires Inv(c, e) && Ejecutable(c, e, os)
    decreases |os|
  {
    if os == [] then [] else Toques(c, e, os[0]) + Historia(c, Hacer(c, e, os[0]).0, os[1..])
  }

  /** Over any run the ages in the cache are the true ages, so every victim is the least recently used
      candidate; and over a run that returns no single page no process exceeds its quota. */
  lemma {:induction false} CorridaEdades(c: Config, e: Estado, os: seq<Orden>, h: seq<int>)
    requires Inv(c, e) && Ejecutable(c, e, os)
    ensures EdadesReales(e.cache, h) ==> EdadesReales(Ejecutar(c, e, os).0.cache, h + Historia(c, e, os))
    ensures (forall o :: o in os ==> !o.DevolverPagina?) &&
            Sincronizada(e.cache) && CuotaRespetada(e.cache, c.cuota) ==>
              CuotaRespetada(Ejecutar(c, e, os).0.cache, c.cuota)
    decreases |os|
  {
    hide Inv, EdadesReales, CuotaRespetada, Sincronizada, Hacer, Puede, Toques;
    if os == [] {
      assert h + [] == h;
    } else {
      var e1, t := Hacer(c, e, os[0]).0, Toques(c, e, os[0]);
      PasoEdades(c, e, os[0], h);
      CorridaEdades(c, e1, os[1..], h + t);
      ConcatAsocia(h, t, Historia(c, e1, os[1..]));
      assert os[0] in os && forall o :: o in os[1..] ==> o in os;
    }
  }

  // ---- recency of the pages requested ----

  /** The pages a request accesses through the cache, in order. */
  ghost function Accesos(c: Config, e: Estado, o: Orden): (g: seq<(int, int)>)
    requires Inv(c, e) && Puede(c, e, o)
  {
    match o
    case Nuevo(pid, mensaje, pila) =>
      var paginas := PaginasDeGuion(|mensaje| + 2, c.ms);
      if paginas + pila > Libres(e.mapa.tabla, c.marcos) then [] else PaginasSeguidas(pid, 0, paginas)
    case Leer(pid, pagina, _, _) => if Mapeada(c, e, pid, pagina) then [(pid, pagina)] else []
    case Escribir(pid, pagina, _, _) => [(pid, pagina)]
    case Asignar(pid, pagina, espacio) => [(pid, Alocar(c, e, pid, pagina, espacio).1)]
    case Soltar(pid, pagina, _) => [(pid, pagina)]
    case _ => []
  }

  function PaginasSeguidas(pid: int, desde: nat, hasta: nat): (g: seq<(int, int)>)
    requires desde <= hasta
    decreases hasta - desde
  {
    if desde == hasta then [] else [(pid, desde)] + PaginasSeguidas(pid, desde + 1, hasta)
  }

  lemma {:induction false} UnaSeguida(pid: int, desde: nat, hasta: nat)
    requires desde <= hasta
    ensures PaginasSeguidas(pid, desde, hasta + 1) == PaginasSeguidas(pid, desde, hasta) + [(pid, hasta)]
    decreases hasta - desde
  {
    if desde < hasta {
      UnaSeguida(pid, desde + 1, hasta);
    }
  }

  lemma PublicarPaginas(c: Config, e: Estado, pid: int, pagina: int, pg: seq<Byte>, g: seq<(int, int)>)
    requires Inv(c, e) && Mapeada(c, e, pid, pagina) && |pg| == c.ms && PaginasReales(e.cache, g)
    ensures PaginasReales(Publicar(c, e, pid, pagina, pg).cache, g + [(pid, pagina)])
  {
    hide Acuerdo, Inv, Sana, PaginasReales, Acceder;
    Forma(c, e);
    AccederPaginas(e.cache, c.cuota, pid, pagina, pg, g);
  }

  lemma {:induction false} CopiaPaginas(c: Config, e: Estado, pid: nat, trozos: seq<seq<Byte>>, i: nat,
                                        g: seq<(int, int)>)
    requires Inv(c, e) && i <= |trozos| && TodasMapeadas(c, e, pid, |trozos|) && PaginasReales(e.cache, g)
    requires forall k :: 0 <= k < |trozos| ==> |trozos[k]| == c.ms
    ensures PaginasReales(CopiarPaginas(c, e, pid, trozos, i).cache, g + PaginasSeguidas(pid, i, |trozos|))
    decreases |trozos| - i
  {
    hide Inv, PaginasReales, Publicar;
    if i == |trozos| {
      assert g + [] == g;
    } else {
      assert Mapeada(c, e, pid, i);
      PublicarPaginas(c, e, pid, i, Empalme(Contenido(c, e, pid, i), 0, trozos[i]), g);
      var e1, t := CopiarUna(c, e, pid, trozos, i), [(pid as int, i as int)];
      CopiaPaginas(c, e1, pid, trozos, i + 1, g + t);
      ConcatAsocia(g, t, PaginasSeguidas(pid, i + 1, |trozos|));
    }
  }

  lemma NuevoPaginas(c: Config, e: Estado, pid: nat, mensaje: seq<Byte>, pila: nat, g: seq<(int, int)>)
    requires Inv(c, e) && Puede(c, e, Nuevo(pid, mensaje, pila)) && PaginasReales(e.cache, g)
    ensures PaginasReales(NuevoProceso(c, e, pid, mensaje, pila).0.cache, g + Accesos(c, e, Nuevo(pid, mensaje, pila)))
  {
    hide Inv, PaginasReales, Publicar, CopiarPaginas, Trozos, Cola, Elegidos, Acuerdo, Sana;
    Forma(c, e);
    var guion: seq<Byte> := mensaje + [0, 0];
    var total: int := PaginasDeGuion(|guion|, c.ms) + pila;
    assert g + [] == g;
    if total <= Libres(e.mapa.tabla, c.marcos) {
      AdmitirMapea(c, e, pid, total);
      var e0, trozos, cola := Admitir(c, e, pid, total), Trozos(guion, c.ms), Cola(guion, c.ms);
      CopiaPaginas(c, e0, pid, trozos, 0, g);
      var e1, gs := CopiarPaginas(c, e0, pid, trozos, 0), PaginasSeguidas(pid, 0, |trozos|);
      assert Mapeada(c, e0, pid, |trozos|);
      PublicarPaginas(c, e1, pid, |trozos|, Empalme(Contenido(c, e1, pid, |trozos|), 0, cola), g + gs);
      UnaSeguida(pid, 0, |trozos|);
      ConcatAsocia(g, gs, [(pid as int, |trozos| as int)]);
    }
  }

  lemma PasoPaginas(c: Config, e: Estado, o: Orden, g: seq<(int, int)>)
    requires Inv(c, e) && Puede(c, e, o) && PaginasReales(e.cache, g)
    ensures PaginasReales(Hacer(c, e, o).0.cache, g + Accesos(c, e, o))
  {
    hide Inv, PaginasReales, Publicar, BuscarLugar, HeapContiguo, NuevoProceso;
    assert g + [] == g;
    match o
    case Nuevo(pid, mensaje, pila) => NuevoPaginas(c, e, pid, mensaje, pila, g);
    case Leer(pid, pagina, inicio, largo) =>
      if Mapeada(c, e, pid, pagina) {
        PublicarPaginas(c, e, pid, pagina, Contenido(c, e, pid, pagina), g);
      }
    case Escribir(pid, pagina, off, datos) =>
      PublicarPaginas(c, e, pid, pagina, Empalme(Contenido(c, e, pid, pagina), off, datos), g);
    case PedirPagina(pid) =>
    case Asignar(pid, pagina, espacio) =>
      var (e1, p, d) := BuscarLugar(c, e, pid, pagina, espacio);
      BuscarLugarCache(c, e, pid, pagina, espacio);
      ReservarLargo(Bloques(c, e1, pid, p), espacio);
      PublicarPaginas(c, e1, pid, p, Heap.Codificar(Heap.Reservar(Bloques(c, e1, pid, p), espacio)), g);
    case Soltar(pid, pagina, dir) =>
      var bs := Bloques(c, e, pid, pagina);
      var k := Heap.BloqueEn(bs, dir);
      Heap.SoltarBytes(bs, k);
      Heap.CompactarLargo(Heap.Soltar(bs, k));
      PublicarPaginas(c, e, pid, pagina, Heap.Codificar(Heap.Compactar(Heap.Soltar(bs, k))), g);
    case DevolverPagina(pid, pagina) => LimpiezasPaginas(e.cache, g, c.ms, pid, pagina);
    case Vaciar => LimpiezasPaginas(e.cache, g, c.ms, 0, 0);
    case Terminar(pid) => LimpiezasPaginas(e.cache, g, c.ms, pid, 0);
  }

  /** All the pages accessed along a run, in order. */
  ghost function Pedidas(c: Config, e: Estado, os: seq<Orden>): (g: seq<(int, int)>)
    requires Inv(c, e) && Ejecutable(c, e, os)
    decreases |os|
  {
    if os == [] then [] else Accesos(c, e, os[0]) + Pedidas(c, Hacer(c, e, os[0]).0, os[1..])
  }

  /** Over any run, pages freed or not, the age of a resident page is how long ago it was last requested. */
  lemma {:induction false} CorridaPaginas(c: Config, e: Estado, os: seq<Orden>, g: seq<(int, int)>)
    requires Inv(c, e) && Ejecutable(c, e, os) && PaginasReales(e.cache, g)
    ensures PaginasReales(Ejecutar(c, e, os).0.cache, g + Pedidas(c, e, os))
    decreases |os|
  {
    hide Inv, PaginasReales, Hacer, Puede, Accesos;
    if os == [] {
      assert g + [] == g;
    } else {
      var e1, t := Hacer(c, e, os[0]).0, Accesos(c, e, os[0]);
      PasoPaginas(c, e, os[0], g);
      CorridaPaginas(c, e1, os[1..], g + t);
      ConcatAsocia(g, t, Pedidas(c, e1, os[1..]));
    }
  }

  // ---- when page numbers stay unique ----

  /** A page asked for keeps the numbers of all pages distinct if and only if its number, the count of
      the pages of the process, is not in use. */
  lemma NuevaPaginaUnica(c: Config, e: Estado, pid: nat)
    requires Inv(c, e) && Puede(c, e, PedirPagina(pid)) && MarcosLibres(c, e) > 0
    requires PaginasUnicas(e.mapa.tabla)
    ensures PaginasUnicas(NuevaPagina(c, e, pid).0.mapa.tabla) <==> !Mapeada(c, e, pid, Cuantas(c, e, pid))
  {
    var t, n := e.mapa.tabla, Cuantas(c, e, pid);
    hide Acuerdo, Ocupar, Formateada;
    var f := HuecoDePagina(t, pid, n);
    PaginaEnTabla(c, e, f, pid, n);
    MarcoCorrecto(e.mapa, pid, n);
    var u := t[f := t[f].(pid := pid, pagina := n)];
    assert NuevaPagina(c, e, pid).0.mapa.tabla == u;
    if Mapeada(c, e, pid, n) {
      var g := Marco(e.mapa, pid, n);
      assert EsPagina(u, g, pid, n) && EsPagina(u, f, pid, n) && g != f;
      if f < g { assert !PaginasUnicas(u); } else { assert !PaginasUnicas(u); }
    } else {
      assert forall g :: 0 <= g < |t| ==> !EsPagina(t, g, pid, n);
      forall g, h | 0 <= g < h < |u| && u[g].pid >= 0
        ensures !EsPagina(u, h, u[g].pid, u[g].pagina)
      {
        if g != f && h != f {
          assert !EsPagina(t, h, t[g].pid, t[g].pagina);
        } else {
          assert !EsPagina(t, if g == f then h else g, pid, n);
        }
      }
    }
  }

  // ---- from startup ----

  lemma {:induction false} LibresIniciales(c: Config, t: seq<Entrada>, n: nat)
    requires TablaInicial(c, t) && n <= |t|
    ensures Libres(t, n) == if n <= c.admin then 0 else n - c.admin
  {
    if n > 0 {
      LibresIniciales(c, t, n - 1);
    }
  }

  lemma CuentasIniciales(c: Config, e: Estado, p: nat, q: int)
    requires Arranque(c, e)
    ensures Inv(c, e) && MarcosLibres(c, e) == c.marcos - c.admin && Cuantas(c, e, p) == 0 && VecesEn(c, e, p, q) == 0
    ensures Abs(c, e) == map[]
  {
    EstadoInicial(c, e);
    LibresIniciales(c, e.mapa.tabla, c.marcos);
    SinPaginas(e.mapa.tabla, p, q, c.marcos);
    hide Abs;
  }

  /** The plain machine at startup: no pages, and every frame past the table free. */
  ghost predicate VisionInicial(c: Config, a: Vision) {
    && a.paginas == map[] && a.libres == c.marcos - c.admin
    && (forall p: nat :: a.cuentas(p) == 0) && (forall k: Pagina :: a.veces(k) == 0)
  }

  lemma ArranqueVisto(c: Config, e: Estado)
    requires Arranque(c, e)
    ensures Inv(c, e) && VisionInicial(c, Ver(c, e)) && PaginasReales(e.cache, [])
  {
    EstadoInicial(c, e);
    forall p: nat, k: Pagina
      ensures Ver(c, e).cuentas(p) == 0 && Ver(c, e).veces(k) == 0
      ensures Ver(c, e).libres == c.marcos - c.admin
    {
      VerEn(c, e, p, k);
      CuentasIniciales(c, e, p, 0);
      if k.pid >= 0 {
        CuentasIniciales(c, e, k.pid, k.numero);
      }
    }
    VerPaginas(c, e);
    VerEn(c, e, 0, Pagina(0, 0));
    CuentasIniciales(c, e, 0, 0);
    hide Ver, MarcosLibres, Cuantas, VecesEn;
  }

  /** Every run of a started server is a run of the plain machine from no pages, and its cache replaces pages by LRU. */
  lemma CorridaDesdeElArranque(c: Config, e: Estado, os: seq<Orden>)
    requires Arranque(c, e) && Inv(c, e) && Ejecutable(c, e, os)
    ensures var (r, xs) := Ejecutar(c, e, os);
      && c.ms > 0 && VisionInicial(c, Ver(c, e)) && CorridaAbs(c, Ver(c, e), os, xs, Ver(c, r))
      && PaginasReales(r.cache, Pedidas(c, e, os))
  {
    hide Inv, Arranque, Ver, VisionInicial, CorridaAbs, PaginasReales, Ejecutable, Ejecutar, Pedidas;
    ArranqueVisto(c, e);
    CorridaRefina(c, e, os);
    CorridaPaginas(c, e, os, []);
    assert [] + Pedidas(c, e, os) == Pedidas(c, e, os);
  }
}
