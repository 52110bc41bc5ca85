/** Where the server puts its pages, the address it answers for a new process, and what frames nobody has hold. */
module Colocacion {
  import opened Bytes
  import opened Decimal
  import opened Tablas
  import opened Modelo
  import opened Asignacion
  import opened Disposicion
  import opened Abstracta
  import opened Corridas
  import Heap

  // ---- the frame of a page ----

  /** The hash of a page is its number after its process's, as decimal numerals, modulo the number of frames. */
  lemma PosicionAritmetica(marcos: nat, pid: nat, pagina: nat)
    requires marcos > 0 && Clave(pid, pagina)
    ensures CalcularPosicion(marcos, pid, pagina) == (pid * Pot10(|Dec(pagina)|) + pagina) % marcos
  {
    hide Concatenado, Pot10, Dec, Clave;
    ClaveAritmetica(pid, pagina);
  }

  /** Frame `f` is free, and none is between it and `h`, going up from `h` and then from 0. */
  predicate PrimeroDesde(t: seq<Entrada>, h: nat, f: nat) {
    && h < |t| && f < |t| && t[f].pid == LIBRE
    && forall g :: 0 <= g < |t| && (if h <= f then h <= g < f else h <= g || g < f) ==> t[g].pid != LIBRE
  }

  lemma PrimeroUnico(t: seq<Entrada>, h: nat, f: nat, g: nat)
    requires PrimeroDesde(t, h, f) && PrimeroDesde(t, h, g)
    ensures f == g
  {
  }

  /** A page goes to the first free frame from its hash on. */
  lemma HuecoDesdeElHash(t: seq<Entrada>, pid: nat, pagina: nat)
    requires Libres(t, |t|) > 0 && Clave(pid, pagina)
    ensures |t| > 0
    ensures PrimeroDesde(t, (pid * Pot10(|Dec(pagina)|) + pagina) % |t|, HuecoDePagina(t, pid, pagina))
  {
    hide Clave, CalcularPosicion, Pot10, Dec, Libres;
    HayLibre(t, |t|);
    PosicionAritmetica(|t|, pid, pagina);
  }

  /** A page asked for goes to the first free frame from its hash on; no other entry of the table changes. */
  lemma MarcoDeNuevaPagina(c: Config, e: Estado, pid: nat) returns (f: nat)
    requires Inv(c, e) && Clave(pid, Cuantas(c, e, pid)) && MarcosLibres(c, e) > 0
    ensures var t, n := e.mapa.tabla, Cuantas(c, e, pid);
      && |t| > 0 && PrimeroDesde(t, (pid * Pot10(|Dec(n)|) + n) % |t|, f)
      && NuevaPagina(c, e, pid).0.mapa.tabla == t[f := Entrada(f, pid, n)]
  {
    hide Acuerdo, Clave, Pot10, Dec, Libres, Paginas, HuecoDePagina, PrimeroDesde, Ocupar, Formateada;
    Forma(c, e);
    var t, n := e.mapa.tabla, Cuantas(c, e, pid);
    HuecoDesdeElHash(t, pid, n);
    f := HuecoDePagina(t, pid, n);
    PaginaEnTabla(c, e, f, pid, n);
    FilaPropia(e.mapa, f);
    assert NuevaPagina(c, e, pid).0 == AgregarPagina(c, e, f, pid, n);
    assert t[f].(pid := pid, pagina := n) == Entrada(f, pid, n);
  }

  lemma FilaPropia(m: Mapa, f: nat)
    requires Acuerdo(m) && f < |m.tabla|
    ensures m.tabla[f].frame == f
  {
    assert EntradaSana(m.tabla, f);
  }

  /** A page the allocator adds goes to the lowest free frame instead. */
  lemma MarcoDePaginaDeHeap(c: Config, e: Estado, pid: nat) returns (f: nat)
    requires Inv(c, e) && Clave(pid, Cuantas(c, e, pid)) && MarcosLibres(c, e) > 0
    ensures var t, n := e.mapa.tabla, Cuantas(c, e, pid);
      && PrimeroDesde(t, 0, f)
      && PaginaDeHeap(c, e, pid).0.mapa.tabla == t[f := Entrada(f, pid, n)]
  {
    hide Acuerdo, Clave, Libres, Paginas, Ocupar, Formateada;
    Forma(c, e);
    var t, n := e.mapa.tabla, Cuantas(c, e, pid);
    HayLibre(t, |t|);
    f := PrimeroLibre(t, 0);
    PaginaEnTabla(c, e, f, pid, n);
    FilaPropia(e.mapa, f);
    assert PaginaDeHeap(c, e, pid).0 == AgregarPagina(c, e, f, pid, n);
    assert t[f].(pid := pid, pagina := n) == Entrada(f, pid, n);
  }

  /** Each page of a new process goes to the first frame from its hash on that the pages before it left free. */
  lemma {:induction false} MarcoDeCadaPagina(m: Mapa, pid: nat, i: nat, n: nat, k: nat)
    requires Colocables(m, pid, i, n) && i <= k < n
    ensures Colocables(m, pid, i, k) && Clave(pid, k) && |m.tabla| > 0
    ensures PrimeroDesde(Colocar(m, pid, i, k).tabla, (pid * Pot10(|Dec(k)|) + k) % |m.tabla|,
                         Elegidos(m, pid, i, n)[k - i])
    decreases k - i
  {
    hide Siguiente, Acuerdo, Clave, Pot10, Dec, HuecoDePagina, PrimeroDesde, Libres;
    if k == i {
      HuecoDesdeElHash(m.tabla, pid, i);
    } else {
      MarcoDeCadaPagina(Siguiente(m, pid, i), pid, i + 1, n, k);
    }
  }

  // ---- the address of a new process ----

  /** Frame `f` starts at `direccion`, past the table and inside memory. */
  predicate EmpiezaEn(c: Config, f: int, direccion: int) {
    && c.admin <= f < c.marcos && direccion == f * c.ms
    && c.admin * c.ms <= direccion && direccion + c.ms <= c.marcos * c.ms
  }

  lemma MarcoDentro(c: Config, f: int)
    requires c.admin <= f < c.marcos
    ensures EmpiezaEn(c, f, f * c.ms)
  {
    ProductoMonotono(c.ms, c.admin, f);
    RegionCabe(c.marcos, c.ms, f);
  }

  /** The address is where page `(pid, pagina)` lies: a whole number of frames up, past the table, its bytes there. */
  ghost predicate EsDireccionDe(c: Config, e: Estado, pid: nat, pagina: int, direccion: int)
    requires Inv(c, e)
  {
    && c.ms > 0 && direccion >= 0 && direccion % c.ms == 0 && EmpiezaEn(c, direccion / c.ms, direccion)
    && direccion / c.ms < |e.mapa.tabla| == |e.paginas| && EsPagina(e.mapa.tabla, direccion / c.ms, pid, pagina)
    && Pagina(pid, pagina) in Abs(c, e) && e.paginas[direccion / c.ms] == Abs(c, e)[Pagina(pid, pagina)]
  }

  lemma DireccionDePagina(c: Config, e: Estado, pid: nat, pagina: int)
    requires Inv(c, e) && Acuerdo(e.mapa) && Mapeada(c, e, pid, pagina)
    ensures EsDireccionDe(c, e, pid, pagina, DireccionFisica(c, Marco(e.mapa, pid, pagina)))
  {
    hide Acuerdo, Abs, Clave;
    Forma(c, e);
    var f := Marco(e.mapa, pid, pagina);
    MarcoUsuario(c, e, pid, pagina);
    AbsEn(c, e, Pagina(pid, pagina));
    MarcoDentro(c, f);
    DivisionUnica(c.ms, f * c.ms, f, 0);
    hide Marco, Inv;
  }

  /**
   * The address answered for a new process is where its page 0 lies; a refused process is answered -1.
   */
  lemma DireccionDeNuevo(c: Config, e: Estado, pid: nat, mensaje: seq<Byte>, pila: nat)
    requires Inv(c, e) && Puede(c, e, Nuevo(pid, mensaje, pila))
    ensures var (r, n, direccion) := NuevoProceso(c, e, pid, mensaje, pila);
      if n == -1 then direccion == -1 else EsDireccionDe(c, r, pid, 0, direccion)
  {
    hide Inv, NuevoProceso, Clave, Marco, Acuerdo, EsDireccionDe, DireccionFisica;
    var (r, n, direccion) := NuevoProceso(c, e, pid, mensaje, pila);
    NuevoForma(c, e, pid, mensaje, pila);
    if n != -1 {
      DireccionDePagina(c, r, pid, 0);
    }
  }

  lemma NuevoForma(c: Config, e: Estado, pid: nat, mensaje: seq<Byte>, pila: nat)
    requires Inv(c, e) && Puede(c, e, Nuevo(pid, mensaje, pila))
    ensures Acuerdo(NuevoProceso(c, e, pid, mensaje, pila).0.mapa)
    ensures var (r, n, direccion) := NuevoProceso(c, e, pid, mensaje, pila);
      if n == -1 then direccion == -1
      else Mapeada(c, r, pid, 0) && direccion == DireccionFisica(c, Marco(r.mapa, pid, 0))
  {
    hide Inv, Acuerdo, CopiarGuion, Trozos, Cola, Admitir, Libres, Clave, Colocar, Marco;
    Forma(c, e);
    var (r, n, direccion) := NuevoProceso(c, e, pid, mensaje, pila);
    Forma(c, r);
    if n != -1 {
      AdmitirMapea(c, e, pid, n);
      assert Mapeada(c, Admitir(c, e, pid, n), pid, 0);
    }
  }

  // ---- frames nobody has ----

  /** Every frame of the table itself, and every one free afterwards, has the entry and the bytes it had. */
  ghost predicate SoloToma(c: Config, e: Estado, r: Estado)
    requires Inv(c, e) && Inv(c, r)
  {
    forall f :: 0 <= f < c.marcos && (f < c.admin || r.mapa.tabla[f].pid == LIBRE) ==>
      r.mapa.tabla[f] == e.mapa.tabla[f] && r.paginas[f] == e.paginas[f]
  }

  lemma TomaTransitiva(c: Config, e: Estado, m: Estado, r: Estado)
    requires Inv(c, e) && Inv(c, m) && Inv(c, r) && SoloToma(c, e, m) && SoloToma(c, m, r)
    ensures SoloToma(c, e, r)
  {
    hide Acuerdo;
  }

  lemma TomaPublicar(c: Config, e: Estado, pid: int, pagina: int, pg: seq<Byte>)
    requires Inv(c, e) && Mapeada(c, e, pid, pagina) && |pg| == c.ms
    ensures SoloToma(c, e, Publicar(c, e, pid, pagina, pg))
  {
    hide Acuerdo;
    MarcoUsuario(c, e, pid, pagina);
    hide Marco;
  }

  lemma TomaAgregar(c: Config, e: Estado, f: nat, pid: int, n: int)
    requires Inv(c, e) && f < c.marcos && e.mapa.tabla[f].pid == LIBRE && Clave(pid, n)
    ensures SoloToma(c, e, AgregarPagina(c, e, f, pid, n))
  {
    hide Acuerdo, Ocupar, Formateada;
    PaginaEnTabla(c, e, f, pid, n);
  }

  lemma TomaPaginaDeHeap(c: Config, e: Estado, pid: nat)
    requires Inv(c, e) && Clave(pid, Cuantas(c, e, pid)) && MarcosLibres(c, e) > 0
    ensures SoloToma(c, e, PaginaDeHeap(c, e, pid).0)
  {
    hide Inv, Acuerdo, SoloToma, Clave, Libres, Paginas;
    Forma(c, e);
    HayLibre(e.mapa.tabla, c.marcos);
    TomaAgregar(c, e, PrimeroLibre(e.mapa.tabla, 0), pid, Cuantas(c, e, pid));
  }

  lemma {:induction false} TomaBuscar(c: Config, e: Estado, pid: nat, pagina: nat, espacio: nat)
    requires Inv(c, e) && HeapContiguo(c, e, pid, pagina)
    ensures SoloToma(c, e, BuscarLugar(c, e, pid, pagina, espacio).0)
    decreases MarcosLibres(c, e), Cuantas(c, e, pid) - pagina
  {
    hide Inv, HeapContiguo, DeBloques, Bloques, BuscarLugar, Cuantas, MarcosLibres, Clave, SoloToma;
    BuscarLugarAqui(c, e, pid, pagina, espacio);
    TomaNada(c, e);
    if Heap.Direccion(Bloques(c, e, pid, pagina), espacio) != -1 {
    } else if pagina + 1 < Cuantas(c, e, pid) {
      BuscarLugarSigue(c, e, pid, pagina, espacio);
      TomaBuscar(c, e, pid, pagina + 1, espacio);
    } else if MarcosLibres(c, e) > 0 {
      BuscarLugarAgrega(c, e, pid, pagina, espacio);
      var m := ConPagina(c, e, pid, pagina);
      ClaveDeCuenta(c, e, pid, pagina);
      TomaPaginaDeHeap(c, e, pid);
      TomaBuscar(c, m, pid, pagina + 1, espacio);
      TomaTransitiva(c, e, m, BuscarLugar(c, m, pid, pagina + 1, espacio).0);
    }
  }

  lemma TomaNada(c: Config, e: Estado)
    requires Inv(c, e)
    ensures SoloToma(c, e, e)
  {
  }

  lemma TomaAdmitir(c: Config, e: Estado, pid: nat, n: nat)
    requires Inv(c, e) && Colocables(e.mapa, pid, 0, n)
    ensures SoloToma(c, e, Admitir(c, e, pid, n))
  {
    hide Acuerdo, Colocar, Elegidos;
    ColocarTabla(e.mapa, pid, n);
  }

  lemma {:induction false} TomaCopia(c: Config, e: Estado, pid: nat, trozos: seq<seq<Byte>>, i: nat)
    requires Inv(c, e) && i <= |trozos| && TodasMapeadas(c, e, pid, |trozos|)
    requires forall k :: 0 <= k < |trozos| ==> |trozos[k]| == c.ms
    ensures SoloToma(c, e, CopiarPaginas(c, e, pid, trozos, i))
    decreases |trozos| - i
  {
    hide Inv, Publicar, SoloToma;
    TomaNada(c, e);
    if i < |trozos| {
      assert Mapeada(c, e, pid, i);
      TomaPublicar(c, e, pid, i, Empalme(Contenido(c, e, pid, i), 0, trozos[i]));
      var m := CopiarUna(c, e, pid, trozos, i);
      TomaCopia(c, m, pid, trozos, i + 1);
      TomaTransitiva(c, e, m, CopiarPaginas(c, m, pid, trozos, i + 1));
    }
  }

  lemma TomaGuion(c: Config, e: Estado, pid: nat, trozos: seq<seq<Byte>>, cola: seq<Byte>)
    requires Inv(c, e) && TodasMapeadas(c, e, pid, |trozos| + 1) && |cola| <= c.ms
    requires forall k :: 0 <= k < |trozos| ==> |trozos[k]| == c.ms
    ensures SoloToma(c, e, CopiarGuion(c, e, pid, trozos, cola))
  {
    hide Inv, Publicar, SoloToma, CopiarPaginas, Clave, Marco;
    assert Mapeada(c, e, pid, |trozos|);
    var m := CopiarPaginas(c, e, pid, trozos, 0);
    TomaCopia(c, e, pid, trozos, 0);
    TomaPublicar(c, m, pid, |trozos|, Empalme(Contenido(c, m, pid, |trozos|), 0, cola));
    TomaTransitiva(c, e, m, CopiarGuion(c, e, pid, trozos, cola));
  }

  lemma TomaNuevo(c: Config, e: Estado, o: Orden)
    requires Inv(c, e) && o.Nuevo? && Puede(c, e, o)
    ensures SoloToma(c, e, NuevoProceso(c, e, o.pid, o.mensaje, o.pila).0)
  {
    hide Inv, SoloToma, CopiarGuion, Trozos, Cola, Acuerdo, Libres, Clave, Admitir;
    Forma(c, e);
    TomaNada(c, e);
    var guion: seq<Byte> := o.mensaje + [0, 0];
    var n: int := PaginasDeGuion(|guion|, c.ms) + o.pila;
    if n <= Libres(e.mapa.tabla, c.marcos) {
      AdmitirMapea(c, e, o.pid, n);
      var m := Admitir(c, e, o.pid, n);
      TomaAdmitir(c, e, o.pid, n);
      TomaGuion(c, m, o.pid, Trozos(guion, c.ms), Cola(guion, c.ms));
      TomaTransitiva(c, e, m, CopiarGuion(c, m, o.pid, Trozos(guion, c.ms), Cola(guion, c.ms)));
    }
  }

  /** A frame given back is marked free in both fields of its entry; no other entry changes and no byte does. */
  lemma SueltaDevolver(c: Config, e: Estado, pid: nat, pagina: int)
    requires Inv(c, e) && Mapeada(c, e, pid, pagina)
    ensures var r := LiberarPagina(c, e, pid, pagina);
      && r.paginas == e.paginas
      && exists f :: 0 <= f < c.marcos && EsPagina(e.mapa.tabla, f, pid, pagina)
           && r.mapa.tabla == e.mapa.tabla[f := Entrada(f, LIBRE, LIBRE)]
  {
    hide Acuerdo;
    MarcoUsuario(c, e, pid, pagina);
    FilaPropia(e.mapa, Marco(e.mapa, pid, pagina));
    hide Marco;
  }

  /** The frames of a process that ends are marked so, all of them and no other, and no byte changes. */
  lemma SueltaTerminar(c: Config, e: Estado, pid: nat, f: nat)
    requires Inv(c, e) && f < c.marcos
    ensures var r := FinalizarProceso(c, e, pid);
      && r.paginas == e.paginas
      && r.mapa.tabla[f] == if e.mapa.tabla[f].pid == pid then Entrada(f, LIBRE, LIBRE) else e.mapa.tabla[f]
  {
    hide Acuerdo, Finalizar;
    FinalizarTabla(e.mapa, pid, 0);
  }

  /**
   * A frame that is free after a request holds the bytes it held before it, whether it was free already or the request
   * gave it back; the frames of the table stay as they were.
   */
  lemma PasoDeMarcos(c: Config, e: Estado, o: Orden, f: nat)
    requires Inv(c, e) && Puede(c, e, o) && f < c.marcos
    ensures var r := Hacer(c, e, o).0;
      && (f < c.admin ==> r.mapa.tabla[f] == e.mapa.tabla[f])
      && (f < c.admin || r.mapa.tabla[f].pid == LIBRE ==> r.paginas[f] == e.paginas[f])
      && (r.mapa.tabla[f].pid == LIBRE ==>
            r.mapa.tabla[f] == e.mapa.tabla[f] || r.mapa.tabla[f] == Entrada(f, LIBRE, LIBRE))
  {
    hide Inv, SoloToma, Publicar, BuscarLugar, HeapContiguo, NuevoProceso, Acuerdo, Clave, Libres, Paginas,
      LiberarPagina, FinalizarProceso;
    Forma(c, e);
    var r := Hacer(c, e, o).0;
    Forma(c, r);
    if o.DevolverPagina? {
      SueltaDevolver(c, e, o.pid, o.pagina);
      AdminAjeno(c, e, f);
    } else if o.Terminar? {
      SueltaTerminar(c, e, o.pid, f);
      AdminAjeno(c, e, f);
    } else if o.Vaciar? {
    } else {
      TomaPaso(c, e, o);
      if f < c.admin || r.mapa.tabla[f].pid == LIBRE {
        TomaEn(c, e, r, f);
      }
    }
  }

  lemma AdminAjeno(c: Config, e: Estado, f: nat)
    requires Inv(c, e) && f < c.marcos
    ensures e.mapa.tabla[f].pid == ADMIN <==> f < c.admin
  {
  }

  lemma TomaEn(c: Config, e: Estado, r: Estado, f: nat)
    requires Inv(c, e) && Inv(c, r) && SoloToma(c, e, r) && f < c.marcos
    requires f < c.admin || r.mapa.tabla[f].pid == LIBRE
    ensures r.mapa.tabla[f] == e.mapa.tabla[f] && r.paginas[f] == e.paginas[f]
  {
  }

  lemma TomaPaso(c: Config, e: Estado, o: Orden)
    requires Inv(c, e) && Puede(c, e, o) && !o.DevolverPagina? && !o.Terminar? && !o.Vaciar?
    ensures SoloToma(c, e, Hacer(c, e, o).0)
  {
    hide Inv, SoloToma, Publicar, BuscarLugar, HeapContiguo, NuevoProceso, Acuerdo, Clave, Libres, Paginas,
      AgregarPagina;
    Forma(c, e);
    TomaNada(c, e);
    match o
    case Nuevo(_, _, _) => TomaNuevo(c, e, o);
    case Leer(pid, pagina, _, _) =>
      if Mapeada(c, e, pid, pagina) {
        TomaPublicar(c, e, pid, pagina, Contenido(c, e, pid, pagina));
      }
    case Escribir(pid, pagina, off, d) =>
      TomaPublicar(c, e, pid, pagina, Empalme(Contenido(c, e, pid, pagina), off, d));
    case PedirPagina(pid) =>
      if MarcosLibres(c, e) > 0 {
        TomaAgregar(c, e, HuecoDePagina(e.mapa.tabla, pid, Cuantas(c, e, pid)), pid, Cuantas(c, e, pid));
      }
    case Asignar(pid, pagina, espacio) =>
      var (m, p, _) := BuscarLugar(c, e, pid, pagina, espacio);
      TomaBuscar(c, e, pid, pagina, espacio);
      ReservarLargo(Bloques(c, m, pid, p), espacio);
      TomaPublicar(c, m, pid, p, Heap.Codificar(Heap.Reservar(Bloques(c, m, pid, p), espacio)));
      TomaTransitiva(c, e, m, Hacer(c, e, o).0);
    case Soltar(pid, pagina, dir) =>
      var bs := Bloques(c, e, pid, pagina);
      var k := Heap.BloqueEn(bs, dir);
      Heap.SoltarBytes(bs, k);
      Heap.CompactarLargo(Heap.Soltar(bs, k));
      TomaPublicar(c, e, pid, pagina, Heap.Codificar(Heap.Compactar(Heap.Soltar(bs, k))));
  }

  /** Entries as startup leaves them: free ones marked in both fields, those of the table numbered. */
  predicate FilaLimpia(c: Config, t: seq<Entrada>, f: nat)
    requires f < |t|
  {
    && (t[f].pid == LIBRE ==> t[f] == Entrada(f, LIBRE, LIBRE))
    && (f < c.admin ==> t[f] == Entrada(f, ADMIN, f))
  }

  /** Whatever the requests, free frames are marked as startup marks them, and the frames of the table never change. */
  lemma {:induction false} CorridaLimpia(c: Config, e: Estado, os: seq<Orden>, f: nat)
    requires Inv(c, e) && Ejecutable(c, e, os) && f < c.marcos && FilaLimpia(c, e.mapa.tabla, f)
    ensures Inv(c, Ejecutar(c, e, os).0) && f < |Ejecutar(c, e, os).0.mapa.tabla|
    ensures FilaLimpia(c, Ejecutar(c, e, os).0.mapa.tabla, f)
    decreases |os|
  {
    hide Inv, Acuerdo, Hacer, Puede;
    Forma(c, e);
    if os != [] {
      var r := Hacer(c, e, os[0]).0;
      Forma(c, r);
      PasoDeMarcos(c, e, os[0], f);
      CorridaLimpia(c, r, os[1..], f);
    }
  }

  lemma CorridaLimpiaDesdeElArranque(c: Config, e: Estado, os: seq<Orden>, f: nat)
    requires Arranque(c, e) && Inv(c, e) && Ejecutable(c, e, os) && f < c.marcos
    ensures var t := Ejecutar(c, e, os).0.mapa.tabla;
      f < |t| && FilaLimpia(c, t, f)
  {
    hide Inv, Ejecutable, Ejecutar;
    CorridaLimpia(c, e, os, f);
  }
}
