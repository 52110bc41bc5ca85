/** The heap of a process over whole runs: which requests keep its pages a heap. */
module HeapDeProceso {
  import opened Bytes
  import opened Tablas
  import opened Modelo
  import opened Asignacion
  import opened Abstracta
  import opened Corridas
  import Heap

  /** A page its headers tile, no two neighbours free. */
  predicate Compacta(c: Config, pg: seq<Byte>) {
    |pg| == c.ms && match Heap.Parsear(pg) {
      case Algo(bs) => Heap.SinVecinosLibres(bs)
      case Nada => false
    }
  }

  /** The pages of the process from `desde` to its last one are coalesced heap pages, and none lies beyond. */
  ghost predicate HeapEn(c: Config, a: Vision, pid: nat, desde: nat) {
    && Clave(pid, c.marcos)
    && desde < a.cuentas(pid)
    && (forall q :: desde <= q < a.cuentas(pid) ==> PaginaCompacta(c, a, Pagina(pid, q)))
    && SinDespues(a, pid)
  }

  ghost predicate PaginaCompacta(c: Config, a: Vision, k: Pagina) {
    k in a.paginas && Compacta(c, a.paginas[k])
  }

  /** No page of the process has a number at or above the count of its pages. */
  ghost predicate SinDespues(a: Vision, pid: nat) {
    forall k :: k in a.paginas && k.pid == pid ==> k.numero < a.cuentas(pid)
  }

  /** What every heap request takes for granted follows. */
  lemma HeapEnContiguo(c: Config, e: Estado, pid: nat, desde: nat)
    requires Inv(c, e) && HeapEn(c, Ver(c, e), pid, desde)
    ensures HeapContiguo(c, e, pid, desde)
  {
    VerEn(c, e, pid, Pagina(0, 0));
    hide Inv, Ver, Abs, Cuantas, MarcosLibres, VecesEn, Contenido;
    VerPaginas(c, e);
    forall q
      ensures desde <= q < Cuantas(c, e, pid) ==> DeBloques(c, e, pid, q)
      ensures Cuantas(c, e, pid) <= q && Clave(pid, q) ==> !Mapeada(c, e, pid, q)
    {
      AbsEn(c, e, Pagina(pid, q));
      if desde <= q < Cuantas(c, e, pid) {
        assert PaginaCompacta(c, Ver(c, e), Pagina(pid, q));
      }
    }
  }

  // ---- where a heap starts ----

  /** A script that is admitted into a process without pages leaves none beyond its count. */
  lemma NuevoSinDespues(c: Config, a: Vision, pid: nat, mensaje: seq<Byte>, pila: nat, n: int, b: Vision)
    requires c.ms > 0 && NuevoAbs(c, a, pid, mensaje, pila, n, b) && n != -1
    requires a.cuentas(pid) == 0 && forall k :: k in a.paginas ==> k.pid != pid
    ensures SinDespues(b, pid) && b.cuentas(pid) == n
  {
    var guion: seq<Byte> := mensaje + [0, 0];
    hide Trozos, Cola;
    forall k | k in b.paginas && k.pid == pid
      ensures k.numero < n
    {
      assert AdmitidoEn(c, a.paginas, pid, Trozos(guion, c.ms), Cola(guion, c.ms), n, b.paginas, k);
    }
  }

  lemma NuevaCompacta(c: Config, pg: seq<Byte>)
    requires EsNueva(c, pg)
    ensures Compacta(c, pg)
  {
  }

  /** The first page asked for starts the heap. */
  lemma HeapEmpieza(c: Config, a: Vision, pid: nat, n: int, b: Vision)
    requires Clave(pid, c.marcos) && SinDespues(a, pid) && PedirAbs(c, a, pid, n, b) && n != -1
    ensures n >= 0 && HeapEn(c, b, pid, n)
  {
    hide Compacta, EsNueva, Clave;
    assert ExtiendeEn(c, a, pid, 1, b, Pagina(pid, n));
    forall k | k in b.paginas && k.pid == pid
      ensures k.numero < b.cuentas(pid)
    {
      assert ExtiendeEn(c, a, pid, 1, b, k);
    }
    NuevaCompacta(c, b.paginas[Pagina(pid, n)]);
  }

  // ---- one request ----

  /** Bytes `[off, off + n)` of the page lie inside the payload of one block. */
  predicate DentroDeBloque(pg: seq<Byte>, off: nat, n: nat) {
    match Heap.Parsear(pg)
    case Algo(bs) =>
      exists j :: 0 <= j < |bs| && Heap.Lugar(bs, j) + Heap.CAB <= off
        && off + n <= Heap.Lugar(bs, j) + Heap.CAB + |bs[j].datos|
    case Nada => false
  }

  /**
   * The request is of another process, or asks for a page or a block, frees a block, reads, or writes inside a block.
   */
  ghost predicate Cuida(a: Vision, pid: nat, desde: nat, o: Orden) {
    match o
    case Nuevo(p, _, _) => p != pid
    case Escribir(p, pagina, off, datos) =>
      var k := Pagina(p, pagina);
      p == pid && pagina >= desde && k in a.paginas ==> DentroDeBloque(a.paginas[k], off, |datos|)
    case DevolverPagina(p, _) => p != pid
    case Terminar(p) => p != pid
    case _ => true
  }

  lemma PaginasIguales(c: Config, a: Vision, b: Vision, pid: nat, desde: nat)
    requires HeapEn(c, a, pid, desde) && b.cuentas(pid) == a.cuentas(pid)
    requires forall k: Pagina :: k.pid == pid ==>
      (k in b.paginas <==> k in a.paginas) && (k in a.paginas ==> b.paginas[k] == a.paginas[k])
    ensures HeapEn(c, b, pid, desde)
  {
    hide Compacta, Clave;
    forall q | desde <= q < b.cuentas(pid)
      ensures PaginaCompacta(c, b, Pagina(pid, q))
    {
      assert PaginaCompacta(c, a, Pagina(pid, q));
    }
  }

  lemma PaginaCambiada(c: Config, a: Vision, b: Vision, pid: nat, desde: nat, k: Pagina, pg: seq<Byte>)
    requires HeapEn(c, a, pid, desde) && b.cuentas(pid) == a.cuentas(pid)
    requires k in a.paginas && b.paginas == a.paginas[k := pg]
    requires k.pid == pid && k.numero >= desde ==> Compacta(c, pg)
    ensures HeapEn(c, b, pid, desde)
  {
    hide Compacta, Clave;
    forall q | desde <= q < b.cuentas(pid)
      ensures PaginaCompacta(c, b, Pagina(pid, q))
    {
      assert PaginaCompacta(c, a, Pagina(pid, q));
    }
  }

  lemma PaginasAgregadas(c: Config, a: Vision, p: nat, n: nat, m: Vision, pid: nat, desde: nat)
    requires HeapEn(c, a, pid, desde) && Extiende(c, a, p, n, m)
    ensures HeapEn(c, m, pid, desde)
  {
    hide Compacta, Clave, EsNueva;
    forall q | desde <= q < m.cuentas(pid)
      ensures PaginaCompacta(c, m, Pagina(pid, q))
    {
      assert ExtiendeEn(c, a, p, n, m, Pagina(pid, q));
      if q < a.cuentas(pid) {
        assert PaginaCompacta(c, a, Pagina(pid, q));
      } else {
        NuevaCompacta(c, m.paginas[Pagina(pid, q)]);
      }
    }
    forall k | k in m.paginas && k.pid == pid
      ensures k.numero < m.cuentas(pid)
    {
      assert ExtiendeEn(c, a, p, n, m, k);
    }
  }

  lemma CompactaDe(c: Config, bs: seq<Heap.Bloque>)
    requires |Heap.Codificar(bs)| == c.ms < TOPE32 && Heap.SinVecinosLibres(bs)
    ensures Compacta(c, Heap.Codificar(bs))
  {
    Heap.ParsearCodificar(bs);
  }

  lemma BloquesDe(c: Config, pg: seq<Byte>)
    requires c.ms < TOPE32 && Compacta(c, pg)
    ensures var bs := Heap.Parsear(pg).valor;
      Heap.Codificar(bs) == pg && |Heap.Codificar(bs)| == c.ms && Heap.SinVecinosLibres(bs)
  {
  }

  lemma ReservadaCompacta(c: Config, pg: seq<Byte>, espacio: nat)
    requires c.ms < TOPE32 && Compacta(c, pg)
    ensures Compacta(c, Heap.Codificar(Heap.Reservar(Heap.Parsear(pg).valor, espacio)))
  {
    hide Heap.Reservar, Heap.Codificar, Heap.Parsear;
    BloquesDe(c, pg);
    var bs := Heap.Parsear(pg).valor;
    Heap.DarConserva(bs, Heap.Pedir(espacio));
    CompactaDe(c, Heap.Reservar(bs, espacio));
  }

  lemma SoltadaCompacta(c: Config, pg: seq<Byte>, k: nat)
    requires c.ms < TOPE32 && Compacta(c, pg) && k < |Heap.Parsear(pg).valor|
    ensures Compacta(c, Heap.Codificar(Heap.Compactar(Heap.Soltar(Heap.Parsear(pg).valor, k))))
  {
    hide Heap.Compactar, Heap.Codificar, Heap.Parsear;
    BloquesDe(c, pg);
    var bs := Heap.Parsear(pg).valor;
    Heap.SoltarBytes(bs, k);
    Heap.CompactarLargo(Heap.Soltar(bs, k));
    Heap.CompactarSinVecinos(Heap.Soltar(bs, k));
    CompactaDe(c, Heap.Compactar(Heap.Soltar(bs, k)));
  }

  lemma EscritaCompacta(c: Config, pg: seq<Byte>, off: nat, d: seq<Byte>)
    requires c.ms < TOPE32 && Compacta(c, pg) && off + |d| <= |pg| && DentroDeBloque(pg, off, |d|)
    ensures Compacta(c, Empalme(pg, off, d))
  {
    hide Heap.Codificar, Heap.Parsear, Heap.Lugar, Empalme;
    BloquesDe(c, pg);
    var bs := Heap.Parsear(pg).valor;
    var j :| 0 <= j < |bs| && Heap.Lugar(bs, j) + Heap.CAB <= off
          && off + |d| <= Heap.Lugar(bs, j) + Heap.CAB + |bs[j].datos|;
    var o := off - Heap.Lugar(bs, j) - Heap.CAB;
    Heap.EscrituraEnBloque(bs, j, o, d);
    CompactaDe(c, bs[j := Heap.Bloque(bs[j].libre, Empalme(bs[j].datos, o, d))]);
  }

  lemma HeapAsignar(c: Config, a: Vision, o: Orden, x: Respuesta, b: Vision, pid: nat, desde: nat)
    requires 0 < c.ms < TOPE32 && HeapEn(c, a, pid, desde) && PasoAbs(c, a, o, x, b) && o.Asignar?
    ensures HeapEn(c, b, pid, desde)
  {
    hide Compacta, Clave, EsNueva, Extiende, Heap.Reservar, Heap.Parsear, Heap.Codificar, CabeAbs, AgregadasAbs, HeapEn;
    var p, n := o.pid, AgregadasAbs(c, a, o.pid, o.desde, o.espacio);
    var m: Vision :| Extiende(c, a, p, n, m) && AsignarEn(m, p, o.desde, o.espacio, x.pagina, x.direccion, b);
    PaginasAgregadas(c, a, p, n, m, pid, desde);
    var k := Pagina(p, x.pagina);
    if p == pid && x.pagina >= desde {
      assert PaginaCompacta(c, m, k) by {
        EnElHeap(c, m, pid, desde, x.pagina);
      }
      ReservadaCompacta(c, m.paginas[k], o.espacio);
    }
    PaginaCambiada(c, m, b, pid, desde, k, b.paginas[k]);
  }

  lemma EnElHeap(c: Config, a: Vision, pid: nat, desde: nat, q: int)
    requires HeapEn(c, a, pid, desde) && desde <= q && Pagina(pid, q) in a.paginas
    ensures PaginaCompacta(c, a, Pagina(pid, q))
  {
  }

  lemma HeapEscribir(c: Config, a: Vision, o: Orden, x: Respuesta, b: Vision, pid: nat, desde: nat)
    requires 0 < c.ms < TOPE32 && HeapEn(c, a, pid, desde) && PasoAbs(c, a, o, x, b) && o.Escribir?
    requires Cuida(a, pid, desde, o)
    ensures HeapEn(c, b, pid, desde)
  {
    hide HeapEn, Compacta, Empalme, DentroDeBloque;
    var k := Pagina(o.pid, o.pagina);
    if o.pid == pid && o.pagina >= desde {
      EnElHeap(c, a, pid, desde, o.pagina);
      EscritaCompacta(c, a.paginas[k], o.off, o.datos);
    }
    PaginaCambiada(c, a, b, pid, desde, k, Empalme(a.paginas[k], o.off, o.datos));
  }

  lemma HeapSoltar(c: Config, a: Vision, o: Orden, x: Respuesta, b: Vision, pid: nat, desde: nat)
    requires 0 < c.ms < TOPE32 && HeapEn(c, a, pid, desde) && PasoAbs(c, a, o, x, b) && o.Soltar?
    ensures HeapEn(c, b, pid, desde)
  {
    hide HeapEn, Compacta, Heap.Compactar, Heap.Codificar, Heap.Parsear, Heap.Soltar, Heap.BloqueEn;
    var k := Pagina(o.pid, o.pagina);
    var bs := Heap.Parsear(a.paginas[k]).valor;
    if o.pid == pid && o.pagina >= desde {
      EnElHeap(c, a, pid, desde, o.pagina);
      SoltadaCompacta(c, a.paginas[k], Heap.BloqueEn(bs, o.direccion));
    }
    PaginaCambiada(c, a, b, pid, desde, k, b.paginas[k]);
  }

  lemma HeapAjeno(c: Config, a: Vision, o: Orden, x: Respuesta, b: Vision, pid: nat, desde: nat)
    requires 0 < c.ms < TOPE32 && HeapEn(c, a, pid, desde) && PasoAbs(c, a, o, x, b) && Cuida(a, pid, desde, o)
    requires o.Nuevo? || o.DevolverPagina? || o.Terminar?
    ensures HeapEn(c, b, pid, desde)
  {
    hide HeapEn, Trozos, Cola;
    forall k: Pagina | k.pid == pid
      ensures k in b.paginas <==> k in a.paginas
      ensures k in a.paginas ==> b.paginas[k] == a.paginas[k]
    {
      match o
      case Nuevo(p, mensaje, _) =>
        var guion: seq<Byte> := mensaje + [0, 0];
        assert x.numero != -1 ==>
          AdmitidoEn(c, a.paginas, p, Trozos(guion, c.ms), Cola(guion, c.ms), x.numero, b.paginas, k);
      case DevolverPagina(p, pagina) =>
        assert k in a.paginas <==> k in a.paginas - {Pagina(p, pagina)};
        assert k in b.paginas <==> k in b.paginas - {Pagina(p, pagina)};
        assert k in a.paginas ==> (b.paginas - {Pagina(p, pagina)})[k] == a.paginas[k];
      case Terminar(_) =>
    }
    PaginasIguales(c, a, b, pid, desde);
  }

  /** Such a request keeps the heap. */
  lemma PasoHeap(c: Config, a: Vision, o: Orden, x: Respuesta, b: Vision, pid: nat, desde: nat)
    requires 0 < c.ms < TOPE32 && HeapEn(c, a, pid, desde) && PasoAbs(c, a, o, x, b) && Cuida(a, pid, desde, o)
    ensures HeapEn(c, b, pid, desde)
  {
    hide HeapEn, Extiende;
    match o
    case Nuevo(_, _, _) => HeapAjeno(c, a, o, x, b, pid, desde);
    case Leer(_, _, _, _) => PaginasIguales(c, a, b, pid, desde);
    case Escribir(_, _, _, _) => HeapEscribir(c, a, o, x, b, pid, desde);
    case PedirPagina(p) =>
      if x.numero == -1 {
        PaginasIguales(c, a, b, pid, desde);
      } else {
        PaginasAgregadas(c, a, p, 1, b, pid, desde);
      }
    case Asignar(_, _, _) => HeapAsignar(c, a, o, x, b, pid, desde);
    case Soltar(_, _, _) => HeapSoltar(c, a, o, x, b, pid, desde);
    case DevolverPagina(_, _) => HeapAjeno(c, a, o, x, b, pid, desde);
    case Vaciar => PaginasIguales(c, a, b, pid, desde);
    case Terminar(_) => HeapAjeno(c, a, o, x, b, pid, desde);
  }

  // ---- runs ----

  ghost predicate CuidaTodas(c: Config, e: Estado, os: seq<Orden>, pid: nat, desde: nat)
    requires Inv(c, e) && Ejecutable(c, e, os)
    decreases |os|
  {
    os == [] || (Cuida(Ver(c, e), pid, desde, os[0]) && CuidaTodas(c, Hacer(c, e, os[0]).0, os[1..], pid, desde))
  }

  /**
   * Over any run in which every process does what it likes, and this one gives back no page, does not end and writes
   * its heap only inside blocks, its heap stays contiguous and coalesced: the next heap request is always admissible.
   */
  lemma {:induction false} CorridaHeap(c: Config, e: Estado, os: seq<Orden>, pid: nat, desde: nat)
    requires Inv(c, e) && Ejecutable(c, e, os) && HeapEn(c, Ver(c, e), pid, desde) && CuidaTodas(c, e, os, pid, desde)
    ensures var r := Ejecutar(c, e, os).0;
      && HeapEn(c, Ver(c, r), pid, desde) && HeapContiguo(c, r, pid, desde)
      && forall espacio :: Puede(c, r, Asignar(pid, desde, espacio))
    decreases |os|
  {
    hide Acuerdo, Inv, HeapEn, Ver, Hacer, Cuida, PasoAbs, HeapContiguo;
    Forma(c, e);
    if os == [] {
      HeapEnContiguo(c, e, pid, desde);
    } else {
      PasoRefina(c, e, os[0]);
      var e1, x := Hacer(c, e, os[0]).0, Hacer(c, e, os[0]).1;
      PasoHeap(c, Ver(c, e), os[0], x, Ver(c, e1), pid, desde);
      CorridaHeap(c, e1, os[1..], pid, desde);
    }
  }
}
