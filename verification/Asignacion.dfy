/** Heap requests on the memory server: the search over the pages of a process, and freeing. */
module Asignacion {
  import opened Bytes
  import opened Tablas
  import opened Conteo
  import opened Modelo
  import Heap

  /** A mapped page whose headers tile it. */
  ghost predicate DeBloques(c: Config, e: Estado, pid: int, pagina: int)
    requires Inv(c, e)
  {
    Mapeada(c, e, pid, pagina) && Heap.Parsear(Contenido(c, e, pid, pagina)).Algo?
  }

  ghost function Bloques(c: Config, e: Estado, pid: int, pagina: int): (bs: seq<Heap.Bloque>)
    requires Inv(c, e) && DeBloques(c, e, pid, pagina)
    ensures Heap.Codificar(bs) == Contenido(c, e, pid, pagina) && |Heap.Codificar(bs)| == c.ms
  {
    Heap.Parsear(Contenido(c, e, pid, pagina)).valor
  }

  ghost function Cuantas(c: Config, e: Estado, pid: nat): (n: nat)
    requires Inv(c, e)
    ensures n <= c.marcos
  {
    Paginas(e.mapa.tabla, pid, c.marcos)
  }

  ghost function MarcosLibres(c: Config, e: Estado): (n: nat)
    requires Inv(c, e)
  {
    Libres(e.mapa.tabla, c.marcos)
  }

  /** How many frames hold a page: the server lets two of them carry the same number. */
  ghost function VecesEn(c: Config, e: Estado, pid: int, pagina: int): (n: nat)
    requires Inv(c, e)
  {
    Veces(e.mapa.tabla, pid, pagina, c.marcos)
  }

  /** The pages of the process from `desde` to its last one are heap pages, and none lies beyond:
      what the search of `alocar` takes for granted. */
  ghost predicate HeapContiguo(c: Config, e: Estado, pid: nat, desde: nat)
    requires Inv(c, e)
  {
    && Clave(pid, c.marcos)
    && desde < Cuantas(c, e, pid)
    && (forall q :: desde <= q < Cuantas(c, e, pid) ==> DeBloques(c, e, pid, q))
    && (forall q :: Cuantas(c, e, pid) <= q && Clave(pid, q) ==> !Mapeada(c, e, pid, q))
  }

  lemma {:induction false} PaginasOcupada(t: seq<Entrada>, f: nat, e: Entrada, pid: int, n: nat)
    requires n <= |t| && f < |t| && t[f].pid != pid && e.pid == pid
    ensures Paginas(t[f := e], pid, n) == Paginas(t, pid, n) + if f < n then 1 else 0
  {
    if n > 0 {
      PaginasOcupada(t, f, e, pid, n - 1);
    }
  }

  lemma {:induction false} LibreContado(t: seq<Entrada>, f: nat, n: nat)
    requires f < n <= |t| && t[f].pid == LIBRE
    ensures Libres(t, n) > 0
  {
    if f < n - 1 {
      LibreContado(t, f, n - 1);
    }
  }

  lemma PaginaEnTabla(c: Config, e: Estado, f: nat, pid: int, n: int)
    requires Inv(c, e) && f < c.marcos && e.mapa.tabla[f].pid == LIBRE && Clave(pid, n)
    ensures AgregarPagina(c, e, f, pid, n).mapa.tabla == e.mapa.tabla[f := e.mapa.tabla[f].(pid := pid, pagina := n)]
  {
  }

  /** One more heap page: one more page of the process, one frame fewer, every other page as it was. */
  lemma PaginaDeHeapEfecto(c: Config, e: Estado, pid: nat)
    requires Inv(c, e) && Clave(pid, Cuantas(c, e, pid)) && MarcosLibres(c, e) > 0
    ensures var (r, n) := PaginaDeHeap(c, e, pid);
            && n == Cuantas(c, e, pid) && Cuantas(c, r, pid) == n + 1
            && MarcosLibres(c, r) == MarcosLibres(c, e) - 1
  {
    var t := e.mapa.tabla;
    hide Acuerdo, Ocupar, Formateada, Clave;
    HayLibre(t, c.marcos);
    var f := PrimeroLibre(t, 0);
    var n := Cuantas(c, e, pid);
    PaginaEnTabla(c, e, f, pid, n);
    var x := t[f].(pid := pid, pagina := n);
    LibresOcupado(t, f, x, c.marcos);
    PaginasOcupada(t, f, x, pid, c.marcos);
  }

  /** The page added is one free block, unless its number was already taken; the others keep their bytes. */
  lemma PaginaDeHeapAbs(c: Config, e: Estado, pid: nat)
    requires Inv(c, e) && Clave(pid, Cuantas(c, e, pid)) && MarcosLibres(c, e) > 0
    ensures var a, b, k := Abs(c, e), Abs(c, PaginaDeHeap(c, e, pid).0), Pagina(pid, Cuantas(c, e, pid));
            && (k in a ==> b == a)
            && (k !in a ==> k in b && b == a[k := b[k]] && EsNueva(c, b[k]))
  {
    var t := e.mapa.tabla;
    HayLibre(t, c.marcos);
    var f := PrimeroLibre(t, 0);
    hide Acuerdo, Abs, AgregarPagina;
    AgregarPaginaAbs(c, e, f, pid, Cuantas(c, e, pid));
    FormateadaEsUnBloque(c, e.paginas[f]);
  }

  /** A page that is one free block. */
  predicate EsNueva(c: Config, pg: seq<Byte>) {
    |pg| == c.ms && match Heap.Parsear(pg) {
      case Algo(bs) => |bs| == 1 && bs[0].libre
      case Nada => false
    }
  }

  lemma ContiguoSiguiente(c: Config, e: Estado, pid: nat, pagina: nat)
    requires Inv(c, e) && HeapContiguo(c, e, pid, pagina) && pagina + 1 < Cuantas(c, e, pid)
    ensures HeapContiguo(c, e, pid, pagina + 1)
  {
  }

  lemma ClaveDeCuenta(c: Config, e: Estado, pid: nat, pagina: nat)
    requires Inv(c, e) && HeapContiguo(c, e, pid, pagina)
    ensures Clave(pid, Cuantas(c, e, pid))
  {
    hide Inv;
    ClaveHaciaAbajo(pid, c.marcos, Cuantas(c, e, pid));
  }

  lemma ContiguoPagina(c: Config, e: Estado, pid: nat, pagina: nat)
    requires Inv(c, e) && HeapContiguo(c, e, pid, pagina)
    ensures DeBloques(c, e, pid, pagina) && pagina < Cuantas(c, e, pid)
  {
  }

  lemma NuevaDeBloques(c: Config, pg: seq<Byte>)
    requires EsNueva(c, pg)
    ensures Heap.Parsear(pg).Algo?
  {
  }

  lemma ContiguoAgregada(c: Config, e: Estado, pid: nat, pagina: nat)
    requires Inv(c, e) && HeapContiguo(c, e, pid, pagina) && MarcosLibres(c, e) > 0
    ensures Clave(pid, Cuantas(c, e, pid))
    ensures HeapContiguo(c, PaginaDeHeap(c, e, pid).0, pid, pagina)
  {
    hide Inv, DeBloques, PaginaDeHeap, Clave, MarcosLibres, Mapeada;
    ClaveDeCuenta(c, e, pid, pagina);
    PaginaDeHeapEfecto(c, e, pid);
    var n, r := Cuantas(c, e, pid), PaginaDeHeap(c, e, pid).0;
    forall q
      ensures pagina <= q < n + 1 ==> DeBloques(c, r, pid, q)
      ensures n + 1 <= q && Clave(pid, q) ==> !Mapeada(c, r, pid, q)
    {
      AgregadaEn(c, e, pid, pagina, q);
    }
  }

  lemma ContiguoEn(c: Config, e: Estado, pid: nat, pagina: nat, q: int)
    requires Inv(c, e) && HeapContiguo(c, e, pid, pagina)
    ensures pagina <= q < Cuantas(c, e, pid) ==> DeBloques(c, e, pid, q)
    ensures Cuantas(c, e, pid) <= q && Clave(pid, q) ==> !Mapeada(c, e, pid, q)
  {
  }

  lemma AgregadaEn(c: Config, e: Estado, pid: nat, pagina: nat, q: int)
    requires Inv(c, e) && HeapContiguo(c, e, pid, pagina) && MarcosLibres(c, e) > 0
    ensures Clave(pid, Cuantas(c, e, pid))
    ensures var n, r := Cuantas(c, e, pid), PaginaDeHeap(c, e, pid).0;
            && (pagina <= q < n + 1 ==> DeBloques(c, r, pid, q))
            && (n + 1 <= q && Clave(pid, q) ==> !Mapeada(c, r, pid, q))
  {
    hide Inv, Abs, Contenido, PaginaDeHeap, Clave, MarcosLibres, EsNueva, HeapContiguo;
    ClaveDeCuenta(c, e, pid, pagina);
    var n, r := Cuantas(c, e, pid), PaginaDeHeap(c, e, pid).0;
    ContiguoEn(c, e, pid, pagina, q);
    ContiguoEn(c, e, pid, pagina, n);
    PaginaDeHeapAbs(c, e, pid);
    AbsEn(c, e, Pagina(pid, n));
    AbsEn(c, e, Pagina(pid, q));
    AbsEn(c, r, Pagina(pid, q));
    NuevaDeBloques(c, Abs(c, r)[Pagina(pid, n)]);
  }

  /** The last page did not take the request and there is a free frame: the search goes on in a new page. */
  ghost function ConPagina(c: Config, e: Estado, pid: nat, pagina: nat): (r: Estado)
    requires Inv(c, e) && HeapContiguo(c, e, pid, pagina) && MarcosLibres(c, e) > 0 && pagina + 1 == Cuantas(c, e, pid)
    ensures Inv(c, r) && HeapContiguo(c, r, pid, pagina + 1)
    ensures Cuantas(c, r, pid) == pagina + 2 && MarcosLibres(c, r) == MarcosLibres(c, e) - 1
  {
    hide Inv;
    ContiguoAgregada(c, e, pid, pagina);
    PaginaDeHeapEfecto(c, e, pid);
    ContiguoSiguiente(c, PaginaDeHeap(c, e, pid).0, pid, pagina);
    PaginaDeHeap(c, e, pid).0
  }

  lemma ConPaginaAbs(c: Config, e: Estado, pid: nat, pagina: nat, k: Pagina)
    requires Inv(c, e) && HeapContiguo(c, e, pid, pagina) && MarcosLibres(c, e) > 0 && pagina + 1 == Cuantas(c, e, pid)
    ensures var a, b := Abs(c, e), Abs(c, ConPagina(c, e, pid, pagina));
            && (k in a ==> k in b && b[k] == a[k])
            && (k !in a ==> (k in b <==> k == Pagina(pid, pagina + 1)))
            && (k in b && k !in a ==> EsNueva(c, b[k]))
  {
    ClaveDeCuenta(c, e, pid, pagina);
    PaginaDeHeapAbs(c, e, pid);
    hide Inv, Abs, Contenido, PaginaDeHeap, EsNueva, DeBloques, Clave;
    AbsEn(c, e, Pagina(pid, pagina + 1));
  }

  /** The search of `alocar`: the page whose first fit takes the request, adding pages at the end
      while there are frames. The address is -1 when it gives up. */
  ghost function BuscarLugar(c: Config, e: Estado, pid: nat, pagina: nat, espacio: nat): (r: (Estado, nat, int))
    requires Inv(c, e) && HeapContiguo(c, e, pid, pagina)
    ensures Inv(c, r.0) && r.1 >= pagina && HeapContiguo(c, r.0, pid, r.1)
    ensures DeBloques(c, r.0, pid, r.1) && r.2 == Heap.Direccion(Bloques(c, r.0, pid, r.1), espacio)
    ensures r.2 == -1 ==> MarcosLibres(c, r.0) == 0 && r.1 + 1 == Cuantas(c, r.0, pid)
    decreases MarcosLibres(c, e), Cuantas(c, e, pid) - pagina
  {
    hide Inv, HeapContiguo, DeBloques;
    ContiguoPagina(c, e, pid, pagina);
    var d := Heap.Direccion(Bloques(c, e, pid, pagina), espacio);
    if d != -1 then (e, pagina, d)
    else if pagina + 1 < Cuantas(c, e, pid) then
      ContiguoSiguiente(c, e, pid, pagina);
      BuscarLugar(c, e, pid, pagina + 1, espacio)
    else if MarcosLibres(c, e) == 0 then (e, pagina, -1)
    else BuscarLugar(c, ConPagina(c, e, pid, pagina), pid, pagina + 1, espacio)
  }

  /** The search fits or stops at a page, or goes on in the one that follows. */
  lemma BuscarLugarAqui(c: Config, e: Estado, pid: nat, pagina: nat, espacio: nat)
    requires Inv(c, e) && HeapContiguo(c, e, pid, pagina)
    ensures DeBloques(c, e, pid, pagina) && pagina < Cuantas(c, e, pid)
    ensures var d := Heap.Direccion(Bloques(c, e, pid, pagina), espacio);
      d != -1 || (pagina + 1 == Cuantas(c, e, pid) && MarcosLibres(c, e) == 0) ==>
        BuscarLugar(c, e, pid, pagina, espacio) == (e, pagina, d)
  {
    hide Inv, HeapContiguo, DeBloques, Bloques, ConPagina, Cuantas, MarcosLibres;
    ContiguoPagina(c, e, pid, pagina);
  }

  lemma BuscarLugarSigue(c: Config, e: Estado, pid: nat, pagina: nat, espacio: nat)
    requires Inv(c, e) && HeapContiguo(c, e, pid, pagina) && pagina + 1 < Cuantas(c, e, pid)
    requires DeBloques(c, e, pid, pagina) && Heap.Direccion(Bloques(c, e, pid, pagina), espacio) == -1
    ensures HeapContiguo(c, e, pid, pagina + 1)
    ensures BuscarLugar(c, e, pid, pagina, espacio) == BuscarLugar(c, e, pid, pagina + 1, espacio)
  {
    hide Inv, HeapContiguo, DeBloques, Bloques, ConPagina, Cuantas, MarcosLibres;
    ContiguoSiguiente(c, e, pid, pagina);
  }

  lemma BuscarLugarAgrega(c: Config, e: Estado, pid: nat, pagina: nat, espacio: nat)
    requires Inv(c, e) && HeapContiguo(c, e, pid, pagina) && pagina + 1 == Cuantas(c, e, pid)
    requires MarcosLibres(c, e) > 0
    requires DeBloques(c, e, pid, pagina) && Heap.Direccion(Bloques(c, e, pid, pagina), espacio) == -1
    ensures BuscarLugar(c, e, pid, pagina, espacio)
         == BuscarLugar(c, ConPagina(c, e, pid, pagina), pid, pagina + 1, espacio)
  {
    hide Inv, HeapContiguo, DeBloques, Bloques, ConPagina, Cuantas, MarcosLibres;
  }

  /** `alocar`: the search, the split of the block found, and the refresh of the page in the cache. */
  ghost function Alocar(c: Config, e: Estado, pid: nat, pagina: nat, espacio: nat): (r: (Estado, nat, int))
    requires Inv(c, e) && HeapContiguo(c, e, pid, pagina)
    ensures Inv(c, r.0)
  {
    var (e1, p, d) := BuscarLugar(c, e, pid, pagina, espacio);
    var bs := Bloques(c, e1, pid, p);
    ReservarLargo(bs, espacio);
    (Publicar(c, e1, pid, p, Heap.Codificar(Heap.Reservar(bs, espacio))), p, d)
  }

  lemma ReservarLargo(bs: seq<Heap.Bloque>, espacio: nat)
    ensures |Heap.Codificar(Heap.Reservar(bs, espacio))| == |Heap.Codificar(bs)|
  {
    var k := Heap.PrimerAjuste(bs, espacio);
    if k < |bs| {
      Heap.PartirBytes(bs, k, espacio);
    }
  }

  /** A request fits in some page the process has, from `pagina` on. */
  ghost predicate CabeEnAlguna(c: Config, e: Estado, pid: nat, pagina: nat, espacio: nat)
    requires Inv(c, e) && HeapContiguo(c, e, pid, pagina)
  {
    exists q :: pagina <= q < Cuantas(c, e, pid) && DeBloques(c, e, pid, q)
                && Heap.Direccion(Bloques(c, e, pid, q), espacio) != -1
  }

  /** The page a frame becomes takes a request exactly when both headers fit beside it. */
  lemma NuevaTomaPedido(c: Config, pg: seq<Byte>, espacio: nat)
    requires EsNueva(c, pg) && Dimensiones(c)
    ensures Heap.Direccion(Heap.Parsear(pg).valor, espacio) != -1 <==> espacio + 2 * Heap.CAB <= c.ms
  {
  }

  lemma ContenidoIgual(c: Config, e: Estado, r: Estado, pid: nat, q: int)
    requires Inv(c, e) && Inv(c, r)
    requires Pagina(pid, q) in Abs(c, e) && Pagina(pid, q) in Abs(c, r)
    requires Abs(c, e)[Pagina(pid, q)] == Abs(c, r)[Pagina(pid, q)]
    ensures DeBloques(c, e, pid, q) <==> DeBloques(c, r, pid, q)
    ensures DeBloques(c, e, pid, q) ==> Bloques(c, e, pid, q) == Bloques(c, r, pid, q)
  {
    hide Inv, Abs;
    AbsEn(c, e, Pagina(pid, q));
    AbsEn(c, r, Pagina(pid, q));
  }

  /** `CabeEnAlguna`, page by page. */
  lemma CabeDesde(c: Config, e: Estado, pid: nat, pagina: nat, espacio: nat)
    requires Inv(c, e) && HeapContiguo(c, e, pid, pagina)
    ensures DeBloques(c, e, pid, pagina)
    ensures pagina + 1 < Cuantas(c, e, pid) ==> HeapContiguo(c, e, pid, pagina + 1)
    ensures CabeEnAlguna(c, e, pid, pagina, espacio) <==>
            || Heap.Direccion(Bloques(c, e, pid, pagina), espacio) != -1
            || (pagina + 1 < Cuantas(c, e, pid) && CabeEnAlguna(c, e, pid, pagina + 1, espacio))
  {
    hide Inv, DeBloques, Bloques;
    ContiguoPagina(c, e, pid, pagina);
    if pagina + 1 < Cuantas(c, e, pid) {
      ContiguoSiguiente(c, e, pid, pagina);
    }
  }

  /** The search succeeds if and only if the request fits in a page the process has,
      or a frame is free and the request fits in an empty page. */
  lemma {:induction false} BuscarLugarExito(c: Config, e: Estado, pid: nat, pagina: nat, espacio: nat)
    requires Inv(c, e) && HeapContiguo(c, e, pid, pagina)
    ensures BuscarLugar(c, e, pid, pagina, espacio).2 != -1 <==>
            CabeEnAlguna(c, e, pid, pagina, espacio) || (MarcosLibres(c, e) > 0 && espacio + 2 * Heap.CAB <= c.ms)
    decreases MarcosLibres(c, e), Cuantas(c, e, pid) - pagina
  {
    hide Inv, HeapContiguo, DeBloques, Bloques, BuscarLugar, CabeEnAlguna, ConPagina, Cuantas, MarcosLibres;
    BuscarLugarAqui(c, e, pid, pagina, espacio);
    CabeDesde(c, e, pid, pagina, espacio);
    if Heap.Direccion(Bloques(c, e, pid, pagina), espacio) != -1 {
    } else if pagina + 1 < Cuantas(c, e, pid) {
      BuscarLugarSigue(c, e, pid, pagina, espacio);
      BuscarLugarExito(c, e, pid, pagina + 1, espacio);
    } else if MarcosLibres(c, e) > 0 {
      BuscarLugarAgrega(c, e, pid, pagina, espacio);
      var r := ConPagina(c, e, pid, pagina);
      BuscarLugarExito(c, r, pid, pagina + 1, espacio);
      CabeDesde(c, r, pid, pagina + 1, espacio);
      NuevaPaginaToma(c, e, pid, pagina, espacio);
    }
  }

  lemma NuevaPaginaToma(c: Config, e: Estado, pid: nat, pagina: nat, espacio: nat)
    requires Inv(c, e) && HeapContiguo(c, e, pid, pagina) && MarcosLibres(c, e) > 0 && pagina + 1 == Cuantas(c, e, pid)
    ensures var r := ConPagina(c, e, pid, pagina);
            DeBloques(c, r, pid, pagina + 1)
            && (Heap.Direccion(Bloques(c, r, pid, pagina + 1), espacio) != -1 <==> espacio + 2 * Heap.CAB <= c.ms)
  {
    var r, k := ConPagina(c, e, pid, pagina), Pagina(pid, pagina + 1);
    ContiguoPagina(c, r, pid, pagina + 1);
    ConPaginaAbs(c, e, pid, pagina, k);
    AbsEn(c, e, k);
    AbsEn(c, r, k);
    assert Dimensiones(c);
    assert !Mapeada(c, e, pid, pagina + 1) by {
      hide Inv, DeBloques, ConPagina, Abs;
      ClaveDeCuenta(c, e, pid, pagina);
    }
    hide Inv, HeapContiguo, ConPagina, Cuantas, MarcosLibres, Abs, Contenido;
    NuevaTomaPedido(c, Abs(c, r)[k], espacio);
  }

  /** The search changes the blocks of no page. */
  lemma BloquesTrasBuscar(c: Config, e: Estado, pid: nat, pagina: nat, espacio: nat, q: int)
    requires Inv(c, e) && HeapContiguo(c, e, pid, pagina) && DeBloques(c, e, pid, q)
    ensures var r := BuscarLugar(c, e, pid, pagina, espacio).0;
      DeBloques(c, r, pid, q) && Bloques(c, r, pid, q) == Bloques(c, e, pid, q)
  {
    hide Inv, HeapContiguo, DeBloques, Bloques, BuscarLugar, Cuantas, MarcosLibres, Abs;
    BuscarLugarAbs(c, e, pid, pagina, espacio, Pagina(pid, q));
    BloquesEnAbs(c, e, pid, q);
    ContenidoIgual(c, e, BuscarLugar(c, e, pid, pagina, espacio).0, pid, q);
  }

  /** Pages met before the one returned do not take the request: the search is first fit. */
  lemma {:induction false} BuscarLugarPrimero(c: Config, e: Estado, pid: nat, pagina: nat, espacio: nat, q: nat)
    requires Inv(c, e) && HeapContiguo(c, e, pid, pagina)
    requires pagina <= q < BuscarLugar(c, e, pid, pagina, espacio).1
    ensures var r := BuscarLugar(c, e, pid, pagina, espacio).0;
            DeBloques(c, r, pid, q) && Heap.Direccion(Bloques(c, r, pid, q), espacio) == -1
    decreases MarcosLibres(c, e), Cuantas(c, e, pid) - pagina
  {
    hide Inv, HeapContiguo, DeBloques, Bloques, BuscarLugar, ConPagina, Cuantas, MarcosLibres, Abs;
    BuscarLugarAqui(c, e, pid, pagina, espacio);
    if q == pagina {
      BloquesTrasBuscar(c, e, pid, pagina, espacio, q);
    } else if pagina + 1 < Cuantas(c, e, pid) {
      BuscarLugarSigue(c, e, pid, pagina, espacio);
      BuscarLugarPrimero(c, e, pid, pagina + 1, espacio, q);
    } else {
      BuscarLugarAgrega(c, e, pid, pagina, espacio);
      BuscarLugarPrimero(c, ConPagina(c, e, pid, pagina), pid, pagina + 1, espacio, q);
    }
  }

  lemma BloquesEnAbs(c: Config, e: Estado, pid: nat, q: int)
    requires Inv(c, e) && DeBloques(c, e, pid, q)
    ensures Pagina(pid, q) in Abs(c, e) && Abs(c, e)[Pagina(pid, q)] == Heap.Codificar(Bloques(c, e, pid, q))
    ensures Heap.Parsear(Abs(c, e)[Pagina(pid, q)]) == Heap.Algo(Bloques(c, e, pid, q))
  {
    hide Inv, Abs;
    AbsEn(c, e, Pagina(pid, q));
  }

  /** Every page the search adds takes one free frame. */
  lemma {:induction false} BuscarLugarCuenta(c: Config, e: Estado, pid: nat, pagina: nat, espacio: nat)
    requires Inv(c, e) && HeapContiguo(c, e, pid, pagina)
    ensures var r := BuscarLugar(c, e, pid, pagina, espacio).0;
            Cuantas(c, r, pid) - Cuantas(c, e, pid) == MarcosLibres(c, e) - MarcosLibres(c, r) >= 0
    decreases MarcosLibres(c, e), Cuantas(c, e, pid) - pagina
  {
    hide Inv, HeapContiguo, DeBloques, Bloques, BuscarLugar, ConPagina, Cuantas, MarcosLibres;
    BuscarLugarAqui(c, e, pid, pagina, espacio);
    if Heap.Direccion(Bloques(c, e, pid, pagina), espacio) != -1 {
    } else if pagina + 1 < Cuantas(c, e, pid) {
      BuscarLugarSigue(c, e, pid, pagina, espacio);
      BuscarLugarCuenta(c, e, pid, pagina + 1, espacio);
    } else if MarcosLibres(c, e) > 0 {
      BuscarLugarAgrega(c, e, pid, pagina, espacio);
      BuscarLugarCuenta(c, ConPagina(c, e, pid, pagina), pid, pagina + 1, espacio);
    }
  }

  /**
   * How many pages the search adds: none when the request fits in a page the process has, one when it fits in an empty
   * page and there is a frame for it, and every free frame otherwise.
   */
  ghost function Agregadas(c: Config, e: Estado, pid: nat, pagina: nat, espacio: nat): nat
    requires Inv(c, e) && HeapContiguo(c, e, pid, pagina)
  {
    if CabeEnAlguna(c, e, pid, pagina, espacio) then 0
    else if espacio + 2 * Heap.CAB <= c.ms && MarcosLibres(c, e) > 0 then 1
    else MarcosLibres(c, e)
  }

  lemma {:induction false} BuscarLugarAgregadas(c: Config, e: Estado, pid: nat, pagina: nat, espacio: nat)
    requires Inv(c, e) && HeapContiguo(c, e, pid, pagina)
    ensures Cuantas(c, BuscarLugar(c, e, pid, pagina, espacio).0, pid)
         == Cuantas(c, e, pid) + Agregadas(c, e, pid, pagina, espacio)
    decreases MarcosLibres(c, e), Cuantas(c, e, pid) - pagina
  {
    hide Inv, HeapContiguo, DeBloques, Bloques, BuscarLugar, CabeEnAlguna, ConPagina, Cuantas, MarcosLibres;
    BuscarLugarAqui(c, e, pid, pagina, espacio);
    CabeDesde(c, e, pid, pagina, espacio);
    if Heap.Direccion(Bloques(c, e, pid, pagina), espacio) != -1 {
    } else if pagina + 1 < Cuantas(c, e, pid) {
      BuscarLugarSigue(c, e, pid, pagina, espacio);
      BuscarLugarAgregadas(c, e, pid, pagina + 1, espacio);
    } else if MarcosLibres(c, e) > 0 {
      BuscarLugarAgrega(c, e, pid, pagina, espacio);
      var r := ConPagina(c, e, pid, pagina);
      BuscarLugarAgregadas(c, r, pid, pagina + 1, espacio);
      CabeDesde(c, r, pid, pagina + 1, espacio);
      NuevaPaginaToma(c, e, pid, pagina, espacio);
    }
  }

  /** One page more for the process, counted for any process and page. */
  lemma AgregarCuentas(c: Config, e: Estado, f: nat, pid: int, n: int, p: nat, q: int)
    requires Inv(c, e) && f < c.marcos && e.mapa.tabla[f].pid == LIBRE && Clave(pid, n)
    ensures var r := AgregarPagina(c, e, f, pid, n);
      && MarcosLibres(c, r) == MarcosLibres(c, e) - 1
      && Cuantas(c, r, p) == Cuantas(c, e, p) + (if p == pid then 1 else 0)
      && VecesEn(c, r, p, q) == VecesEn(c, e, p, q) + (if p == pid && q == n then 1 else 0)
  {
    hide Acuerdo, Ocupar, Formateada, AgregarPagina, Libres, Paginas, Veces;
    PaginaEnTabla(c, e, f, pid, n);
    CambiaUna(e.mapa.tabla, f, e.mapa.tabla[f].(pid := pid, pagina := n), p, q, c.marcos);
  }

  lemma ConPaginaCuentas(c: Config, e: Estado, pid: nat, pagina: nat, p: nat, q: int)
    requires Inv(c, e) && HeapContiguo(c, e, pid, pagina) && MarcosLibres(c, e) > 0 && pagina + 1 == Cuantas(c, e, pid)
    ensures var r := ConPagina(c, e, pid, pagina);
      && Cuantas(c, r, p) == Cuantas(c, e, p) + (if p == pid then 1 else 0)
      && VecesEn(c, r, p, q) == VecesEn(c, e, p, q) + (if p == pid && q == pagina + 1 then 1 else 0)
  {
    Forma(c, e);
    ClaveDeCuenta(c, e, pid, pagina);
    HayLibre(e.mapa.tabla, c.marcos);
    AgregarCuentas(c, e, PrimeroLibre(e.mapa.tabla, 0), pid, Cuantas(c, e, pid), p, q);
    hide Inv, HeapContiguo, AgregarPagina, VecesEn, Paginas, Libres;
  }

  /** The frames the search takes hold the pages it adds, and no others. */
  lemma {:induction false} BuscarLugarCuentas(c: Config, e: Estado, pid: nat, pagina: nat, espacio: nat, p: nat, q: int)
    requires Inv(c, e) && HeapContiguo(c, e, pid, pagina)
    ensures var r := BuscarLugar(c, e, pid, pagina, espacio).0;
      && Cuantas(c, r, p) == Cuantas(c, e, p) + (if p == pid then Cuantas(c, r, pid) - Cuantas(c, e, pid) else 0)
      && VecesEn(c, r, p, q)
         == VecesEn(c, e, p, q) + (if p == pid && Cuantas(c, e, pid) <= q < Cuantas(c, r, pid) then 1 else 0)
    decreases MarcosLibres(c, e), Cuantas(c, e, pid) - pagina
  {
    hide Inv, HeapContiguo, DeBloques, Bloques, BuscarLugar, ConPagina, Cuantas, MarcosLibres, VecesEn;
    BuscarLugarAqui(c, e, pid, pagina, espacio);
    if Heap.Direccion(Bloques(c, e, pid, pagina), espacio) != -1 {
    } else if pagina + 1 < Cuantas(c, e, pid) {
      BuscarLugarSigue(c, e, pid, pagina, espacio);
      BuscarLugarCuentas(c, e, pid, pagina + 1, espacio, p, q);
    } else if MarcosLibres(c, e) > 0 {
      BuscarLugarAgrega(c, e, pid, pagina, espacio);
      ConPaginaCuentas(c, e, pid, pagina, p, q);
      BuscarLugarCuenta(c, ConPagina(c, e, pid, pagina), pid, pagina + 1, espacio);
      BuscarLugarCuentas(c, ConPagina(c, e, pid, pagina), pid, pagina + 1, espacio, p, q);
    }
  }

  /** The search changes no page: it only adds empty ones after the last of the process. */
  lemma {:induction false} BuscarLugarAbs(c: Config, e: Estado, pid: nat, pagina: nat, espacio: nat, k: Pagina)
    requires Inv(c, e) && HeapContiguo(c, e, pid, pagina)
    ensures var a, r := Abs(c, e), BuscarLugar(c, e, pid, pagina, espacio).0;
            var b := Abs(c, r);
            && (k in a ==> k in b && b[k] == a[k])
            && (k !in a ==> (k in b <==> k.pid == pid && Cuantas(c, e, pid) <= k.numero < Cuantas(c, r, pid)))
            && (k in b && k !in a ==> EsNueva(c, b[k]))
    decreases MarcosLibres(c, e), Cuantas(c, e, pid) - pagina
  {
    hide Inv, HeapContiguo, DeBloques, Bloques, BuscarLugar, ConPagina, Cuantas, MarcosLibres, Abs, EsNueva;
    BuscarLugarAqui(c, e, pid, pagina, espacio);
    if Heap.Direccion(Bloques(c, e, pid, pagina), espacio) != -1 {
    } else if pagina + 1 < Cuantas(c, e, pid) {
      BuscarLugarSigue(c, e, pid, pagina, espacio);
      BuscarLugarAbs(c, e, pid, pagina + 1, espacio, k);
    } else if MarcosLibres(c, e) > 0 {
      BuscarLugarAgrega(c, e, pid, pagina, espacio);
      ConPaginaAbs(c, e, pid, pagina, k);
      BuscarLugarCuenta(c, ConPagina(c, e, pid, pagina), pid, pagina + 1, espacio);
      BuscarLugarAbs(c, ConPagina(c, e, pid, pagina), pid, pagina + 1, espacio, k);
    }
  }

  lemma DeBloquesMapeada(c: Config, e: Estado, pid: int, q: int)
    requires Inv(c, e) && DeBloques(c, e, pid, q)
    ensures Mapeada(c, e, pid, q)
  {
    hide Inv, Mapeada;
  }

  /** A request that finds no place leaves the pages the search added and nothing else. */
  lemma AlocarSinLugar(c: Config, e: Estado, pid: nat, pagina: nat, espacio: nat)
    requires Inv(c, e) && HeapContiguo(c, e, pid, pagina)
    requires Alocar(c, e, pid, pagina, espacio).2 == -1
    ensures MarcosLibres(c, Alocar(c, e, pid, pagina, espacio).0) == 0
    ensures Abs(c, Alocar(c, e, pid, pagina, espacio).0) == Abs(c, BuscarLugar(c, e, pid, pagina, espacio).0)
    ensures Abs(c, Alocar(c, e, pid, pagina, espacio).0) == Abs(c, e) <==> MarcosLibres(c, e) == 0
  {
    hide Inv, Abs, Clave, Publicar, BuscarLugar, DeBloques, Bloques, Cuantas;
    var (e1, p, d) := BuscarLugar(c, e, pid, pagina, espacio);
    var bs := Bloques(c, e1, pid, p);
    ReservarLargo(bs, espacio);
    BloquesEnAbs(c, e1, pid, p);
    DeBloquesMapeada(c, e1, pid, p);
    PublicarAbs(c, e1, pid, p, Heap.Codificar(bs));
    assert Abs(c, e1)[Pagina(pid, p) := Heap.Codificar(bs)] == Abs(c, e1);
    assert Alocar(c, e, pid, pagina, espacio).0.mapa == e1.mapa;
    hide MarcosLibres;
    BuscarLugarCuenta(c, e, pid, pagina, espacio);
    if MarcosLibres(c, e) == 0 {
      forall k: Pagina
        ensures k in Abs(c, e1) <==> k in Abs(c, e)
        ensures k in Abs(c, e) ==> Abs(c, e1)[k] == Abs(c, e)[k]
      {
        BuscarLugarAbs(c, e, pid, pagina, espacio, k);
      }
      assert Abs(c, e1) == Abs(c, e);
    } else {
      var k := Pagina(pid, Cuantas(c, e, pid));
      BuscarLugarAbs(c, e, pid, pagina, espacio, k);
      AbsEn(c, e, k);
      ClaveDeCuenta(c, e, pid, pagina);
      assert k !in Abs(c, e) && k in Abs(c, e1);
    }
  }

  /**
   * A request fails exactly when it fits in no page the process has and there is no frame left or no empty page could
   * take it. In the latter case, and in no other, the failure has a cost: every free frame is now an empty page of the
   * process.
   */
  lemma AlocarFallido(c: Config, e: Estado, pid: nat, pagina: nat, espacio: nat)
    requires Inv(c, e) && HeapContiguo(c, e, pid, pagina)
    ensures Alocar(c, e, pid, pagina, espacio).2 == -1 <==>
      !CabeEnAlguna(c, e, pid, pagina, espacio) && (MarcosLibres(c, e) == 0 || espacio + 2 * Heap.CAB > c.ms)
    ensures Alocar(c, e, pid, pagina, espacio).2 == -1 && Abs(c, Alocar(c, e, pid, pagina, espacio).0) != Abs(c, e) <==>
      !CabeEnAlguna(c, e, pid, pagina, espacio) && MarcosLibres(c, e) > 0 && espacio + 2 * Heap.CAB > c.ms
    ensures Alocar(c, e, pid, pagina, espacio).2 == -1 ==> MarcosLibres(c, Alocar(c, e, pid, pagina, espacio).0) == 0
  {
    hide Inv, Abs, BuscarLugar, CabeEnAlguna, Cuantas, MarcosLibres, HeapContiguo, Publicar, DeBloques, Bloques;
    BuscarLugarExito(c, e, pid, pagina, espacio);
    assert Alocar(c, e, pid, pagina, espacio).2 == BuscarLugar(c, e, pid, pagina, espacio).2;
    hide Alocar;
    if Alocar(c, e, pid, pagina, espacio).2 == -1 {
      AlocarSinLugar(c, e, pid, pagina, espacio);
    }
  }

  /** A request that succeeds splits one block of one page and adds only empty pages. */
  lemma AlocarLogrado(c: Config, e: Estado, pid: nat, pagina: nat, espacio: nat)
    requires Inv(c, e) && HeapContiguo(c, e, pid, pagina)
    ensures var (e1, p, d) := BuscarLugar(c, e, pid, pagina, espacio);
            var bs := Bloques(c, e1, pid, p);
            var r := Alocar(c, e, pid, pagina, espacio);
            && r.1 == p && r.2 == d
            && Abs(c, r.0) == Abs(c, e1)[Pagina(pid, p) := Heap.Codificar(Heap.Reservar(bs, espacio))]
  {
    hide Inv, Abs, Clave, Publicar, BuscarLugar, DeBloques, Bloques, Cuantas, MarcosLibres;
    var (e1, p, d) := BuscarLugar(c, e, pid, pagina, espacio);
    var bs := Bloques(c, e1, pid, p);
    ReservarLargo(bs, espacio);
    DeBloquesMapeada(c, e1, pid, p);
    PublicarAbs(c, e1, pid, p, Heap.Codificar(Heap.Reservar(bs, espacio)));
  }

  /** `liberar`: the flag of the block, `clean_heap` over the page, and the refresh in the cache. */
  ghost function Liberar(c: Config, e: Estado, pid: int, pagina: int, direccion: nat): (r: Estado)
    requires Inv(c, e) && DeBloques(c, e, pid, pagina)
    requires Heap.BloqueEn(Bloques(c, e, pid, pagina), direccion) < |Bloques(c, e, pid, pagina)|
    ensures Inv(c, r)
  {
    var bs := Bloques(c, e, pid, pagina);
    var k := Heap.BloqueEn(bs, direccion);
    Heap.SoltarBytes(bs, k);
    Heap.CompactarLargo(Heap.Soltar(bs, k));
    Publicar(c, e, pid, pagina, Heap.Codificar(Heap.Compactar(Heap.Soltar(bs, k))))
  }

  lemma LiberarAbs(c: Config, e: Estado, pid: int, pagina: int, direccion: nat)
    requires Inv(c, e) && DeBloques(c, e, pid, pagina)
    requires Heap.BloqueEn(Bloques(c, e, pid, pagina), direccion) < |Bloques(c, e, pid, pagina)|
    ensures var bs := Bloques(c, e, pid, pagina);
            Abs(c, Liberar(c, e, pid, pagina, direccion)) ==
            Abs(c, e)[Pagina(pid, pagina) :=
              Heap.Codificar(Heap.Compactar(Heap.Soltar(bs, Heap.BloqueEn(bs, direccion))))]
  {
    hide Inv, Abs, Contenido, Publicar;
    var bs := Bloques(c, e, pid, pagina);
    var k := Heap.BloqueEn(bs, direccion);
    Heap.SoltarBytes(bs, k);
    Heap.CompactarLargo(Heap.Soltar(bs, k));
    PublicarAbs(c, e, pid, pagina, Heap.Codificar(Heap.Compactar(Heap.Soltar(bs, k))));
  }
}
