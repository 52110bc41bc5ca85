/** What stays in a page over whole runs of the memory server, and what a read returns of it. */
module Persistencia {
  import opened Bytes
  import opened Tablas
  import opened Modelo
  import opened Asignacion
  import opened Abstracta
  import opened Corridas
  import Heap
  import HeapDeProceso
  import HeapVivo

  // ---- bytes written and not touched again ----

  /** Page `k` holds `d` from byte `off` on. */
  ghost predicate Guarda(a: Vision, k: Pagina, off: nat, d: seq<Byte>) {
    k in a.paginas && off + |d| <= |a.paginas[k]| && a.paginas[k][off..off + |d|] == d
  }

  /** The request can change no byte of page `k`, told from the request alone. */
  predicate NoCambia(o: Orden, k: Pagina) {
    match o
    case Nuevo(p, _, _) => p != k.pid
    case Escribir(p, pagina, _, _) => Pagina(p, pagina) != k
    case Asignar(p, desde, _) => p != k.pid || k.numero < desde
    case Soltar(p, pagina, _) => Pagina(p, pagina) != k
    case DevolverPagina(p, pagina) => Pagina(p, pagina) != k
    case Terminar(p) => p != k.pid
    case _ => true
  }

  /** Nor any of its `n` bytes from `off` on. */
  predicate NoToca(o: Orden, k: Pagina, off: nat, n: nat) {
    NoCambia(o, k)
    || (o.Escribir? && (o.off + |o.datos| <= off || off + n <= o.off))
  }

  lemma NuevoAjeno(c: Config, a: Vision, o: Orden, x: Respuesta, b: Vision, k: Pagina)
    requires c.ms > 0 && PasoAbs(c, a, o, x, b) && o.Nuevo? && o.pid != k.pid && k in a.paginas
    ensures k in b.paginas && b.paginas[k] == a.paginas[k]
  {
    hide Trozos, Cola, TomaMarcos, MismosMarcos;
    var guion: seq<Byte> := o.mensaje + [0, 0];
    if x.numero != -1 {
      assert AdmitidoEn(c, a.paginas, o.pid, Trozos(guion, c.ms), Cola(guion, c.ms), x.numero, b.paginas, k);
    }
  }

  lemma AsignarAjeno(c: Config, a: Vision, o: Orden, x: Respuesta, b: Vision, k: Pagina)
    requires c.ms > 0 && PasoAbs(c, a, o, x, b) && o.Asignar? && k in a.paginas && NoCambia(o, k)
    ensures k in b.paginas && b.paginas[k] == a.paginas[k]
  {
    hide Heap.Parsear, Heap.Reservar, Heap.Codificar, Heap.Direccion, CabeAbs, AgregadasAbs, Toma, TomaMarcos,
      MismosMarcos;
    var n := AgregadasAbs(c, a, o.pid, o.desde, o.espacio);
    var m: Vision :| Extiende(c, a, o.pid, n, m)
                  && AsignarEn(m, o.pid, o.desde, o.espacio, x.pagina, x.direccion, b);
    assert ExtiendeEn(c, a, o.pid, n, m, k);
  }

  lemma DevolverAjeno(a: Vision, j: Pagina, b: Vision, k: Pagina)
    requires DevolverAbs(a, j, b) && j != k && k in a.paginas
    ensures k in b.paginas && b.paginas[k] == a.paginas[k]
  {
    assert k in a.paginas - {j} && (a.paginas - {j})[k] == a.paginas[k];
    assert k in b.paginas - {j} && (b.paginas - {j})[k] == b.paginas[k];
  }

  lemma PedirAjeno(c: Config, a: Vision, pid: nat, n: int, b: Vision, k: Pagina)
    requires PedirAbs(c, a, pid, n, b) && k in a.paginas
    ensures k in b.paginas && b.paginas[k] == a.paginas[k]
  {
    if a.libres > 0 {
      assert ExtiendeEn(c, a, pid, 1, b, k);
    }
  }

  /** A page no part of which the request can change is as it was. */
  lemma PaginaIgual(c: Config, a: Vision, o: Orden, x: Respuesta, b: Vision, k: Pagina)
    requires c.ms > 0 && PasoAbs(c, a, o, x, b) && k in a.paginas && NoCambia(o, k)
    ensures k in b.paginas && b.paginas[k] == a.paginas[k]
  {
    hide NuevoAbs, AsignarAbs, DevolverAbs, PedirAbs, MismosMarcos, Heap.Parsear, Heap.Codificar, Heap.Compactar,
      Heap.Soltar, Heap.BloqueEn, DevuelveTodos, Empalme;
    match o
    case Nuevo(_, _, _) => NuevoAjeno(c, a, o, x, b, k);
    case Asignar(_, _, _) => AsignarAjeno(c, a, o, x, b, k);
    case DevolverPagina(p, pagina) => DevolverAjeno(a, Pagina(p, pagina), b, k);
    case PedirPagina(p) => PedirAjeno(c, a, p, x.numero, b, k);
    case _ =>
  }

  lemma PasoGuarda(c: Config, a: Vision, o: Orden, x: Respuesta, b: Vision, k: Pagina, off: nat, d: seq<Byte>)
    requires c.ms > 0 && PasoAbs(c, a, o, x, b) && Guarda(a, k, off, d) && NoToca(o, k, off, |d|)
    ensures Guarda(b, k, off, d)
  {
    if NoCambia(o, k) {
      hide PasoAbs, NoCambia;
      PaginaIgual(c, a, o, x, b, k);
    } else {
      hide Empalme, MismosMarcos;
      EmpalmeFuera(a.paginas[k], o.off, o.datos, off, off + |d|);
    }
  }

  lemma {:induction false} CorridaGuarda(c: Config, e: Estado, os: seq<Orden>, k: Pagina, off: nat, d: seq<Byte>)
    requires Inv(c, e) && Ejecutable(c, e, os) && Guarda(Ver(c, e), k, off, d)
    requires forall o :: o in os ==> NoToca(o, k, off, |d|)
    ensures Guarda(Ver(c, Ejecutar(c, e, os).0), k, off, d)
    decreases |os|
  {
    hide Inv, Guarda, Ver, Hacer, Puede, PasoAbs, NoToca;
    if os != [] {
      PasoRefina(c, e, os[0]);
      PasoGuarda(c, Ver(c, e), os[0], Hacer(c, e, os[0]).1, Ver(c, Hacer(c, e, os[0]).0), k, off, d);
      CorridaGuarda(c, Hacer(c, e, os[0]).0, os[1..], k, off, d);
    }
  }

  /** A page that holds `d` reads as `d`. */
  lemma LeerGuardado(c: Config, e: Estado, k: Pagina, off: nat, d: seq<Byte>, i: nat, n: nat)
    requires Inv(c, e) && Guarda(Ver(c, e), k, off, d) && i + n <= |d| && k.pid >= 0
    ensures Puede(c, e, Leer(k.pid, k.numero, off + i, n))
    ensures Hacer(c, e, Leer(k.pid, k.numero, off + i, n)).1 == Datos(Heap.Algo(d[i..i + n]))
  {
    hide Inv, Abs, Ver, Contenido, Mapeada, Lectura;
    VerPaginas(c, e);
    AbsEn(c, e, k);
    TieneClave(c, e, k);
    LecturaTransparente(c, e, k.pid, k.numero, off + i, n);
    var pg := Abs(c, e)[k];
    assert pg[off..off + |d|][i..i + n] == pg[off + i..off + i + n];
  }

  lemma TieneClave(c: Config, e: Estado, k: Pagina)
    requires Inv(c, e) && Mapeada(c, e, k.pid, k.numero)
    ensures Clave(k.pid, k.numero) && |Contenido(c, e, k.pid, k.numero)| == c.ms
  {
  }

  lemma EscribirGuarda(c: Config, e: Estado, pid: nat, pagina: int, off: nat, d: seq<Byte>)
    requires Inv(c, e) && Puede(c, e, Escribir(pid, pagina, off, d))
    ensures Guarda(Ver(c, Hacer(c, e, Escribir(pid, pagina, off, d)).0), Pagina(pid, pagina), off, d)
  {
    hide Inv, Ver, Hacer, Puede, Empalme;
    PasoRefina(c, e, Escribir(pid, pagina, off, d));
    EmpalmeLeido(Ver(c, e).paginas[Pagina(pid, pagina)], off, d);
  }

  /**
   * Whatever else every process asks for, bytes written and not touched since are what a read returns, from the cache
   * or from memory.
   */
  lemma LecturaDeLoEscrito(c: Config, e: Estado, pid: nat, pagina: int, off: nat, d: seq<Byte>, os: seq<Orden>,
                           i: nat, n: nat)
    requires Inv(c, e) && Ejecutable(c, e, [Escribir(pid, pagina, off, d)] + os) && i + n <= |d|
    requires forall o :: o in os ==> NoToca(o, Pagina(pid, pagina), off, |d|)
    ensures var r := Ejecutar(c, e, [Escribir(pid, pagina, off, d)] + os).0;
      && Puede(c, r, Leer(pid, pagina, off + i, n))
      && Hacer(c, r, Leer(pid, pagina, off + i, n)).1 == Datos(Heap.Algo(d[i..i + n]))
  {
    hide Inv, Guarda, Ver, Hacer, Puede, NoToca;
    var w := Escribir(pid, pagina, off, d);
    assert ([w] + os)[1..] == os;
    var e1 := Hacer(c, e, w).0;
    EscribirGuarda(c, e, pid, pagina, off, d);
    CorridaGuarda(c, e1, os, Pagina(pid, pagina), off, d);
    LeerGuardado(c, Ejecutar(c, e1, os).0, Pagina(pid, pagina), off, d, i, n);
  }

  // ---- live blocks of a heap ----

  /** The page read as a list of blocks has an occupied one at `dir`, with these bytes. */
  predicate Vivo(pg: seq<Byte>, dir: nat, d: seq<Byte>) {
    match Heap.Parsear(pg)
    case Algo(bs) => var m := HeapVivo.Ocupados(bs); dir in m && m[dir] == d
    case Nada => false
  }

  ghost predicate Tiene(a: Vision, k: Pagina, dir: nat, d: seq<Byte>) {
    k in a.paginas && Vivo(a.paginas[k], dir, d)
  }

  /** The write lies inside the block of `n` bytes at `dir` of page `k`. */
  predicate EscribeEn(o: Orden, k: Pagina, dir: nat, n: nat) {
    o.Escribir? && Pagina(o.pid, o.pagina) == k && dir <= o.off && o.off + |o.datos| <= dir + n
  }

  /** What the block holds after the request, told from the request alone. */
  function Tras(o: Orden, k: Pagina, dir: nat, d: seq<Byte>): (r: seq<Byte>)
    ensures |r| == |d|
  {
    if EscribeEn(o, k, dir, |d|) then Empalme(d, o.off - dir, o.datos) else d
  }

  function TrasTodas(os: seq<Orden>, k: Pagina, dir: nat, d: seq<Byte>): (r: seq<Byte>)
    ensures |r| == |d|
  {
    if os == [] then d else TrasTodas(os[1..], k, dir, Tras(os[0], k, dir, d))
  }

  /**
   * The request does not free the block, give back its page, end its process or load a script over it; and a write to
   * its page lies inside one block.
   */
  ghost predicate Respeta(a: Vision, o: Orden, k: Pagina, dir: nat) {
    match o
    case Nuevo(p, _, _) => p != k.pid
    case Escribir(p, pagina, off, datos) =>
      Pagina(p, pagina) == k && k in a.paginas ==> HeapDeProceso.DentroDeBloque(a.paginas[k], off, |datos|)
    case Soltar(p, pagina, d) => Pagina(p, pagina) != k || d != dir
    case DevolverPagina(p, pagina) => Pagina(p, pagina) != k
    case Terminar(p) => p != k.pid
    case _ => true
  }

  lemma VivoDe(bs: seq<Heap.Bloque>, dir: nat, d: seq<Byte>)
    requires |Heap.Codificar(bs)| < TOPE32
    ensures Vivo(Heap.Codificar(bs), dir, d) <==> dir in HeapVivo.Ocupados(bs) && HeapVivo.Ocupados(bs)[dir] == d
  {
    hide Heap.Codificar, HeapVivo.Ocupados, Heap.Parsear;
    Heap.ParsearCodificar(bs);
  }

  lemma ReservadaViva(pg: seq<Byte>, espacio: nat, dir: nat, d: seq<Byte>)
    requires |pg| < TOPE32 && Vivo(pg, dir, d)
    ensures Vivo(Heap.Codificar(Heap.Reservar(Heap.Parsear(pg).valor, espacio)), dir, d)
  {
    hide Heap.Reservar, Heap.Codificar, Heap.Parsear, HeapVivo.Ocupados;
    var bs := Heap.Parsear(pg).valor;
    ReservarLargo(bs, espacio);
    HeapVivo.PedirMapa(bs, espacio);
    VivoDe(Heap.Reservar(bs, espacio), dir, d);
  }

  /** Freeing another address, of an occupied block or of a free one. */
  lemma SoltadaViva(pg: seq<Byte>, j: nat, dir: nat, d: seq<Byte>)
    requires |pg| < TOPE32 && Vivo(pg, dir, d)
    requires var bs := Heap.Parsear(pg).valor;
      Heap.BloqueEn(bs, j) < |bs| && j != dir
    ensures var bs := Heap.Parsear(pg).valor;
      Vivo(Heap.Codificar(Heap.Compactar(Heap.Soltar(bs, Heap.BloqueEn(bs, j)))), dir, d)
  {
    hide Heap.Compactar, Heap.Codificar, Heap.Parsear, HeapVivo.Ocupados, Heap.BloqueEn;
    var bs := Heap.Parsear(pg).valor;
    var k := Heap.BloqueEn(bs, j);
    Heap.SoltarBytes(bs, k);
    Heap.CompactarLargo(Heap.Soltar(bs, k));
    if bs[k].libre {
      assert Heap.Soltar(bs, k) == bs;
      MismosVivos(bs);
    } else {
      HeapVivo.DevolverMapa(bs, j);
    }
    VivoDe(Heap.Compactar(Heap.Soltar(bs, k)), dir, d);
  }

  lemma MismosVivos(bs: seq<Heap.Bloque>)
    ensures HeapVivo.Ocupados(Heap.Compactar(bs)) == HeapVivo.Ocupados(bs)
  {
    hide Heap.Compactar, Heap.Vivos;
    Heap.CompactarVivos(bs, 0);
  }

  /** The payloads of different blocks do not even touch. */
  lemma Apartados(bs: seq<Heap.Bloque>, i: nat, j: nat)
    requires i < |bs| && j < |bs| && i != j
    ensures Heap.Lugar(bs, i) + Heap.CAB + |bs[i].datos| < Heap.Lugar(bs, j) + Heap.CAB
         || Heap.Lugar(bs, j) + Heap.CAB + |bs[j].datos| < Heap.Lugar(bs, i) + Heap.CAB
  {
    hide Heap.Lugar;
    var a, b := if i < j then i else j, if i < j then j else i;
    Heap.LugarSiguiente(bs, a);
    if a + 1 < b {
      HeapVivo.LugarCrece(bs, a + 1, b);
    }
  }

  /** A free block written in stays out of the map. */
  lemma EscritaLibre(bs: seq<Heap.Bloque>, j: nat, d: seq<Byte>)
    requires j < |bs| && bs[j].libre && |d| == |bs[j].datos|
    ensures HeapVivo.Ocupados(bs[j := Heap.Bloque(true, d)]) == HeapVivo.Ocupados(bs)
  {
    hide Heap.Vivos, Heap.Codificar;
    var a, b, n, z := bs[..j], bs[j], Heap.Bloque(true, d), bs[j + 1..];
    assert bs == a + [b] + z && bs[j := n] == a + [n] + z;
    Heap.VivosUno(b, 0);
    Heap.VivosUno(n, 0);
    Heap.VivosUno(b, |Heap.Codificar(a)|);
    Heap.VivosUno(n, |Heap.Codificar(a)|);
    Heap.SustituirVivos(a, [b], [n], z);
  }

  /** Writing in block `j`, seen from the occupied block at `dir`. */
  lemma EscritaEnLista(bs: seq<Heap.Bloque>, j: nat, o: nat, w: seq<Byte>, dir: nat)
    requires j < |bs| && o + |w| <= |bs[j].datos| && dir in HeapVivo.Ocupados(bs)
    ensures var cs := bs[j := Heap.Bloque(bs[j].libre, Empalme(bs[j].datos, o, w))];
      var m, r := HeapVivo.Ocupados(bs), HeapVivo.Ocupados(cs);
      var off := Heap.Lugar(bs, j) + Heap.CAB + o;
      && dir in r
      && r[dir] == if dir <= off && off + |w| <= dir + |m[dir]| then Empalme(m[dir], off - dir, w) else m[dir]
  {
    hide HeapVivo.Ocupados, Heap.Lugar, Heap.BloqueEn, Empalme;
    var k := Heap.BloqueEn(bs, dir);
    var dj := Heap.Lugar(bs, j) + Heap.CAB;
    HeapVivo.OcupadoEn(bs, dir);
    if j != k {
      Apartados(bs, j, k);
    }
    if bs[j].libre {
      EscritaLibre(bs, j, Empalme(bs[j].datos, o, w));
    } else {
      HeapVivo.OcupadoDeBloque(bs, j);
      HeapVivo.OcupadoEn(bs, dj);
      if Heap.BloqueEn(bs, dj) != j {
        Apartados(bs, Heap.BloqueEn(bs, dj), j);
      }
      HeapVivo.AnotarMapa(bs, dj, o, w);
    }
  }

  lemma EscritaViva(pg: seq<Byte>, off: nat, w: seq<Byte>, dir: nat, d: seq<Byte>)
    requires |pg| < TOPE32 && Vivo(pg, dir, d) && off + |w| <= |pg| && HeapDeProceso.DentroDeBloque(pg, off, |w|)
    ensures Vivo(Empalme(pg, off, w), dir,
                 if dir <= off && off + |w| <= dir + |d| then Empalme(d, off - dir, w) else d)
  {
    hide Heap.Codificar, Heap.Parsear, HeapVivo.Ocupados, Heap.Lugar, Empalme;
    var bs := Heap.Parsear(pg).valor;
    var j :| 0 <= j < |bs| && Heap.Lugar(bs, j) + Heap.CAB <= off
          && off + |w| <= Heap.Lugar(bs, j) + Heap.CAB + |bs[j].datos|;
    var o := off - Heap.Lugar(bs, j) - Heap.CAB;
    var cs := bs[j := Heap.Bloque(bs[j].libre, Empalme(bs[j].datos, o, w))];
    Heap.EscrituraEnBloque(bs, j, o, w);
    EscritaEnLista(bs, j, o, w, dir);
    VivoDe(cs, dir, HeapVivo.Ocupados(cs)[dir]);
  }

  lemma TieneAsignar(c: Config, a: Vision, o: Orden, x: Respuesta, b: Vision, k: Pagina, dir: nat, d: seq<Byte>)
    requires c.ms > 0 && PasoAbs(c, a, o, x, b) && o.Asignar? && Tiene(a, k, dir, d) && |a.paginas[k]| < TOPE32
    ensures Tiene(b, k, dir, d)
  {
    hide Vivo, Heap.Parsear, Heap.Reservar, Heap.Codificar, Heap.Direccion, CabeAbs, AgregadasAbs, Toma, TomaMarcos,
      MismosMarcos;
    var n := AgregadasAbs(c, a, o.pid, o.desde, o.espacio);
    var m: Vision :| Extiende(c, a, o.pid, n, m)
                  && AsignarEn(m, o.pid, o.desde, o.espacio, x.pagina, x.direccion, b);
    assert ExtiendeEn(c, a, o.pid, n, m, k);
    if k == Pagina(o.pid, x.pagina) {
      ReservadaViva(m.paginas[k], o.espacio, dir, d);
    }
  }

  lemma TieneSoltar(c: Config, a: Vision, o: Orden, x: Respuesta, b: Vision, k: Pagina, dir: nat, d: seq<Byte>)
    requires c.ms > 0 && PasoAbs(c, a, o, x, b) && o.Soltar? && Tiene(a, k, dir, d) && |a.paginas[k]| < TOPE32
    requires k == Pagina(o.pid, o.pagina) && o.direccion != dir
    ensures Tiene(b, k, dir, d)
  {
    hide Vivo, Heap.Parsear, Heap.Compactar, Heap.Codificar, Heap.Soltar, Heap.BloqueEn, MismosMarcos;
    SoltadaViva(a.paginas[k], o.direccion, dir, d);
  }

  /** A request that respects a live block leaves it live, with what it wrote in it. */
  lemma PasoTiene(c: Config, a: Vision, o: Orden, x: Respuesta, b: Vision, k: Pagina, dir: nat, d: seq<Byte>)
    requires c.ms > 0 && PasoAbs(c, a, o, x, b) && Respeta(a, o, k, dir)
    requires Tiene(a, k, dir, d) && |a.paginas[k]| < TOPE32
    ensures Tiene(b, k, dir, Tras(o, k, dir, d))
  {
    hide Vivo, HeapDeProceso.DentroDeBloque, Empalme, MismosMarcos;
    if NoCambia(o, k) {
      hide PasoAbs;
      PaginaIgual(c, a, o, x, b, k);
    } else if o.Escribir? {
      EscritaViva(a.paginas[k], o.off, o.datos, dir, d);
    } else if o.Asignar? {
      hide PasoAbs;
      TieneAsignar(c, a, o, x, b, k, dir, d);
    } else {
      hide PasoAbs;
      TieneSoltar(c, a, o, x, b, k, dir, d);
    }
  }

  /** Every request of the run respects the block. */
  ghost predicate RespetanTodas(c: Config, e: Estado, os: seq<Orden>, k: Pagina, dir: nat)
    requires Inv(c, e) && Ejecutable(c, e, os)
    decreases |os|
  {
    os == [] || (Respeta(Ver(c, e), os[0], k, dir) && RespetanTodas(c, Hacer(c, e, os[0]).0, os[1..], k, dir))
  }

  lemma LargoDePagina(c: Config, e: Estado, k: Pagina)
    requires Inv(c, e) && k in Ver(c, e).paginas
    ensures |Ver(c, e).paginas[k]| == c.ms < TOPE32
  {
    hide Ver, Abs, Contenido, Mapeada, Acuerdo;
    Forma(c, e);
    VerPaginas(c, e);
    AbsEn(c, e, k);
  }

  lemma LargosDePagina(c: Config, e: Estado)
    requires Inv(c, e)
    ensures 0 < c.ms < TOPE32 && forall k :: k in Ver(c, e).paginas ==> |Ver(c, e).paginas[k]| == c.ms
  {
    hide Ver, Acuerdo;
    Forma(c, e);
    forall k | k in Ver(c, e).paginas
      ensures |Ver(c, e).paginas[k]| == c.ms
    {
      LargoDePagina(c, e, k);
    }
  }

  lemma {:induction false} CorridaTiene(c: Config, e: Estado, os: seq<Orden>, k: Pagina, dir: nat, d: seq<Byte>)
    requires Inv(c, e) && Ejecutable(c, e, os) && Tiene(Ver(c, e), k, dir, d) && RespetanTodas(c, e, os, k, dir)
    ensures Tiene(Ver(c, Ejecutar(c, e, os).0), k, dir, TrasTodas(os, k, dir, d))
    decreases |os|
  {
    hide Inv, Ver, Hacer, Puede, PasoAbs, Respeta, Tras, Vivo;
    if os != [] {
      PasoRefina(c, e, os[0]);
      LargoDePagina(c, e, k);
      var e1 := Hacer(c, e, os[0]).0;
      PasoTiene(c, Ver(c, e), os[0], Hacer(c, e, os[0]).1, Ver(c, e1), k, dir, d);
      CorridaTiene(c, e1, os[1..], k, dir, Tras(os[0], k, dir, d));
    }
  }

  /** The bytes of a live block are where its address says. */
  lemma VivoGuarda(a: Vision, k: Pagina, dir: nat, d: seq<Byte>)
    requires Tiene(a, k, dir, d) && |a.paginas[k]| < TOPE32
    ensures Guarda(a, k, dir, d)
  {
    hide Heap.Parsear, HeapVivo.Ocupados, Heap.Codificar, Heap.Lugar;
    var bs := Heap.Parsear(a.paginas[k]).valor;
    HeapVivo.OcupadoEn(bs, dir);
    var j := Heap.BloqueEn(bs, dir);
    Heap.CabeceraEn(bs, j);
  }

  /** A heap request that finds room gives a live block of the size asked for. */
  lemma AsignarTiene(c: Config, a: Vision, o: Orden, x: Respuesta, b: Vision) returns (d: seq<Byte>)
    requires 0 < c.ms < TOPE32 && PasoAbs(c, a, o, x, b) && o.Asignar? && x.direccion != -1
    requires forall k :: k in b.paginas ==> |b.paginas[k]| == c.ms
    ensures x.direccion >= 0 && |d| == o.espacio && Tiene(b, Pagina(o.pid, x.pagina), x.direccion, d)
  {
    hide Heap.Parsear, Heap.Reservar, Heap.Codificar, HeapVivo.Ocupados, CabeAbs, AgregadasAbs, Toma, Extiende,
      MismosMarcos, HeapVivo.Aparte;
    var n := AgregadasAbs(c, a, o.pid, o.desde, o.espacio);
    var m: Vision :| Extiende(c, a, o.pid, n, m)
                  && AsignarEn(m, o.pid, o.desde, o.espacio, x.pagina, x.direccion, b);
    var k := Pagina(o.pid, x.pagina);
    var bs := Heap.Parsear(m.paginas[k]).valor;
    HeapVivo.PedirMapa(bs, o.espacio);
    assert k in b.paginas && b.paginas[k] == Heap.Codificar(Heap.Reservar(bs, o.espacio));
    d := HeapVivo.Ocupados(Heap.Reservar(bs, o.espacio))[x.direccion];
    VivoDe(Heap.Reservar(bs, o.espacio), x.direccion, d);
  }

  /** Right after the request the block is live. */
  lemma BloqueNace(c: Config, e: Estado, o: Orden, e1: Estado, x: Respuesta) returns (d: seq<Byte>)
    requires Inv(c, e) && o.Asignar? && Puede(c, e, o) && Hacer(c, e, o) == (e1, x)
    requires x.Puntero? && x.direccion >= 0
    ensures Inv(c, e1) && |d| == o.espacio && Tiene(Ver(c, e1), Pagina(o.pid, x.pagina), x.direccion, d)
  {
    hide Inv, Ver, Hacer, Puede, PasoAbs, Tiene;
    PasoRefina(c, e, o);
    LargosDePagina(c, e1);
    d := AsignarTiene(c, Ver(c, e), o, x, Ver(c, e1));
  }

  /** Reading a live block. */
  lemma LeerVivo(c: Config, e: Estado, k: Pagina, dir: nat, d: seq<Byte>, i: nat, n: nat)
    requires Inv(c, e) && Tiene(Ver(c, e), k, dir, d) && i + n <= |d| && k.pid >= 0
    ensures Puede(c, e, Leer(k.pid, k.numero, dir + i, n))
    ensures Hacer(c, e, Leer(k.pid, k.numero, dir + i, n)).1 == Datos(Heap.Algo(d[i..i + n]))
  {
    hide Inv, Ver, Hacer, Puede, Guarda, Vivo;
    LargoDePagina(c, e, k);
    VivoGuarda(Ver(c, e), k, dir, d);
    LeerGuardado(c, e, k, dir, d, i, n);
  }

  /**
   * A block answered to a heap request, over any run in which it is not freed, its page not given back and its process
   * not ended, and whose writes to its page stay inside blocks: it keeps its address, and reading it, from the cache or
   * from memory, answers what the writes into it left there.
   */
  lemma BloqueVivo(c: Config, e: Estado, o: Orden, e1: Estado, x: Respuesta, os: seq<Orden>, i: nat, n: nat)
    returns (d: seq<Byte>)
    requires Inv(c, e) && o.Asignar? && Puede(c, e, o) && Hacer(c, e, o) == (e1, x)
    requires x.Puntero? && x.direccion >= 0 && i + n <= o.espacio
    requires Ejecutable(c, e1, os) && RespetanTodas(c, e1, os, Pagina(o.pid, x.pagina), x.direccion)
    ensures |d| == o.espacio && Tiene(Ver(c, e1), Pagina(o.pid, x.pagina), x.direccion, d)
    ensures var r, v := Ejecutar(c, e1, os).0, TrasTodas(os, Pagina(o.pid, x.pagina), x.direccion, d);
      && Tiene(Ver(c, r), Pagina(o.pid, x.pagina), x.direccion, v)
      && Puede(c, r, Leer(o.pid, x.pagina, x.direccion + i, n))
      && Hacer(c, r, Leer(o.pid, x.pagina, x.direccion + i, n)).1 == Datos(Heap.Algo(v[i..i + n]))
  {
    hide Inv, Ver, Hacer, Puede, Tiene, Ejecutar, Ejecutable, RespetanTodas, TrasTodas;
    var k := Pagina(o.pid, x.pagina);
    d := BloqueNace(c, e, o, e1, x);
    CorridaTiene(c, e1, os, k, x.direccion, d);
    LeerVivo(c, Ejecutar(c, e1, os).0, k, x.direccion, TrasTodas(os, k, x.direccion, d), i, n);
  }
}
