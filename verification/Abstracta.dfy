/** The requests of the memory server, and the plain machine every one of them is a step of. */
module Abstracta {
  import opened Bytes
  import opened Tablas
  import opened Conteo
  import opened Cache
  import opened Modelo
  import opened Asignacion
  import Heap

  /** One message of the kernel or a CPU (or the `flush` of the console). */
  datatype Orden =
    | Nuevo(pid: nat, mensaje: seq<Byte>, pila: nat)
    | Leer(pid: nat, pagina: int, inicio: nat, largo: nat)
    | Escribir(pid: nat, pagina: int, off: nat, datos: seq<Byte>)
    | PedirPagina(pid: nat)
    | Asignar(pid: nat, desde: nat, espacio: nat)
    | Soltar(pid: nat, pagina: int, direccion: nat)
    | DevolverPagina(pid: nat, pagina: int)
    | Vaciar
    | Terminar(pid: nat)

  datatype Respuesta =
    | Datos(datos: Opcion<seq<Byte>>)
    | Numero(numero: int)
    | Puntero(pagina: int, direccion: int)
    | Hecho

  /** What the server takes for granted of a request. */
  ghost predicate Puede(c: Config, e: Estado, o: Orden)
    requires Inv(c, e)
  {
    match o
    case Nuevo(pid, mensaje, pila) => Numerables(c, e, pid, PaginasDeGuion(|mensaje| + 2, c.ms) + pila)
    case Leer(pid, pagina, inicio, largo) => Clave(pid, pagina) && inicio + largo <= c.ms
    case Escribir(pid, pagina, off, datos) => Mapeada(c, e, pid, pagina) && off + |datos| <= c.ms
    case PedirPagina(pid) => Clave(pid, Cuantas(c, e, pid))
    case Asignar(pid, pagina, espacio) => HeapContiguo(c, e, pid, pagina)
    case Soltar(pid, pagina, dir) =>
      DeBloques(c, e, pid, pagina) && Heap.BloqueEn(Bloques(c, e, pid, pagina), dir) < |Bloques(c, e, pid, pagina)|
    case DevolverPagina(pid, pagina) => Mapeada(c, e, pid, pagina)
    case Vaciar => true
    case Terminar(pid) => true
  }

  ghost function Hacer(c: Config, e: Estado, o: Orden): (r: (Estado, Respuesta))
    requires Inv(c, e) && Puede(c, e, o)
    ensures Inv(c, r.0)
  {
    hide Inv, Mapeada, HeapContiguo, DeBloques;
    match o
    case Nuevo(pid, mensaje, pila) =>
      var (r, n, _) := NuevoProceso(c, e, pid, mensaje, pila); (r, Numero(n))
    case Leer(pid, pagina, inicio, largo) =>
      LecturaTransparente(c, e, pid, pagina, inicio, largo);
      var (r, d) := Lectura(c, e, pid, pagina, inicio, largo); (r, Datos(d))
    case Escribir(pid, pagina, off, datos) => (Escritura(c, e, pid, pagina, off, datos), Hecho)
    case PedirPagina(pid) => var (r, n) := NuevaPagina(c, e, pid); (r, Numero(n))
    case Asignar(pid, pagina, espacio) => var (r, p, d) := Alocar(c, e, pid, pagina, espacio); (r, Puntero(p, d))
    case Soltar(pid, pagina, dir) => (Liberar(c, e, pid, pagina, dir), Hecho)
    case DevolverPagina(pid, pagina) => (LiberarPagina(c, e, pid, pagina), Hecho)
    case Vaciar => (Flush(c, e), Hecho)
    case Terminar(pid) => (FinalizarProceso(c, e, pid), Hecho)
  }

  // ---- the abstract machine ----

  type Memoria = map<Pagina, seq<Byte>>

  /**
   * All a client can tell of the server: the bytes of each page, how many frames are free, how many each process has,
   * and how many carry each page number. There is no table, index, heap search order or cache here.
   */
  datatype Vision = Vision(paginas: Memoria, libres: nat, cuentas: nat -> nat, veces: Pagina -> nat)

  ghost function Ver(c: Config, e: Estado): Vision
    requires Inv(c, e)
  {
    var t := e.mapa.tabla;
    Vision(Abs(c, e), Libres(t, |t|), (p: nat) => Paginas(t, p, |t|),
           (k: Pagina) => if k.pid >= 0 then Veces(t, k.pid, k.numero, |t|) else 0)
  }

  /** Frames are where they were. */
  ghost predicate MismosMarcos(a: Vision, b: Vision) {
    && b.libres == a.libres
    && (forall p: nat :: b.cuentas(p) == a.cuentas(p))
    && (forall k: Pagina :: b.veces(k) == a.veces(k))
  }

  /** The process takes a frame for each of `n` pages, numbered from `desde` on. */
  ghost predicate TomaMarcos(a: Vision, b: Vision, pid: nat, desde: nat, n: int) {
    && b.libres == a.libres - n
    && (forall p: nat :: b.cuentas(p) == a.cuentas(p) + (if p == pid then n else 0))
    && (forall k: Pagina ::
          b.veces(k) == a.veces(k) + (if k.pid == pid && desde <= k.numero < desde + n then 1 else 0))
  }

  /** A frame that held page `k` is free. */
  ghost predicate DevuelveMarco(a: Vision, b: Vision, k: Pagina) {
    && b.libres == a.libres + 1
    && (forall p: nat :: b.cuentas(p) == a.cuentas(p) - (if p == k.pid then 1 else 0))
    && (forall j: Pagina :: b.veces(j) == a.veces(j) - (if j == k then 1 else 0))
  }

  /** All the frames of a process are free. */
  ghost predicate DevuelveTodos(a: Vision, b: Vision, pid: nat) {
    && b.libres == a.libres + a.cuentas(pid)
    && (forall p: nat :: b.cuentas(p) == if p == pid then 0 else a.cuentas(p))
    && (forall k: Pagina :: b.veces(k) == if k.pid == pid then 0 else a.veces(k))
  }

  /** A page exists exactly when some frame holds it. */
  ghost predicate Coherente(a: Vision) {
    forall k: Pagina :: k in a.paginas <==> a.veces(k) > 0
  }

  /** `m` is `a` with `n` empty pages more for the process, numbered after its last one; a number in use adds none. */
  ghost predicate Extiende(c: Config, a: Vision, pid: nat, n: nat, m: Vision) {
    && TomaMarcos(a, m, pid, a.cuentas(pid), n)
    && forall k: Pagina :: ExtiendeEn(c, a, pid, n, m, k)
  }

  ghost predicate ExtiendeEn(c: Config, a: Vision, pid: nat, n: nat, m: Vision, k: Pagina) {
    && (k in a.paginas ==> k in m.paginas && m.paginas[k] == a.paginas[k])
    && (k !in a.paginas ==>
          (k in m.paginas <==> k.pid == pid && a.cuentas(pid) <= k.numero < a.cuentas(pid) + n))
    && (k !in a.paginas && k in m.paginas ==> EsNueva(c, m.paginas[k]))
  }

  /** The pages of a process just admitted hold its script; all other pages are as they were. */
  ghost predicate Admitido(c: Config, a: Memoria, pid: nat, trozos: seq<seq<Byte>>, cola: seq<Byte>, total: int,
                           b: Memoria) {
    forall k: Pagina :: AdmitidoEn(c, a, pid, trozos, cola, total, b, k)
  }

  predicate AdmitidoEn(c: Config, a: Memoria, pid: nat, trozos: seq<seq<Byte>>, cola: seq<Byte>, total: int, b: Memoria,
                       k: Pagina) {
    && (k in b <==> k in a || (k.pid == pid && 0 <= k.numero < total))
    && (k in a && !(k.pid == pid && 0 <= k.numero <= |trozos|) ==> b[k] == a[k])
    && (k in b && k.pid == pid && 0 <= k.numero < |trozos| ==> b[k] == trozos[k.numero])
    && (k == Pagina(pid, |trozos|) ==> k in b && |cola| <= |b[k]| && b[k][..|cola|] == cola)
  }

  /** A script is refused exactly when it needs more frames than are free. */
  ghost predicate NuevoAbs(c: Config, a: Vision, pid: nat, mensaje: seq<Byte>, pila: nat, n: int, b: Vision)
    requires c.ms > 0
  {
    var guion: seq<Byte> := mensaje + [0, 0];
    var total: int := PaginasDeGuion(|guion|, c.ms) + pila;
    if total > a.libres then n == -1 && b.paginas == a.paginas && MismosMarcos(a, b)
    else
      && n == total && TomaMarcos(a, b, pid, 0, total)
      && Admitido(c, a.paginas, pid, Trozos(guion, c.ms), Cola(guion, c.ms), total, b.paginas)
  }

  ghost predicate LeerAbs(a: Vision, k: Pagina, inicio: nat, largo: nat, d: Opcion<seq<Byte>>, b: Vision) {
    && b.paginas == a.paginas && MismosMarcos(a, b)
    && if k in a.paginas then inicio + largo <= |a.paginas[k]| && d == Heap.Algo(a.paginas[k][inicio..inicio + largo])
       else d == Heap.Nada
  }

  ghost predicate EscribirAbs(a: Vision, k: Pagina, off: nat, d: seq<Byte>, b: Vision) {
    && k in a.paginas && off + |d| <= |a.paginas[k]| && MismosMarcos(a, b)
    && b.paginas == a.paginas[k := Empalme(a.paginas[k], off, d)]
  }

  /** A page is refused exactly when no frame is free; its number is the count of the process. */
  ghost predicate PedirAbs(c: Config, a: Vision, pid: nat, n: int, b: Vision) {
    if a.libres == 0 then n == -1 && b.paginas == a.paginas && MismosMarcos(a, b)
    else n == a.cuentas(pid) && Extiende(c, a, pid, 1, b)
  }

  /** The first fit of page `k` takes the request. */
  predicate Toma(m: Memoria, k: Pagina, espacio: nat) {
    k in m && match Heap.Parsear(m[k]) {
      case Algo(bs) => Heap.Direccion(bs, espacio) != -1
      case Nada => false
    }
  }

  /** The request fits in a page the process has, from `desde` on. */
  ghost predicate CabeAbs(a: Vision, pid: nat, desde: nat, espacio: nat) {
    exists q :: desde <= q < a.cuentas(pid) && Toma(a.paginas, Pagina(pid, q), espacio)
  }

  /** How many pages a heap request adds. */
  ghost function AgregadasAbs(c: Config, a: Vision, pid: nat, desde: nat, espacio: nat): nat {
    if CabeAbs(a, pid, desde, espacio) then 0
    else if espacio + 2 * Heap.CAB <= c.ms && a.libres > 0 then 1
    else a.libres
  }

  /**
   * A heap request: the pages it adds are counted exactly, the page answered is the first that takes it or, when none
   * does, the last one, and the address is -1 exactly when it fits nowhere.
   */
  ghost predicate AsignarAbs(c: Config, a: Vision, pid: nat, desde: nat, espacio: nat, p: int, d: int, b: Vision) {
    exists m: Vision ::
      && Extiende(c, a, pid, AgregadasAbs(c, a, pid, desde, espacio), m)
      && AsignarEn(m, pid, desde, espacio, p, d, b)
      && (d == -1 <==>
            !CabeAbs(a, pid, desde, espacio) && (a.libres == 0 || espacio + 2 * Heap.CAB > c.ms))
  }

  ghost predicate AsignarEn(m: Vision, pid: nat, desde: nat, espacio: nat, p: int, d: int, b: Vision) {
    && desde <= p < m.cuentas(pid) && MismosMarcos(m, b)
    && (forall q :: desde <= q < p ==> !Toma(m.paginas, Pagina(pid, q), espacio))
    && (d == -1 ==> p == m.cuentas(pid) - 1)
    && AsignadoEn(m.paginas, Pagina(pid, p), espacio, d, b.paginas)
  }

  /** First fit in page `k`: its address, and the page with that block split. */
  ghost predicate AsignadoEn(m: Memoria, k: Pagina, espacio: nat, direccion: int, b: Memoria) {
    k in m && match Heap.Parsear(m[k]) {
      case Algo(bs) => direccion == Heap.Direccion(bs, espacio)
          && b == m[k := Heap.Codificar(Heap.Reservar(bs, espacio))]
      case Nada => false
    }
  }

  ghost predicate SoltarAbs(a: Vision, k: Pagina, dir: nat, b: Vision) {
    k in a.paginas && MismosMarcos(a, b) && match Heap.Parsear(a.paginas[k]) {
      case Algo(bs) =>
        && Heap.BloqueEn(bs, dir) < |bs|
        && b.paginas
           == a.paginas[k := Heap.Codificar(Heap.Compactar(Heap.Soltar(bs, Heap.BloqueEn(bs, dir))))]
      case Nada => false
    }
  }

  /** A page given back is gone unless a second frame carries its number. */
  ghost predicate DevolverAbs(a: Vision, k: Pagina, b: Vision) {
    && DevuelveMarco(a, b, k)
    && b.paginas - {k} == a.paginas - {k}
    && (k in b.paginas <==> a.veces(k) > 1)
  }

  ghost predicate PasoAbs(c: Config, a: Vision, o: Orden, resp: Respuesta, b: Vision)
    requires c.ms > 0
  {
    match o
    case Nuevo(pid, mensaje, pila) => resp.Numero? && NuevoAbs(c, a, pid, mensaje, pila, resp.numero, b)
    case Leer(pid, pagina, inicio, largo) => resp.Datos?
        && LeerAbs(a, Pagina(pid, pagina), inicio, largo, resp.datos, b)
    case Escribir(pid, pagina, off, datos) => resp.Hecho? && EscribirAbs(a, Pagina(pid, pagina), off, datos, b)
    case PedirPagina(pid) => resp.Numero? && PedirAbs(c, a, pid, resp.numero, b)
    case Asignar(pid, desde, espacio) =>
      resp.Puntero? && AsignarAbs(c, a, pid, desde, espacio, resp.pagina, resp.direccion, b)
    case Soltar(pid, pagina, dir) => resp.Hecho? && SoltarAbs(a, Pagina(pid, pagina), dir, b)
    case DevolverPagina(pid, pagina) => resp.Hecho? && DevolverAbs(a, Pagina(pid, pagina), b)
    case Vaciar => resp.Hecho? && b.paginas == a.paginas && MismosMarcos(a, b)
    case Terminar(pid) => resp.Hecho? && b.paginas == SinPid(a.paginas, pid) && DevuelveTodos(a, b, pid)
  }

  // ---- the plain machine leaves no answer open ----

  lemma NuevaDireccion(c: Config, pg: seq<Byte>, espacio: nat)
    requires EsNueva(c, pg)
    ensures Heap.Direccion(Heap.Parsear(pg).valor, espacio) == if espacio + 2 * Heap.CAB <= c.ms then Heap.CAB else -1
  {
    var bs := Heap.Parsear(pg).valor;
    assert c.ms >= Heap.CAB && |bs[0].datos| == c.ms - Heap.CAB by {
      BloqueUnico(c, pg);
    }
    hide Heap.Parsear;
    Heap.LugarCero(bs);
  }

  lemma BloqueUnico(c: Config, pg: seq<Byte>)
    requires EsNueva(c, pg)
    ensures c.ms == |Heap.Parsear(pg).valor[0].datos| + Heap.CAB
  {
  }

  /** Two ways of adding the same empty pages look the same to a request. */
  lemma TomanIgual(c: Config, a: Vision, pid: nat, n: nat, m: Vision, r: Vision, k: Pagina, espacio: nat)
    requires Extiende(c, a, pid, n, m) && Extiende(c, a, pid, n, r)
    ensures k in m.paginas <==> k in r.paginas
    ensures Toma(m.paginas, k, espacio) <==> Toma(r.paginas, k, espacio)
    ensures k in m.paginas && Heap.Parsear(m.paginas[k]).Algo? && Heap.Parsear(r.paginas[k]).Algo? ==>
      Heap.Direccion(Heap.Parsear(m.paginas[k]).valor, espacio)
      == Heap.Direccion(Heap.Parsear(r.paginas[k]).valor, espacio)
  {
    assert ExtiendeEn(c, a, pid, n, m, k) && ExtiendeEn(c, a, pid, n, r, k);
    if k !in a.paginas && k in m.paginas {
      NuevaDireccion(c, m.paginas[k], espacio);
      NuevaDireccion(c, r.paginas[k], espacio);
    }
    hide TomaMarcos, Heap.Parsear, Heap.Direccion;
  }

  lemma AsignarUnica(c: Config, a: Vision, pid: nat, desde: nat, espacio: nat, p: int, d: int, b: Vision,
                     q: int, f: int, g: Vision)
    requires AsignarAbs(c, a, pid, desde, espacio, p, d, b) && AsignarAbs(c, a, pid, desde, espacio, q, f, g)
    ensures p == q && d == f
  {
    hide Extiende, EsNueva, Heap.Parsear, Heap.Direccion, CabeAbs, AgregadasAbs, MismosMarcos;
    var n := AgregadasAbs(c, a, pid, desde, espacio);
    var m: Vision :| Extiende(c, a, pid, n, m) && AsignarEn(m, pid, desde, espacio, p, d, b);
    var r: Vision :| Extiende(c, a, pid, n, r) && AsignarEn(r, pid, desde, espacio, q, f, g);
    TomanIgual(c, a, pid, n, m, r, Pagina(pid, p), espacio);
    TomanIgual(c, a, pid, n, m, r, Pagina(pid, q), espacio);
    MismaCuenta(c, a, pid, n, m, r);
    if d != -1 {
      assert Toma(m.paginas, Pagina(pid, p), espacio) && Toma(r.paginas, Pagina(pid, q), espacio);
    }
  }

  lemma MismaCuenta(c: Config, a: Vision, pid: nat, n: nat, m: Vision, r: Vision)
    requires Extiende(c, a, pid, n, m) && Extiende(c, a, pid, n, r)
    ensures m.cuentas(pid) == r.cuentas(pid)
  {
  }

  /** The answer to a request follows from what the plain machine holds. */
  lemma RespuestaUnica(c: Config, a: Vision, o: Orden, x: Respuesta, b: Vision, y: Respuesta, d: Vision)
    requires c.ms > 0 && PasoAbs(c, a, o, x, b) && PasoAbs(c, a, o, y, d)
    ensures x == y
  {
    hide AsignarAbs, MismosMarcos, Admitido, Extiende, TomaMarcos;
    if o.Asignar? {
      AsignarUnica(c, a, o.pid, o.desde, o.espacio, x.pagina, x.direccion, b, y.pagina, y.direccion, d);
    }
  }

  // ---- one step refines one abstract step ----

  lemma VerEs(c: Config, e: Estado)
    requires Inv(c, e)
    ensures Ver(c, e).paginas == Abs(c, e) && Ver(c, e).libres == MarcosLibres(c, e)
    ensures forall p: nat :: Ver(c, e).cuentas(p) == Cuantas(c, e, p)
    ensures forall k: Pagina :: Ver(c, e).veces(k) == if k.pid >= 0 then VecesEn(c, e, k.pid, k.numero) else 0
  {
  }

  lemma VerPaginas(c: Config, e: Estado)
    requires Inv(c, e)
    ensures Ver(c, e).paginas == Abs(c, e)
  {
  }

  lemma EnClaves(t: seq<Entrada>, k: Pagina)
    requires k.pid >= 0
    ensures k in Claves(t) <==> Veces(t, k.pid, k.numero, |t|) > 0
  {
    VecesCero(t, k.pid, k.numero, |t|);
    if k in Claves(t) {
      var f :| 0 <= f < |t| && t[f].pid >= 0 && k == Pagina(t[f].pid, t[f].pagina);
      assert EsPagina(t, f, k.pid, k.numero);
    }
  }

  /** The pages of the map are those some frame holds. */
  lemma VerCoherente(c: Config, e: Estado)
    requires Inv(c, e)
    ensures Coherente(Ver(c, e))
  {
    var t := e.mapa.tabla;
    hide Acuerdo, Sana, Abs, Claves, Veces;
    forall k: Pagina
      ensures k in Ver(c, e).paginas <==> Ver(c, e).veces(k) > 0
    {
      AbsEn(c, e, k);
      ClaveMapeada(c, e, k);
      if k.pid >= 0 {
        EnClaves(t, k);
      }
    }
  }

  lemma MismaTabla(c: Config, e: Estado, r: Estado)
    requires Inv(c, e) && Inv(c, r) && r.mapa == e.mapa
    ensures MismosMarcos(Ver(c, e), Ver(c, r))
  {
    hide Inv, Abs;
  }

  lemma NuevoEn(c: Config, e: Estado, pid: nat, mensaje: seq<Byte>, pila: nat, k: Pagina)
    requires Inv(c, e) && Puede(c, e, Nuevo(pid, mensaje, pila))
    requires NuevoProceso(c, e, pid, mensaje, pila).1 != -1
    ensures var guion: seq<Byte> := mensaje + [0, 0];
            var (r, n, _) := NuevoProceso(c, e, pid, mensaje, pila);
            AdmitidoEn(c, Abs(c, e), pid, Trozos(guion, c.ms), Cola(guion, c.ms), n, Abs(c, r), k)
  {
    hide Inv, Abs, Elegidos, Admitir, CopiarGuion, Trozos, Cola, Contenido, Acuerdo, Sana;
    Forma(c, e);
    var guion: seq<Byte> := mensaje + [0, 0];
    var trozos, cola := Trozos(guion, c.ms), Cola(guion, c.ms);
    var (r, n, _) := NuevoProceso(c, e, pid, mensaje, pila);
    AdmitirMapea(c, e, pid, n);
    var e0 := Admitir(c, e, pid, n);
    AdmitirAbs(c, e, pid, n, k);
    AbsEn(c, e0, k);
    CopiarGuionAbs(c, e0, pid, trozos, cola, k);
    if k == Pagina(pid, |trozos|) {
    }
  }

  lemma NuevoCuentas(c: Config, e: Estado, pid: nat, mensaje: seq<Byte>, pila: nat, p: nat, q: int)
    requires Inv(c, e) && Puede(c, e, Nuevo(pid, mensaje, pila))
    requires NuevoProceso(c, e, pid, mensaje, pila).1 != -1
    ensures var (r, n, _) := NuevoProceso(c, e, pid, mensaje, pila);
      && MarcosLibres(c, r) == MarcosLibres(c, e) - n
      && Cuantas(c, r, p) == Cuantas(c, e, p) + (if p == pid then n else 0)
      && VecesEn(c, r, p, q) == VecesEn(c, e, p, q) + (if p == pid && 0 <= q < n then 1 else 0)
  {
    hide Acuerdo, Sana, CopiarGuion, Trozos, Cola, Colocar, Contenido, Libres, Paginas, Veces;
    var (r, n, _) := NuevoProceso(c, e, pid, mensaje, pila);
    ColocarCuentas(e.mapa, pid, 0, n, p, q);
    AdmitirMapea(c, e, pid, n);
    assert r.mapa == Colocar(e.mapa, pid, 0, n);
  }

  lemma NuevoMarcos(c: Config, e: Estado, pid: nat, mensaje: seq<Byte>, pila: nat)
    requires Inv(c, e) && Puede(c, e, Nuevo(pid, mensaje, pila))
    requires NuevoProceso(c, e, pid, mensaje, pila).1 != -1
    ensures var (r, n, _) := NuevoProceso(c, e, pid, mensaje, pila);
      TomaMarcos(Ver(c, e), Ver(c, r), pid, 0, n)
  {
    hide Inv, NuevoProceso, Ver, MarcosLibres, Cuantas, VecesEn;
    var (r, n, _) := NuevoProceso(c, e, pid, mensaje, pila);
    VerEs(c, e);
    VerEs(c, r);
    NuevoCuentas(c, e, pid, mensaje, pila, 0, 0);
    forall p: nat
      ensures Ver(c, r).cuentas(p) == Ver(c, e).cuentas(p) + (if p == pid then n else 0)
    {
      NuevoCuentas(c, e, pid, mensaje, pila, p, 0);
    }
    forall k: Pagina
      ensures Ver(c, r).veces(k) == Ver(c, e).veces(k) + (if k.pid == pid && 0 <= k.numero < 0 + n then 1 else 0)
    {
      if k.pid >= 0 {
        NuevoCuentas(c, e, pid, mensaje, pila, k.pid, k.numero);
      }
    }
  }

  lemma PasoNuevo(c: Config, e: Estado, pid: nat, mensaje: seq<Byte>, pila: nat)
    requires Inv(c, e) && Puede(c, e, Nuevo(pid, mensaje, pila))
    ensures var (r, n, _) := NuevoProceso(c, e, pid, mensaje, pila);
            c.ms > 0 && NuevoAbs(c, Ver(c, e), pid, mensaje, pila, n, Ver(c, r))
  {
    hide Acuerdo, Sana, Inv, Abs, Elegidos, Admitir, CopiarGuion, Trozos, Cola, AdmitidoEn, TomaMarcos;
    Forma(c, e);
    var guion: seq<Byte> := mensaje + [0, 0];
    var (r, n, _) := NuevoProceso(c, e, pid, mensaje, pila);
    if n != -1 {
      NuevoMarcos(c, e, pid, mensaje, pila);
      forall k: Pagina
        ensures AdmitidoEn(c, Abs(c, e), pid, Trozos(guion, c.ms), Cola(guion, c.ms), n, Abs(c, r), k)
      {
        NuevoEn(c, e, pid, mensaje, pila, k);
      }
    }
  }

  lemma TomaEs(c: Config, e: Estado, pid: nat, q: int, espacio: nat)
    requires Inv(c, e) && DeBloques(c, e, pid, q)
    ensures Toma(Abs(c, e), Pagina(pid, q), espacio) <==> Heap.Direccion(Bloques(c, e, pid, q), espacio) != -1
  {
    hide Inv, Abs, DeBloques, Bloques;
    BloquesEnAbs(c, e, pid, q);
  }

  lemma CabeEs(c: Config, e: Estado, pid: nat, pagina: nat, espacio: nat)
    requires Inv(c, e) && HeapContiguo(c, e, pid, pagina)
    ensures CabeAbs(Ver(c, e), pid, pagina, espacio) <==> CabeEnAlguna(c, e, pid, pagina, espacio)
    ensures AgregadasAbs(c, Ver(c, e), pid, pagina, espacio) == Agregadas(c, e, pid, pagina, espacio)
  {
    hide Inv, Ver, Abs, DeBloques, Bloques, Toma, MarcosLibres, Cuantas;
    VerEs(c, e);
    forall q | pagina <= q < Cuantas(c, e, pid)
      ensures DeBloques(c, e, pid, q)
      ensures Toma(Abs(c, e), Pagina(pid, q), espacio) <==> Heap.Direccion(Bloques(c, e, pid, q), espacio) != -1
    {
      TomaEs(c, e, pid, q, espacio);
    }
  }

  lemma VerEn(c: Config, e: Estado, p: nat, k: Pagina)
    requires Inv(c, e)
    ensures Ver(c, e).libres == MarcosLibres(c, e) && Ver(c, e).cuentas(p) == Cuantas(c, e, p)
    ensures Ver(c, e).veces(k) == if k.pid >= 0 then VecesEn(c, e, k.pid, k.numero) else 0
  {
    hide Inv, Ver;
    VerEs(c, e);
  }

  lemma BuscarTomaEn(c: Config, e: Estado, pid: nat, pagina: nat, espacio: nat, p: nat, k: Pagina)
    requires Inv(c, e) && HeapContiguo(c, e, pid, pagina)
    ensures var a, m := Ver(c, e), Ver(c, BuscarLugar(c, e, pid, pagina, espacio).0);
      var n := Agregadas(c, e, pid, pagina, espacio);
      && m.libres == a.libres - n
      && m.cuentas(p) == a.cuentas(p) + (if p == pid then n else 0)
      && m.veces(k) == a.veces(k)
           + (if k.pid == pid && a.cuentas(pid) <= k.numero < a.cuentas(pid) + n then 1 else 0)
  {
    var r := BuscarLugar(c, e, pid, pagina, espacio).0;
    VerEn(c, e, p, k);
    VerEn(c, e, pid, k);
    VerEn(c, r, p, k);
    hide Inv, HeapContiguo, BuscarLugar, Agregadas, Ver, MarcosLibres, Cuantas, VecesEn;
    BuscarLugarAgregadas(c, e, pid, pagina, espacio);
    BuscarLugarCuenta(c, e, pid, pagina, espacio);
    BuscarLugarCuentas(c, e, pid, pagina, espacio, p, 0);
    if k.pid >= 0 {
      BuscarLugarCuentas(c, e, pid, pagina, espacio, k.pid, k.numero);
    }
  }

  lemma BuscarToma(c: Config, e: Estado, pid: nat, pagina: nat, espacio: nat)
    requires Inv(c, e) && HeapContiguo(c, e, pid, pagina)
    ensures TomaMarcos(Ver(c, e), Ver(c, BuscarLugar(c, e, pid, pagina, espacio).0), pid, Ver(c, e).cuentas(pid),
                       Agregadas(c, e, pid, pagina, espacio))
  {
    hide Inv, HeapContiguo, BuscarLugar, Agregadas, Ver;
    forall p: nat, k: Pagina {
      BuscarTomaEn(c, e, pid, pagina, espacio, p, k);
    }
    BuscarTomaEn(c, e, pid, pagina, espacio, 0, Pagina(0, 0));
  }

  lemma BuscarExtiendeEn(c: Config, e: Estado, pid: nat, pagina: nat, espacio: nat, k: Pagina)
    requires Inv(c, e) && HeapContiguo(c, e, pid, pagina)
    ensures ExtiendeEn(c, Ver(c, e), pid, Agregadas(c, e, pid, pagina, espacio),
                       Ver(c, BuscarLugar(c, e, pid, pagina, espacio).0), k)
  {
    VerEs(c, e);
    hide Inv, HeapContiguo, BuscarLugar, Agregadas, Ver, Abs, MarcosLibres, Cuantas, VecesEn, EsNueva;
    VerEs(c, BuscarLugar(c, e, pid, pagina, espacio).0);
    BuscarLugarAgregadas(c, e, pid, pagina, espacio);
    BuscarLugarAbs(c, e, pid, pagina, espacio, k);
  }

  lemma BuscarExtiende(c: Config, e: Estado, pid: nat, pagina: nat, espacio: nat)
    requires Inv(c, e) && HeapContiguo(c, e, pid, pagina)
    ensures Extiende(c, Ver(c, e), pid, Agregadas(c, e, pid, pagina, espacio),
                     Ver(c, BuscarLugar(c, e, pid, pagina, espacio).0))
  {
    hide Inv, HeapContiguo, BuscarLugar, Agregadas, Ver, TomaMarcos, ExtiendeEn;
    BuscarToma(c, e, pid, pagina, espacio);
    forall k: Pagina
      ensures ExtiendeEn(c, Ver(c, e), pid, Agregadas(c, e, pid, pagina, espacio),
                         Ver(c, BuscarLugar(c, e, pid, pagina, espacio).0), k)
    {
      BuscarExtiendeEn(c, e, pid, pagina, espacio, k);
    }
  }

  lemma AlocarMarcos(c: Config, e: Estado, pid: nat, pagina: nat, espacio: nat)
    requires Inv(c, e) && HeapContiguo(c, e, pid, pagina)
    ensures MismosMarcos(Ver(c, BuscarLugar(c, e, pid, pagina, espacio).0),
                         Ver(c, Alocar(c, e, pid, pagina, espacio).0))
  {
    hide Inv, HeapContiguo, BuscarLugar, Publicar, DeBloques, Bloques;
    var e1, r := BuscarLugar(c, e, pid, pagina, espacio).0, Alocar(c, e, pid, pagina, espacio).0;
    assert r.mapa == e1.mapa;
    hide Alocar;
    MismaTabla(c, e1, r);
  }

  lemma PrimeraQueToma(c: Config, e: Estado, pid: nat, pagina: nat, espacio: nat, q: int)
    requires Inv(c, e) && HeapContiguo(c, e, pid, pagina)
    requires pagina <= q < BuscarLugar(c, e, pid, pagina, espacio).1
    ensures !Toma(Abs(c, BuscarLugar(c, e, pid, pagina, espacio).0), Pagina(pid, q), espacio)
  {
    hide Inv, HeapContiguo, BuscarLugar, DeBloques, Bloques, Toma, Abs;
    BuscarLugarPrimero(c, e, pid, pagina, espacio, q);
    TomaEs(c, BuscarLugar(c, e, pid, pagina, espacio).0, pid, q, espacio);
  }

  lemma AlocarAsignado(c: Config, e: Estado, pid: nat, pagina: nat, espacio: nat)
    requires Inv(c, e) && HeapContiguo(c, e, pid, pagina)
    ensures var e1 := BuscarLugar(c, e, pid, pagina, espacio).0;
      var (r, p, d) := Alocar(c, e, pid, pagina, espacio);
      && AsignadoEn(Abs(c, e1), Pagina(pid, p), espacio, d, Abs(c, r))
      && p == BuscarLugar(c, e, pid, pagina, espacio).1 && pagina <= p < Cuantas(c, e1, pid)
      && (d == -1 ==> p == Cuantas(c, e1, pid) - 1)
  {
    var (e1, p, d) := BuscarLugar(c, e, pid, pagina, espacio);
    hide Inv, BuscarLugar, Publicar, DeBloques, Bloques, Heap.Parsear, Abs, MarcosLibres;
    AlocarLogrado(c, e, pid, pagina, espacio);
    BloquesEnAbs(c, e1, pid, p);
    ContiguoPagina(c, e1, pid, p);
    hide HeapContiguo, Cuantas, Alocar;
  }

  lemma BuscarAsigna(c: Config, e: Estado, pid: nat, pagina: nat, espacio: nat)
    requires Inv(c, e) && HeapContiguo(c, e, pid, pagina)
    ensures var e1 := BuscarLugar(c, e, pid, pagina, espacio).0;
      var (r, p, d) := Alocar(c, e, pid, pagina, espacio);
      AsignarEn(Ver(c, e1), pid, pagina, espacio, p, d, Ver(c, r))
  {
    hide Inv, Ver, BuscarLugar, HeapContiguo, Toma, Abs, Cuantas, MarcosLibres, VecesEn, MismosMarcos, Alocar,
      AsignadoEn;
    var e1 := BuscarLugar(c, e, pid, pagina, espacio).0;
    var (r, p, d) := Alocar(c, e, pid, pagina, espacio);
    VerEn(c, e1, pid, Pagina(pid, 0));
    VerPaginas(c, e1);
    VerPaginas(c, r);
    AlocarMarcos(c, e, pid, pagina, espacio);
    AlocarAsignado(c, e, pid, pagina, espacio);
    forall q | pagina <= q < p
      ensures !Toma(Abs(c, e1), Pagina(pid, q), espacio)
    {
      PrimeraQueToma(c, e, pid, pagina, espacio, q);
    }
  }

  lemma PasoAsignar(c: Config, e: Estado, pid: nat, pagina: nat, espacio: nat)
    requires Inv(c, e) && HeapContiguo(c, e, pid, pagina)
    ensures var (r, p, d) := Alocar(c, e, pid, pagina, espacio);
            AsignarAbs(c, Ver(c, e), pid, pagina, espacio, p, d, Ver(c, r))
  {
    hide Inv, Ver, BuscarLugar, HeapContiguo, CabeAbs, AgregadasAbs, Extiende, AsignarEn, Alocar, CabeEnAlguna,
      Agregadas, MarcosLibres, Abs;
    VerEs(c, e);
    var m := Ver(c, BuscarLugar(c, e, pid, pagina, espacio).0);
    CabeEs(c, e, pid, pagina, espacio);
    BuscarExtiende(c, e, pid, pagina, espacio);
    BuscarAsigna(c, e, pid, pagina, espacio);
    AlocarFallido(c, e, pid, pagina, espacio);
  }

  lemma PasoSoltar(c: Config, e: Estado, pid: nat, pagina: int, dir: nat)
    requires Inv(c, e) && Puede(c, e, Soltar(pid, pagina, dir))
    ensures SoltarAbs(Ver(c, e), Pagina(pid, pagina), dir, Ver(c, Liberar(c, e, pid, pagina, dir)))
  {
    var r := Liberar(c, e, pid, pagina, dir);
    assert r.mapa == e.mapa;
    MismaTabla(c, e, r);
    VerEs(c, e);
    hide Inv, Abs, Ver, Liberar, DeBloques, Bloques, Heap.Parsear, MismosMarcos;
    VerEs(c, r);
    LiberarAbs(c, e, pid, pagina, dir);
    BloquesEnAbs(c, e, pid, pagina);
  }

  lemma AgregarMarcos(c: Config, e: Estado, f: nat, pid: nat, n: nat)
    requires Inv(c, e) && f < c.marcos && e.mapa.tabla[f].pid == LIBRE && Clave(pid, n)
    ensures TomaMarcos(Ver(c, e), Ver(c, AgregarPagina(c, e, f, pid, n)), pid, n, 1)
  {
    var r := AgregarPagina(c, e, f, pid, n);
    VerEs(c, e);
    hide Inv, Ver, AgregarPagina, MarcosLibres, Cuantas, VecesEn;
    VerEs(c, r);
    AgregarCuentas(c, e, f, pid, n, 0, 0);
    forall p: nat
      ensures Ver(c, r).cuentas(p) == Ver(c, e).cuentas(p) + (if p == pid then 1 else 0)
    {
      AgregarCuentas(c, e, f, pid, n, p, 0);
    }
    forall k: Pagina
      ensures Ver(c, r).veces(k) == Ver(c, e).veces(k) + (if k.pid == pid && n <= k.numero < n + 1 then 1 else 0)
    {
      if k.pid >= 0 {
        AgregarCuentas(c, e, f, pid, n, k.pid, k.numero);
      }
    }
  }

  lemma AgregarExtiendeEn(c: Config, e: Estado, f: nat, pid: nat, k: Pagina)
    requires Inv(c, e) && f < c.marcos && e.mapa.tabla[f].pid == LIBRE && Clave(pid, Cuantas(c, e, pid))
    ensures ExtiendeEn(c, Ver(c, e), pid, 1, Ver(c, AgregarPagina(c, e, f, pid, Cuantas(c, e, pid))), k)
  {
    var n := Cuantas(c, e, pid);
    hide Inv, Acuerdo, Sana, Clave, Ver, Abs, AgregarPagina, Heap.Parsear, Formateada, Cuantas, VecesEn, MarcosLibres;
    Forma(c, e);
    VerEn(c, e, pid, k);
    VerPaginas(c, e);
    VerPaginas(c, AgregarPagina(c, e, f, pid, n));
    AgregarPaginaAbs(c, e, f, pid, n);
    FormateadaEsUnBloque(c, e.paginas[f]);
  }

  lemma AgregarExtiende(c: Config, e: Estado, f: nat, pid: nat)
    requires Inv(c, e) && f < c.marcos && e.mapa.tabla[f].pid == LIBRE && Clave(pid, Cuantas(c, e, pid))
    ensures Extiende(c, Ver(c, e), pid, 1, Ver(c, AgregarPagina(c, e, f, pid, Cuantas(c, e, pid))))
  {
    VerEn(c, e, pid, Pagina(0, 0));
    AgregarMarcos(c, e, f, pid, Cuantas(c, e, pid));
    hide Inv, Ver, AgregarPagina, TomaMarcos, ExtiendeEn, Cuantas;
    forall k: Pagina {
      AgregarExtiendeEn(c, e, f, pid, k);
    }
  }

  lemma PasoPagina(c: Config, e: Estado, pid: nat)
    requires Inv(c, e) && Puede(c, e, PedirPagina(pid))
    ensures var (r, n) := NuevaPagina(c, e, pid);
            PedirAbs(c, Ver(c, e), pid, n, Ver(c, r))
  {
    Forma(c, e);
    hide Inv, Acuerdo, Sana, Abs, Ver, AgregarPagina, Clave, Extiende, Paginas, Libres;
    VerEs(c, e);
    if MarcosLibres(c, e) > 0 {
      AgregarExtiende(c, e, HuecoDePagina(e.mapa.tabla, pid, Cuantas(c, e, pid)), pid);
    }
  }

  lemma VaciarCuentas(c: Config, e: Estado, pid: int, pagina: int, p: nat, q: int)
    requires Inv(c, e) && Mapeada(c, e, pid, pagina)
    ensures var r := LiberarPagina(c, e, pid, pagina);
      && MarcosLibres(c, r) == MarcosLibres(c, e) + 1
      && Cuantas(c, r, p) == Cuantas(c, e, p) - (if p == pid then 1 else 0)
      && VecesEn(c, r, p, q) == VecesEn(c, e, p, q) - (if p == pid && q == pagina then 1 else 0)
  {
    var t, f := e.mapa.tabla, Marco(e.mapa, pid, pagina);
    MarcoUsuario(c, e, pid, pagina);
    CambiaUna(t, f, t[f].(pid := LIBRE, pagina := LIBRE), p, q, c.marcos);
    hide Acuerdo, Marco, Libres, Paginas, Veces, Sana, TablaProtegida;
  }

  lemma VaciarMarcos(c: Config, e: Estado, pid: int, pagina: int)
    requires Inv(c, e) && Mapeada(c, e, pid, pagina)
    ensures DevuelveMarco(Ver(c, e), Ver(c, LiberarPagina(c, e, pid, pagina)), Pagina(pid, pagina))
  {
    var r := LiberarPagina(c, e, pid, pagina);
    VerEs(c, e);
    hide Inv, Ver, LiberarPagina, MarcosLibres, Cuantas, VecesEn;
    VerEs(c, r);
    VaciarCuentas(c, e, pid, pagina, 0, 0);
    forall p: nat
      ensures Ver(c, r).cuentas(p) == Ver(c, e).cuentas(p) - (if p == pid then 1 else 0)
    {
      VaciarCuentas(c, e, pid, pagina, p, 0);
    }
    forall k: Pagina
      ensures Ver(c, r).veces(k) == Ver(c, e).veces(k) - (if k == Pagina(pid, pagina) then 1 else 0)
    {
      if k.pid >= 0 {
        VaciarCuentas(c, e, pid, pagina, k.pid, k.numero);
      }
    }
  }

  lemma PasoDevolver(c: Config, e: Estado, pid: nat, pagina: int)
    requires Inv(c, e) && Puede(c, e, DevolverPagina(pid, pagina))
    ensures DevolverAbs(Ver(c, e), Pagina(pid, pagina), Ver(c, LiberarPagina(c, e, pid, pagina)))
  {
    var r, k := LiberarPagina(c, e, pid, pagina), Pagina(pid, pagina);
    VaciarMarcos(c, e, pid, pagina);
    LiberarPaginaAbs(c, e, pid, pagina);
    VerCoherente(c, r);
    VerEs(c, e);
    hide Inv, Abs, Ver, LiberarPagina, Marco;
    VerEs(c, r);
  }

  lemma TerminarCuentas(c: Config, e: Estado, pid: nat, p: nat, q: int)
    requires Inv(c, e)
    ensures var r := FinalizarProceso(c, e, pid);
      && MarcosLibres(c, r) == MarcosLibres(c, e) + Cuantas(c, e, pid)
      && Cuantas(c, r, p) == (if p == pid then 0 else Cuantas(c, e, p))
      && VecesEn(c, r, p, q) == (if p == pid then 0 else VecesEn(c, e, p, q))
  {
    FinalizarTabla(e.mapa, pid, 0);
    Barrida(e.mapa.tabla, FinalizarProceso(c, e, pid).mapa.tabla, pid, p, q, c.marcos);
    hide Acuerdo, Libres, Paginas, Veces, Sana, TablaProtegida, Finalizar;
  }

  lemma TerminarMarcos(c: Config, e: Estado, pid: nat)
    requires Inv(c, e)
    ensures DevuelveTodos(Ver(c, e), Ver(c, FinalizarProceso(c, e, pid)), pid)
  {
    var r := FinalizarProceso(c, e, pid);
    VerEs(c, e);
    hide Inv, Ver, FinalizarProceso, MarcosLibres, Cuantas, VecesEn;
    VerEs(c, r);
    TerminarCuentas(c, e, pid, 0, 0);
    forall p: nat
      ensures Ver(c, r).cuentas(p) == if p == pid then 0 else Ver(c, e).cuentas(p)
    {
      TerminarCuentas(c, e, pid, p, 0);
    }
    forall k: Pagina
      ensures Ver(c, r).veces(k) == if k.pid == pid then 0 else Ver(c, e).veces(k)
    {
      if k.pid >= 0 {
        TerminarCuentas(c, e, pid, k.pid, k.numero);
      }
    }
  }

  lemma PasoLeer(c: Config, e: Estado, pid: nat, pagina: int, inicio: nat, largo: nat)
    requires Inv(c, e) && Clave(pid, pagina) && inicio + largo <= c.ms
    ensures var (r, d) := Lectura(c, e, pid, pagina, inicio, largo);
      Inv(c, r) && LeerAbs(Ver(c, e), Pagina(pid, pagina), inicio, largo, d, Ver(c, r))
  {
    LecturaTransparente(c, e, pid, pagina, inicio, largo);
    var r := Lectura(c, e, pid, pagina, inicio, largo).0;
    VerEs(c, e);
    VerEs(c, r);
    assert r.mapa == e.mapa by {
      hide Inv, Publicar, Mapeada;
    }
    hide Inv, Lectura, Abs, Ver, MismosMarcos;
    MismaTabla(c, e, r);
  }

  lemma PasoEscribir(c: Config, e: Estado, pid: nat, pagina: int, off: nat, datos: seq<Byte>)
    requires Inv(c, e) && Mapeada(c, e, pid, pagina) && off + |datos| <= c.ms
    ensures EscribirAbs(Ver(c, e), Pagina(pid, pagina), off, datos, Ver(c, Escritura(c, e, pid, pagina, off, datos)))
  {
    EscrituraTransparente(c, e, pid, pagina, off, datos);
    var r := Escritura(c, e, pid, pagina, off, datos);
    VerEs(c, e);
    hide Inv, Escritura, Abs, Ver, MismosMarcos, Publicar, Mapeada;
    VerEs(c, r);
    MismaTabla(c, e, r);
  }

  lemma PasoVaciar(c: Config, e: Estado)
    requires Inv(c, e)
    ensures Ver(c, Flush(c, e)).paginas == Ver(c, e).paginas && MismosMarcos(Ver(c, e), Ver(c, Flush(c, e)))
  {
    FlushAbs(c, e);
    VerEs(c, e);
    hide Inv, Abs, Ver, MismosMarcos;
    VerEs(c, Flush(c, e));
    MismaTabla(c, e, Flush(c, e));
  }

  lemma PasoTerminar(c: Config, e: Estado, pid: nat)
    requires Inv(c, e)
    ensures var r := FinalizarProceso(c, e, pid);
      Ver(c, r).paginas == SinPid(Ver(c, e).paginas, pid) && DevuelveTodos(Ver(c, e), Ver(c, r), pid)
  {
    FinalizarProcesoAbs(c, e, pid);
    VerEs(c, e);
    hide Inv, Abs, Ver, DevuelveTodos, FinalizarProceso, SinPid;
    VerEs(c, FinalizarProceso(c, e, pid));
    TerminarMarcos(c, e, pid);
  }

  /** The answer to a request and the state it leaves are a step of the plain machine. */
  ghost predicate Refina(c: Config, e: Estado, o: Orden)
    requires Inv(c, e) && Puede(c, e, o)
  {
    var (r, x) := Hacer(c, e, o);
    c.ms > 0 && PasoAbs(c, Ver(c, e), o, x, Ver(c, r))
  }

  // One lemma a request: its step is a step of the plain machine.

  lemma RefinaNuevo(c: Config, e: Estado, o: Orden)
    requires Inv(c, e) && Puede(c, e, o) && o.Nuevo?
    ensures Refina(c, e, o)
  {
    hide Inv, Acuerdo, Sana, Ver, NuevoProceso, NuevoAbs, Clave;
    Forma(c, e);
    PasoNuevo(c, e, o.pid, o.mensaje, o.pila);
  }

  lemma RefinaLeer(c: Config, e: Estado, o: Orden)
    requires Inv(c, e) && Puede(c, e, o) && o.Leer?
    ensures Refina(c, e, o)
  {
    hide Inv, Acuerdo, Sana, Ver, Lectura, LeerAbs, Clave, Mapeada;
    Forma(c, e);
    PasoLeer(c, e, o.pid, o.pagina, o.inicio, o.largo);
  }

  lemma RefinaEscribir(c: Config, e: Estado, o: Orden)
    requires Inv(c, e) && Puede(c, e, o) && o.Escribir?
    ensures Refina(c, e, o)
  {
    hide Inv, Acuerdo, Sana, Ver, Escritura, EscribirAbs, Mapeada;
    Forma(c, e);
    PasoEscribir(c, e, o.pid, o.pagina, o.off, o.datos);
  }

  lemma RefinaPedirPagina(c: Config, e: Estado, o: Orden)
    requires Inv(c, e) && Puede(c, e, o) && o.PedirPagina?
    ensures Refina(c, e, o)
  {
    hide Inv, Acuerdo, Sana, Ver, NuevaPagina, PedirAbs, Clave, Cuantas;
    Forma(c, e);
    PasoPagina(c, e, o.pid);
  }

  lemma RefinaAsignar(c: Config, e: Estado, o: Orden)
    requires Inv(c, e) && Puede(c, e, o) && o.Asignar?
    ensures Refina(c, e, o)
  {
    hide Inv, Acuerdo, Sana, Ver, Alocar, AsignarAbs, HeapContiguo;
    Forma(c, e);
    PasoAsignar(c, e, o.pid, o.desde, o.espacio);
  }

  lemma RefinaSoltar(c: Config, e: Estado, o: Orden)
    requires Inv(c, e) && Puede(c, e, o) && o.Soltar?
    ensures Refina(c, e, o)
  {
    hide Inv, Acuerdo, Sana, Ver, Liberar, SoltarAbs, DeBloques, Bloques, Heap.BloqueEn;
    Forma(c, e);
    PasoSoltar(c, e, o.pid, o.pagina, o.direccion);
  }

  lemma RefinaDevolverPagina(c: Config, e: Estado, o: Orden)
    requires Inv(c, e) && Puede(c, e, o) && o.DevolverPagina?
    ensures Refina(c, e, o)
  {
    hide Inv, Acuerdo, Sana, Ver, LiberarPagina, DevolverAbs, Mapeada;
    Forma(c, e);
    PasoDevolver(c, e, o.pid, o.pagina);
  }

  lemma RefinaVaciar(c: Config, e: Estado, o: Orden)
    requires Inv(c, e) && Puede(c, e, o) && o.Vaciar?
    ensures Refina(c, e, o)
  {
    hide Inv, Acuerdo, Sana, Ver, Flush, MismosMarcos;
    Forma(c, e);
    PasoVaciar(c, e);
  }

  lemma RefinaTerminar(c: Config, e: Estado, o: Orden)
    requires Inv(c, e) && Puede(c, e, o) && o.Terminar?
    ensures Refina(c, e, o)
  {
    hide Inv, Acuerdo, Sana, Ver, FinalizarProceso, SinPid, DevuelveTodos;
    Forma(c, e);
    PasoTerminar(c, e, o.pid);
  }

  /** Every request, answered from cache, index and memory, is a step of the plain machine. */
  lemma PasoRefina(c: Config, e: Estado, o: Orden)
    requires Inv(c, e) && Puede(c, e, o)
    ensures c.ms > 0 && PasoAbs(c, Ver(c, e), o, Hacer(c, e, o).1, Ver(c, Hacer(c, e, o).0))
  {
    hide Inv, Puede, Hacer, Ver, PasoAbs;
    match o
    case Nuevo(_, _, _) => RefinaNuevo(c, e, o);
    case Leer(_, _, _, _) => RefinaLeer(c, e, o);
    case Escribir(_, _, _, _) => RefinaEscribir(c, e, o);
    case PedirPagina(_) => RefinaPedirPagina(c, e, o);
    case Asignar(_, _, _) => RefinaAsignar(c, e, o);
    case Soltar(_, _, _) => RefinaSoltar(c, e, o);
    case DevolverPagina(_, _) => RefinaDevolverPagina(c, e, o);
    case Vaciar => RefinaVaciar(c, e, o);
    case Terminar(_) => RefinaTerminar(c, e, o);
  }
}
