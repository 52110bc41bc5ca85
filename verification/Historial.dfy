/** What whole runs of the kernel do, told by the messages alone. */
module Historial {
  import opened Listas
  import opened Planificador
  import opened Turnos

  // ---------------------------------------------------------------- what one message does

  /** The message takes `p` off its processor: its burst ends, it ends, or it blocks. */
  predicate Saca(k: Kernel, x: Mensaje, p: nat)
    requires Admisible(k, x)
  {
    match x
    case FinRafaga(fd) => ProcesoEn(k, fd) == p
    case Fin(fd) => ProcesoEn(k, fd) == p
    case Wait(fd, id, falla) => ProcesoEn(k, fd) == p && Bloquea(k, x)
    case _ => false
  }

  /** A wait that finds the value below one and whose process is received. */
  predicate Bloquea(k: Kernel, x: Mensaje)
    requires Admisible(k, x)
  {
    x.Wait? && Sem(k.semaforos, x.id).valor < 1 && !x.falla
  }

  /** A wait that is not cancelled. */
  predicate Cuenta(k: Kernel, x: Mensaje)
    requires Admisible(k, x)
  {
    x.Wait? && (Sem(k.semaforos, x.id).valor >= 1 || !x.falla)
  }

  /** The process memory is asked to load, if any. */
  function Cargado(k: Kernel, x: Mensaje): seq<nat> {
    if k.procesosActuales >= k.grado then []
    else if x.Script? then [k.pid + 1]
    else if x.Pasada? && |k.nuevos| > 0 then [k.nuevos[0].pid]
    else []
  }

  /** Memory answers 0 pages for `p`. */
  predicate CargaCero(k: Kernel, x: Mensaje, p: nat) {
    (x.Script? || x.Pasada?) && x.respuesta == 0 && Cargado(k, x) == [p]
  }

  /** Who enters the ready queue: a script loaded, a process whose burst ends, or one a signal wakes. */
  function Entran(k: Kernel, x: Mensaje): seq<nat>
    requires Admisible(k, x)
  {
    match x
    case Script(r) => if r > 0 then Cargado(k, x) else []
    case Pasada(r) => if r > 0 then Cargado(k, x) else []
    case FinRafaga(fd) => [ProcesoEn(k, fd)]
    case Signal(id) => Despierta(k, x)
    case _ => []
  }

  /** The process a signal wakes, if any. */
  function Despierta(k: Kernel, x: Mensaje): seq<nat>
    requires Admisible(k, x) && x.Signal?
  {
    var s := Sem(k.semaforos, x.id);
    if |s.cola| > 0 then [s.cola[0].pid] else []
  }

  /** The process a scheduler pass puts on a processor, if any. */
  function Despachado(k: Kernel, x: Mensaje): seq<nat> {
    if !x.Pasada? then [] else
      var e := Cargar(k, x.respuesta);
      if |e.listos| > 0 && CpuLibre(e.cpus, e.enEjecucion) < |e.cpus| then [e.listos[0].pid] else []
  }

  // ---------------------------------------------------------------- what a run has done

  /** Some message of the run took `p` off its processor. */
  ghost predicate Salio(grado: int, ss: seq<Semaforo>, xs: seq<Mensaje>, p: nat)
    requires SemaforosIniciales(ss) && Posible(grado, ss, xs)
  {
    if xs == [] then false else
      var n := |xs| - 1;
      Salio(grado, ss, xs[..n], p) || Saca(Correr(grado, ss, xs[..n]).0, xs[n], p)
  }

  /** The message that loaded `p` was answered 0 pages. */
  ghost predicate SinPaginas(grado: int, ss: seq<Semaforo>, xs: seq<Mensaje>, p: nat)
    requires SemaforosIniciales(ss) && Posible(grado, ss, xs)
  {
    if xs == [] then false else
      var n := |xs| - 1;
      SinPaginas(grado, ss, xs[..n], p) || CargaCero(Correr(grado, ss, xs[..n]).0, xs[n], p)
  }

  /** Everyone who entered the ready queue, in order. */
  ghost function Entradas(grado: int, ss: seq<Semaforo>, xs: seq<Mensaje>): seq<nat>
    requires SemaforosIniciales(ss) && Posible(grado, ss, xs)
  {
    if xs == [] then [] else
      var n := |xs| - 1;
      Entradas(grado, ss, xs[..n]) + Entran(Correr(grado, ss, xs[..n]).0, xs[n])
  }

  /** Everyone put on a processor, in order. */
  ghost function Despachos(grado: int, ss: seq<Semaforo>, xs: seq<Mensaje>): seq<nat>
    requires SemaforosIniciales(ss) && Posible(grado, ss, xs)
  {
    if xs == [] then [] else
      var n := |xs| - 1;
      Despachos(grado, ss, xs[..n]) + Despachado(Correr(grado, ss, xs[..n]).0, xs[n])
  }

  /** How many signals of `id` there are. */
  function Seniales(xs: seq<Mensaje>, id: string): nat {
    if xs == [] then 0 else
      var n := |xs| - 1;
      Seniales(xs[..n], id) + if xs[n] == Signal(id) then 1 else 0
  }

  /** How many waits on `id` were not cancelled. */
  ghost function Esperas(grado: int, ss: seq<Semaforo>, xs: seq<Mensaje>, id: string): nat
    requires SemaforosIniciales(ss) && Posible(grado, ss, xs)
  {
    if xs == [] then 0 else
      var n := |xs| - 1;
      Esperas(grado, ss, xs[..n], id)
      + if xs[n].Wait? && xs[n].id == id && Cuenta(Correr(grado, ss, xs[..n]).0, xs[n]) then 1 else 0
  }

  /** Everyone who blocked at `id`, in order. */
  ghost function Bloqueados(grado: int, ss: seq<Semaforo>, xs: seq<Mensaje>, id: string): seq<nat>
    requires SemaforosIniciales(ss) && Posible(grado, ss, xs)
  {
    if xs == [] then [] else
      var n := |xs| - 1;
      var k, x := Correr(grado, ss, xs[..n]).0, xs[n];
      Bloqueados(grado, ss, xs[..n], id) + if x.Wait? && x.id == id && Bloquea(k, x) then [ProcesoEn(k, x.fd)] else []
  }

  /** Everyone a signal of `id` woke, in order. */
  ghost function Despertados(grado: int, ss: seq<Semaforo>, xs: seq<Mensaje>, id: string): seq<nat>
    requires SemaforosIniciales(ss) && Posible(grado, ss, xs)
  {
    if xs == [] then [] else
      var n := |xs| - 1;
      Despertados(grado, ss, xs[..n], id)
      + if xs[n] == Signal(id) then Despierta(Correr(grado, ss, xs[..n]).0, xs[n]) else []
  }

  // ---------------------------------------------------------------- the marks of a run are its history

  lemma PasoVolvieron(k: Kernel, m: Marca, x: Mensaje, p: nat)
    requires Inv(k, m) && Admisible(k, x)
    ensures p in Anotar(k, m, x).volvieron <==> p in m.volvieron || Saca(k, x, p)
  {
    hide Inv, IndiceCpu, IndiceSem;
  }

  lemma PasoFila(k: Kernel, m: Marca, x: Mensaje)
    requires Inv(k, m) && Admisible(k, x)
    ensures Anotar(k, m, x).fila.turnos == m.fila.turnos + Entran(k, x)
    ensures Anotar(k, m, x).fila.despachados == m.fila.despachados + Despachado(k, x)
  {
    hide Inv, IndiceCpu, IndiceSem;
  }

  lemma PasoHistoria(k: Kernel, m: Marca, x: Mensaje, id: string)
    requires Inv(k, m) && Admisible(k, x) && id in m.historia
    ensures id in Anotar(k, m, x).historia
    ensures var h, r := m.historia[id], Anotar(k, m, x).historia[id];
      && r.inicial == h.inicial
      && r.esperas == h.esperas + (if x.Wait? && x.id == id && Cuenta(k, x) then 1 else 0)
      && r.seniales == h.seniales + (if x == Signal(id) then 1 else 0)
      && r.bloqueados == h.bloqueados + (if x.Wait? && x.id == id && Bloquea(k, x) then [ProcesoEn(k, x.fd)] else [])
      && r.despertados == h.despertados + (if x == Signal(id) then Despierta(k, x) else [])
  {
    hide Inv, IndiceCpu, IndiceSem;
  }

  lemma MismosSemaforos(k: Kernel, m: Marca, x: Mensaje)
    requires Inv(k, m) && Admisible(k, x)
    ensures Anotar(k, m, x).historia.Keys == m.historia.Keys
  {
    hide Inv, IndiceCpu, IndiceSem, Vive;
    if x.Wait? {
      SemEra(k, m, x.id);
    } else if x.Signal? {
      SemEra(k, m, x.id);
    }
  }

  /** No message adds a semaphore or takes one away. */
  lemma PasoExiste(k: Kernel, m: Marca, x: Mensaje, id: string)
    requires Inv(k, m) && Admisible(k, x) && Terminable(k, x)
    ensures ExisteSem(Atender(k, x).semaforos, id) <==> ExisteSem(k.semaforos, id)
  {
    hide Inv, IndiceCpu, IndiceSem, CambiarSem, Quitar, SinProceso, CpuLibre;
    if x.Wait? {
      SemEra(k, m, x.id);
      var s := Sem(k.semaforos, x.id);
      EsperarForma(k, x.fd, x.id, x.falla);
      ExisteCambia(k.semaforos, s.(valor := s.valor - 1), id);
      ExisteCambia(k.semaforos, s, id);
      ExisteCambia(k.semaforos, s.(valor := s.valor - 1, cola := s.cola + [Ref(ProcesoEn(k, x.fd), false)]), id);
      hide Esperar;
    } else if x.Signal? {
      SemEra(k, m, x.id);
      var s := Sem(k.semaforos, x.id);
      ExisteCambia(k.semaforos, s.(valor := s.valor + 1), id);
      ExisteCambia(k.semaforos, s.(valor := s.valor + 1, cola := if s.cola == [] then [] else s.cola[1..]), id);
    }
  }

  predicate EsPerdido(m: Marca, p: nat) {
    p in m.lugar && m.lugar[p] == Perdido
  }

  lemma PerdidoAdmitir(k: Kernel, m: Marca, r: int, p: nat)
    requires Inv(k, m)
    ensures EsPerdido(MarcaAdmitir(k, m, r), p) <==> EsPerdido(m, p) || CargaCero(k, Script(r), p)
  {
    assert k.pid + 1 !in m.lugar;
    hide Inv;
  }

  lemma PerdidoCargar(k: Kernel, m: Marca, r: int, p: nat)
    requires Inv(k, m)
    ensures EsPerdido(MarcaCargar(k, m, r), p) <==> EsPerdido(m, p) || CargaCero(k, Pasada(r), p)
  {
    if |k.nuevos| > 0 {
      DeLista(k.nuevos, m.lugar, EnNuevos);
    }
    hide Inv;
  }

  lemma DeLista(s: seq<Ref>, lugar: map<nat, Lugar>, l: Lugar)
    requires Lista(s, lugar, l) && s != []
    ensures s[0].pid in lugar && lugar[s[0].pid] == l
  {
    assert Pids(s)[0] == s[0].pid;
  }

  lemma PerdidoDespachar(k: Kernel, m: Marca, p: nat)
    requires Inv(k, m)
    ensures EsPerdido(MarcaDespachar(k, m), p) <==> EsPerdido(m, p)
  {
    if |k.listos| > 0 {
      DeLista(k.listos, m.lugar, EnListos);
    }
    hide Inv;
  }

  lemma PerdidoVuelve(k: Kernel, m: Marca, fd: int, l: Lugar, p: nat)
    requires Inv(k, m) && Ejecuta(k, fd) && l != Perdido
    ensures EsPerdido(MarcaVuelve(k, m, fd, l), p) <==> EsPerdido(m, p)
  {
    CpuDelProceso(k, m, fd);
    hide Inv, IndiceCpu;
  }

  lemma CpuDelProceso(k: Kernel, m: Marca, fd: int)
    requires Inv(k, m) && Ejecuta(k, fd)
    ensures ProcesoEn(k, fd) in m.lugar && m.lugar[ProcesoEn(k, fd)] == EnCpu(fd)
  {
    assert CpuBien(k.cpus[IndiceCpu(k.cpus, fd)], k.enEjecucion, m.lugar);
  }

  lemma PerdidoAvisar(k: Kernel, m: Marca, id: string, p: nat)
    requires Inv(k, m) && ExisteSem(k.semaforos, id)
    ensures id in m.historia && (EsPerdido(MarcaAvisar(k, m, id), p) <==> EsPerdido(m, p))
  {
    SemEra(k, m, id);
    var s := Sem(k.semaforos, id);
    assert s in k.semaforos && Lista(s.cola, m.lugar, EnCola(s.id));
    if s.cola != [] {
      DeLista(s.cola, m.lugar, EnCola(s.id));
    }
    hide Inv, IndiceSem;
  }

  /** Only an answer of 0 pages leaves a process in no place. */
  lemma PasoPerdido(k: Kernel, m: Marca, x: Mensaje, p: nat)
    requires Inv(k, m) && Admisible(k, x)
    ensures EsPerdido(Anotar(k, m, x), p) <==> EsPerdido(m, p) || CargaCero(k, x, p)
  {
    hide Inv, IndiceCpu, IndiceSem, EsPerdido, MarcaAdmitir, MarcaCargar, MarcaDespachar, MarcaVuelve, MarcaAvisar,
      Cargar, Vive;
    match x
    case Script(r) => PerdidoAdmitir(k, m, r, p);
    case Pasada(r) =>
      CargarInv(k, m, r);
      PerdidoCargar(k, m, r, p);
      PerdidoDespachar(Cargar(k, r), MarcaCargar(k, m, r), p);
    case FinRafaga(fd) => PerdidoVuelve(k, m, fd, EnListos, p);
    case Wait(fd, id, falla) =>
      PerdidoVuelve(k, m, fd, EnCola(id), p);
      SoloHistoria(k, m, x, p);
    case Signal(id) => PerdidoAvisar(k, m, id, p);
    case Fin(fd) => PerdidoVuelve(k, m, fd, EnSalida, p);
    case NuevaCpu(fd) =>
  }

  lemma SoloHistoria(k: Kernel, m: Marca, x: Mensaje, p: nat)
    requires Inv(k, m) && Admisible(k, x) && x.Wait?
    ensures EsPerdido(Anotar(k, m, x), p)
       <==> EsPerdido(if Bloquea(k, x) then MarcaVuelve(k, m, x.fd, EnCola(x.id)) else m, p)
  {
    hide Inv, IndiceCpu, IndiceSem, Vive, MarcaVuelve;
  }

  lemma {:induction false} MarcaDeProceso(grado: int, ss: seq<Semaforo>, xs: seq<Mensaje>, p: nat)
    requires SemaforosIniciales(ss) && Posible(grado, ss, xs)
    ensures p in Correr(grado, ss, xs).1.volvieron <==> Salio(grado, ss, xs, p)
    ensures EsPerdido(Correr(grado, ss, xs).1, p) <==> SinPaginas(grado, ss, xs, p)
  {
    hide Inv, Anotar, Atender, EsPerdido, Saca, CargaCero, MarcaInicial;
    if xs == [] {
      MarcaVacia(ss);
      NadiePerdido(MarcaInicial(ss), p);
    } else {
      var n := |xs| - 1;
      CorridaInv(grado, ss, xs[..n]);
      MarcaDeProceso(grado, ss, xs[..n], p);
      var (k, m) := Correr(grado, ss, xs[..n]);
      PasoVolvieron(k, m, xs[n], p);
      PasoPerdido(k, m, xs[n], p);
    }
  }

  lemma NadiePerdido(m: Marca, p: nat)
    requires m.lugar == map[]
    ensures !EsPerdido(m, p)
  {
  }

  lemma {:induction false} MarcaDeFila(grado: int, ss: seq<Semaforo>, xs: seq<Mensaje>)
    requires SemaforosIniciales(ss) && Posible(grado, ss, xs)
    ensures Correr(grado, ss, xs).1.fila == Fila(Entradas(grado, ss, xs), Despachos(grado, ss, xs))
  {
    hide Inv, Anotar, Atender, Entran, Despachado, MarcaInicial;
    if xs == [] {
      MarcaVacia(ss);
    } else {
      var n := |xs| - 1;
      CorridaInv(grado, ss, xs[..n]);
      MarcaDeFila(grado, ss, xs[..n]);
      var (k, m) := Correr(grado, ss, xs[..n]);
      PasoFila(k, m, xs[n]);
    }
  }

  /** What the messages of a run say of a semaphore. */
  ghost function Vida(grado: int, ss: seq<Semaforo>, xs: seq<Mensaje>, id: string): Historia
    requires SemaforosIniciales(ss) && Posible(grado, ss, xs) && ExisteSem(ss, id)
  {
    Historia(Sem(ss, id).valor, Esperas(grado, ss, xs, id), Seniales(xs, id), Bloqueados(grado, ss, xs, id),
             Despertados(grado, ss, xs, id))
  }

  lemma VidaInicial(ss: seq<Semaforo>, id: string)
    requires SemaforosIniciales(ss)
    ensures id in MarcaInicial(ss).historia <==> ExisteSem(ss, id)
    ensures ExisteSem(ss, id) ==> MarcaInicial(ss).historia[id] == Historia(Sem(ss, id).valor, 0, 0, [], [])
  {
    var h := MarcaInicial(ss).historia;
    SemsIniciales(ss);
    if id in h {
      var s :| s in ss && s.id == id;
      SemDe(ss, s);
    }
    if ExisteSem(ss, id) {
      var s := Sem(ss, id);
      assert s in ss && s.id == id;
      forall t | t in ss && t.id == id
        ensures t == s
      {
        SemDe(ss, t);
      }
    }
  }

  lemma {:induction false} MarcaDeSemaforo(grado: int, ss: seq<Semaforo>, xs: seq<Mensaje>, id: string)
    requires SemaforosIniciales(ss) && Posible(grado, ss, xs)
    ensures ExisteSem(Correr(grado, ss, xs).0.semaforos, id) <==> ExisteSem(ss, id)
    ensures id in Correr(grado, ss, xs).1.historia <==> ExisteSem(ss, id)
    ensures ExisteSem(ss, id) ==> Correr(grado, ss, xs).1.historia[id] == Vida(grado, ss, xs, id)
  {
    hide Inv, Anotar, Atender, Bloquea, Cuenta, Despierta, MarcaInicial, ExisteSem, Sem;
    if xs == [] {
      VidaInicial(ss, id);
    } else {
      var n := |xs| - 1;
      CorridaInv(grado, ss, xs[..n]);
      MarcaDeSemaforo(grado, ss, xs[..n], id);
      var (k, m) := Correr(grado, ss, xs[..n]);
      AtenderInv(k, m, xs[n]);
      PasoExiste(k, m, xs[n], id);
      MismosSemaforos(k, m, xs[n]);
      if id in m.historia {
        PasoHistoria(k, m, xs[n], id);
      }
    }
  }

  // ---------------------------------------------------------------- where every process is

  /** Process `p` is in place `l`, as the kernel's own lists tell. */
  predicate Esta(k: Kernel, p: nat, l: Lugar) {
    match l
    case EnNuevos => p in Pids(k.nuevos)
    case EnListos => p in Pids(k.listos)
    case EnCpu(fd) => fd in k.enEjecucion && CpuDe(k.cpus, fd, p)
    case EnCola(id) => ExisteSem(k.semaforos, id) && p in Pids(Sem(k.semaforos, id).cola)
    case EnSalida => p in Pids(k.salida)
    case Perdido => false
  }

  lemma EstaSii(k: Kernel, m: Marca, p: nat, l: Lugar)
    requires Inv(k, m) && l != Perdido
    ensures Esta(k, p, l) <==> p in m.lugar && m.lugar[p] == l
  {
  }

  /** Some place other than none. */
  ghost predicate EnAlguno(k: Kernel, p: nat) {
    exists l :: l != Perdido && Esta(k, p, l)
  }

  /**
   * After any run every process created so far is in exactly one place, except those whose loading memory answered 0
   * pages, which are in none; and no queue holds a process twice.
   */
  lemma UnSoloLugar(grado: int, ss: seq<Semaforo>, xs: seq<Mensaje>, p: nat)
    requires SemaforosIniciales(ss) && Posible(grado, ss, xs)
    ensures var (k, m) := Correr(grado, ss, xs);
      && (p in m.lugar <==> 1 <= p <= k.pid)
      && (forall l :: l != Perdido ==> (Esta(k, p, l) <==> p in m.lugar && m.lugar[p] == l))
      && (forall a, b :: Esta(k, p, a) && Esta(k, p, b) ==> a == b)
      && (EnAlguno(k, p) <==> 1 <= p <= k.pid && !SinPaginas(grado, ss, xs, p))
      && (SinPaginas(grado, ss, xs, p) ==> 1 <= p <= k.pid)
      && SinRepetidos(Pids(k.nuevos)) && SinRepetidos(Pids(k.listos)) && SinRepetidos(Pids(k.salida))
      && SinRepetidos(k.enEjecucion)
      && forall s :: s in k.semaforos ==> SinRepetidos(Pids(s.cola))
  {
    hide Correr, Inv, Esta, Pids, EnAlguno, EsPerdido;
    CorridaInv(grado, ss, xs);
    MarcaDeProceso(grado, ss, xs, p);
    var (k, m) := Correr(grado, ss, xs);
    ColasSinRepetir(k, m);
    SoloCreados(k, m, p);
    forall l
      ensures l != Perdido ==> (Esta(k, p, l) <==> p in m.lugar && m.lugar[p] == l)
      ensures l == Perdido ==> !Esta(k, p, l)
    {
      if l != Perdido {
        EstaSii(k, m, p, l);
      } else {
        EnNinguno(k, p);
      }
    }
    AlgunoSii(k, m, p);
  }

  lemma AlgunoSii(k: Kernel, m: Marca, p: nat)
    requires Inv(k, m)
    ensures EnAlguno(k, p) <==> p in m.lugar && !EsPerdido(m, p)
    ensures EsPerdido(m, p) ==> p in m.lugar
  {
    hide Inv, Esta;
    if EnAlguno(k, p) {
      var l :| l != Perdido && Esta(k, p, l);
      EstaSii(k, m, p, l);
    }
    if p in m.lugar && !EsPerdido(m, p) {
      EstaSii(k, m, p, m.lugar[p]);
    }
  }

  lemma EnNinguno(k: Kernel, p: nat)
    ensures !Esta(k, p, Perdido)
  {
  }

  lemma SoloCreados(k: Kernel, m: Marca, p: nat)
    requires Inv(k, m)
    ensures p in m.lugar <==> 1 <= p <= k.pid
  {
  }

  lemma ColasSinRepetir(k: Kernel, m: Marca)
    requires Inv(k, m)
    ensures SinRepetidos(Pids(k.nuevos)) && SinRepetidos(Pids(k.listos)) && SinRepetidos(Pids(k.salida))
    ensures SinRepetidos(k.enEjecucion) && forall s :: s in k.semaforos ==> SinRepetidos(Pids(s.cola))
  {
    hide Pids, SinRepetidos, SemsBien, EstadosBien, IndiceCpu;
    forall s | s in k.semaforos
      ensures SinRepetidos(Pids(s.cola))
    {
      assert Lista(s.cola, m.lugar, EnCola(s.id));
    }
  }

  // ---------------------------------------------------------------- queues and semaphores

  /**
   * After any run, at every semaphore: blocked processes are as many as the value is below zero; processes wake in the
   * order they blocked; and the waits completed never exceed the configured value plus the signals, and match it while
   * anyone is blocked.
   */
  lemma Semaforos(grado: int, ss: seq<Semaforo>, xs: seq<Mensaje>, id: string)
    requires SemaforosIniciales(ss) && Posible(grado, ss, xs)
    ensures ExisteSem(Correr(grado, ss, xs).0.semaforos, id) <==> ExisteSem(ss, id)
    ensures ExisteSem(ss, id) ==>
      var k := Correr(grado, ss, xs).0;
      var s, inicial := Sem(k.semaforos, id), Sem(ss, id).valor;
      var completos := Esperas(grado, ss, xs, id) - |s.cola|;
      && s.valor == inicial - Esperas(grado, ss, xs, id) + Seniales(xs, id)
      && |s.cola| == (if s.valor < 0 then -s.valor else 0)
      && Bloqueados(grado, ss, xs, id) == Despertados(grado, ss, xs, id) + Pids(s.cola)
      && completos <= inicial + Seniales(xs, id)
      && (s.cola != [] ==> completos == inicial + Seniales(xs, id))
  {
    hide Correr, Inv, ExisteSem, Sem, Esperas, Seniales, Bloqueados, Despertados;
    CorridaInv(grado, ss, xs);
    var (k, m) := Correr(grado, ss, xs);
    MarcaDeSemaforo(grado, ss, xs, id);
    if ExisteSem(ss, id) {
      SemEra(k, m, id);
    }
  }

  /** After any run the ready queue has served processes in the order they entered it. */
  lemma OrdenDeLlegada(grado: int, ss: seq<Semaforo>, xs: seq<Mensaje>)
    requires SemaforosIniciales(ss) && Posible(grado, ss, xs)
    ensures Entradas(grado, ss, xs) == Despachos(grado, ss, xs) + Pids(Correr(grado, ss, xs).0.listos)
  {
    hide Correr, Entradas, Despachos;
    CorridaInv(grado, ss, xs);
    MarcaDeFila(grado, ss, xs);
  }

  // ---------------------------------------------------------------- the state shown of a running process

  /**
   * The process list shows a running process as executing exactly when no message of the run took it off a processor;
   * from its second stay on it shows as ready.
   */
  lemma EstadoEnCpu(grado: int, ss: seq<Semaforo>, xs: seq<Mensaje>, p: nat, fd: int)
    requires SemaforosIniciales(ss) && Posible(grado, ss, xs) && Esta(Correr(grado, ss, xs).0, p, EnCpu(fd))
    ensures var k := Correr(grado, ss, xs).0;
      && p in k.estados && k.estados[p] in {Exec, Ready}
      && (k.estados[p] == Exec <==> !Salio(grado, ss, xs, p))
  {
    hide Correr, Inv, Esta, Salio;
    CorridaInv(grado, ss, xs);
    MarcaDeProceso(grado, ss, xs, p);
    var (k, m) := Correr(grado, ss, xs);
    EstaSii(k, m, p, EnCpu(fd));
    EstadosDe(k, m, p);
  }

  lemma EstadosDe(k: Kernel, m: Marca, p: nat)
    requires Inv(k, m) && p in m.lugar
    ensures p in k.estados && k.estados[p] == EstadoDe(m.lugar[p], p in m.volvieron)
  {
  }

  // ---------------------------------------------------------------- new scripts, processors and the exit queue

  /** The process of a script that finds the degree reached. */
  function Espera(k: Kernel, x: Mensaje): seq<nat> {
    if x.Script? && k.procesosActuales >= k.grado then [k.pid + 1] else []
  }

  /** The process a scheduler pass asks memory to load, if any. */
  function CargadoPorPasada(k: Kernel, x: Mensaje): seq<nat> {
    if x.Pasada? then Cargado(k, x) else []
  }

  /** Who goes to the exit queue: a process memory refuses, or one that ends. */
  function Salen(k: Kernel, x: Mensaje): seq<nat>
    requires Admisible(k, x)
  {
    match x
    case Script(r) => if r < 0 then Cargado(k, x) else []
    case Pasada(r) => if r < 0 then Cargado(k, x) else []
    case Fin(fd) => [ProcesoEn(k, fd)]
    case _ => []
  }

  /** The sockets of the processors. */
  function Fds(cs: seq<Conexion>): (r: seq<int>)
    ensures |r| == |cs| && forall i :: 0 <= i < |cs| ==> r[i] == cs[i].fd
  {
    seq(|cs|, i requires 0 <= i < |cs| => cs[i].fd)
  }

  /** The processes of the scripts that had to wait, in order. */
  ghost function Esperaron(grado: int, ss: seq<Semaforo>, xs: seq<Mensaje>): seq<nat>
    requires SemaforosIniciales(ss) && Posible(grado, ss, xs)
  {
    if xs == [] then [] else
      var n := |xs| - 1;
      Esperaron(grado, ss, xs[..n]) + Espera(Correr(grado, ss, xs[..n]).0, xs[n])
  }

  /** Those that passes of the scheduler asked memory to load, in order. */
  ghost function CargadosPorPasadas(grado: int, ss: seq<Semaforo>, xs: seq<Mensaje>): seq<nat>
    requires SemaforosIniciales(ss) && Posible(grado, ss, xs)
  {
    if xs == [] then [] else
      var n := |xs| - 1;
      CargadosPorPasadas(grado, ss, xs[..n]) + CargadoPorPasada(Correr(grado, ss, xs[..n]).0, xs[n])
  }

  /** Everyone who went to the exit queue, in order. */
  ghost function Salidas(grado: int, ss: seq<Semaforo>, xs: seq<Mensaje>): seq<nat>
    requires SemaforosIniciales(ss) && Posible(grado, ss, xs)
  {
    if xs == [] then [] else
      var n := |xs| - 1;
      Salidas(grado, ss, xs[..n]) + Salen(Correr(grado, ss, xs[..n]).0, xs[n])
  }

  /** The sockets of the processors that arrived, in order. */
  function Conectados(xs: seq<Mensaje>): seq<int> {
    if xs == [] then [] else
      var n := |xs| - 1;
      Conectados(xs[..n]) + if xs[n].NuevaCpu? then [xs[n].fd] else []
  }

  /** How many scripts arrived. */
  function Scripts(xs: seq<Mensaje>): nat {
    if xs == [] then 0 else
      var n := |xs| - 1;
      Scripts(xs[..n]) + if xs[n].Script? then 1 else 0
  }

  predicate Creciente(s: seq<nat>) {
    forall i, j :: 0 <= i < j < |s| ==> s[i] < s[j]
  }

  lemma PasoNuevos(k: Kernel, x: Mensaje)
    requires Admisible(k, x) && Terminable(k, x)
    ensures var r := Atender(k, x);
      && Pids(k.nuevos) + Espera(k, x) == CargadoPorPasada(k, x) + Pids(r.nuevos)
      && r.pid == k.pid + (if x.Script? then 1 else 0)
  {
    hide Atender, Admisible, Pids;
    if x.Script? {
      NuevosDeScript(k, x.respuesta);
    } else if x.Pasada? {
      NuevosDePasada(k, x.respuesta);
    } else {
      MismosNuevos(k, x);
    }
  }

  lemma NuevosDeScript(k: Kernel, r: int)
    ensures var x := Script(r);
      && Pids(k.nuevos) + Espera(k, x) == CargadoPorPasada(k, x) + Pids(Atender(k, x).nuevos)
      && Atender(k, x).pid == k.pid + 1
  {
  }

  lemma NuevosDePasada(k: Kernel, r: int)
    ensures var x := Pasada(r);
      && Pids(k.nuevos) + Espera(k, x) == CargadoPorPasada(k, x) + Pids(Atender(k, x).nuevos)
      && Atender(k, x).pid == k.pid
  {
    hide Pids, Cargar, Despachar;
    DespacharNuevos(Cargar(k, r));
    CargarNuevos(k, r);
    var n := Pids(k.nuevos);
    assert n + [] == n == [] + n;
  }

  lemma DespacharNuevos(k: Kernel)
    ensures Despachar(k).nuevos == k.nuevos && Despachar(k).pid == k.pid
  {
    hide CpuLibre;
  }

  lemma CargarNuevos(k: Kernel, r: int)
    ensures Cargar(k, r).pid == k.pid
    ensures Pids(k.nuevos) == Cargado(k, Pasada(r)) + Pids(Cargar(k, r).nuevos)
  {
    if |k.nuevos| > 0 && k.procesosActuales < k.grado {
      assert Pids(k.nuevos) == [k.nuevos[0].pid] + Pids(k.nuevos[1..]);
    } else {
      assert Pids(k.nuevos) == [] + Pids(k.nuevos);
    }
  }

  lemma MismosNuevos(k: Kernel, x: Mensaje)
    requires Admisible(k, x) && Terminable(k, x) && !x.Script? && !x.Pasada?
    ensures Atender(k, x).nuevos == k.nuevos && Atender(k, x).pid == k.pid
  {
    hide IndiceCpu, IndiceSem, CambiarSem, Quitar, SinProceso, ExisteSem, Sem, ProcesoEn;
  }

  lemma PasoFds(k: Kernel, x: Mensaje)
    requires Admisible(k, x) && Terminable(k, x)
    ensures Fds(Atender(k, x).cpus) == Fds(k.cpus) + if x.NuevaCpu? then [x.fd] else []
  {
    hide IndiceSem, CambiarSem, Quitar, SinProceso, CpuLibre, ExisteSem, IndiceCpu, Sem;
  }

  lemma PasoSalida(k: Kernel, m: Marca, x: Mensaje)
    requires Inv(k, m) && Admisible(k, x) && Terminable(k, x)
    ensures Pids(Atender(k, x).salida) == Pids(k.salida) + Salen(k, x)
  {
    hide Inv, IndiceCpu, IndiceSem, CambiarSem, Quitar, SinProceso, CpuLibre, ExisteSem, Sem, ProcesoEn;
    if x.Fin? {
      CorreSinSalir(k, m, x.fd);
    }
  }

  /** A running process is not listed as having left. */
  lemma CorreSinSalir(k: Kernel, m: Marca, fd: int)
    requires Inv(k, m) && Ejecuta(k, fd)
    ensures ProcesoEn(k, fd) in k.estados && k.estados[ProcesoEn(k, fd)] != Exit
  {
    hide Inv, IndiceCpu, ProcesoEn;
    CpuDelProceso(k, m, fd);
    EstadosDe(k, m, ProcesoEn(k, fd));
  }

  lemma {:induction false} ColasDe(grado: int, ss: seq<Semaforo>, xs: seq<Mensaje>)
    requires SemaforosIniciales(ss) && Posible(grado, ss, xs)
    ensures var k := Correr(grado, ss, xs).0;
      && Esperaron(grado, ss, xs) == CargadosPorPasadas(grado, ss, xs) + Pids(k.nuevos)
      && Pids(k.salida) == Salidas(grado, ss, xs) && Fds(k.cpus) == Conectados(xs) && k.pid == Scripts(xs)
  {
    hide Inv, Anotar, Atender, Espera, CargadoPorPasada, Salen, Admisible, MarcaInicial, Pids, Fds;
    if xs == [] {
      NadaEnColas();
    } else {
      var n := |xs| - 1;
      CorridaInv(grado, ss, xs[..n]);
      ColasDe(grado, ss, xs[..n]);
      var (k, m) := Correr(grado, ss, xs[..n]);
      AtenderInv(k, m, xs[n]);
      PasoNuevos(k, xs[n]);
      PasoFds(k, xs[n]);
      PasoSalida(k, m, xs[n]);
      Desfila(CargadosPorPasadas(grado, ss, xs[..n]), Pids(k.nuevos), Espera(k, xs[n]), CargadoPorPasada(k, xs[n]),
              Pids(Atender(k, xs[n]).nuevos));
    }
  }

  lemma NadaEnColas()
    ensures Pids([]) == [] && Fds([]) == []
  {
  }

  /** One more at the end of a queue and one less at its front. */
  lemma Desfila(fuera: seq<nat>, cola: seq<nat>, entra: seq<nat>, sale: seq<nat>, queda: seq<nat>)
    requires cola + entra == sale + queda
    ensures fuera + cola + entra == fuera + sale + queda
  {
    assert fuera + cola + entra == fuera + (cola + entra);
    assert fuera + sale + queda == fuera + (sale + queda);
  }

  /**
   * After any run the scripts that found the degree reached are, in the order they arrived, those that passes asked
   * memory to load followed by those still waiting.
   */
  lemma OrdenDeScripts(grado: int, ss: seq<Semaforo>, xs: seq<Mensaje>)
    requires SemaforosIniciales(ss) && Posible(grado, ss, xs)
    ensures Esperaron(grado, ss, xs)
         == CargadosPorPasadas(grado, ss, xs) + Pids(Correr(grado, ss, xs).0.nuevos)
    ensures Correr(grado, ss, xs).0.pid == Scripts(xs)
  {
    hide Correr, Esperaron, CargadosPorPasadas;
    ColasDe(grado, ss, xs);
  }

  /** The exit queue holds those who ended or were refused, in the order they did. */
  lemma OrdenDeSalida(grado: int, ss: seq<Semaforo>, xs: seq<Mensaje>)
    requires SemaforosIniciales(ss) && Posible(grado, ss, xs)
    ensures Pids(Correr(grado, ss, xs).0.salida) == Salidas(grado, ss, xs)
  {
    hide Correr, Salidas;
    ColasDe(grado, ss, xs);
  }

  lemma {:induction false} Crecen(grado: int, ss: seq<Semaforo>, xs: seq<Mensaje>)
    requires SemaforosIniciales(ss) && Posible(grado, ss, xs)
    ensures var k := Correr(grado, ss, xs).0;
      Creciente(Pids(k.nuevos)) && forall i :: 0 <= i < |k.nuevos| ==> Pids(k.nuevos)[i] <= k.pid
  {
    hide Inv, Anotar, Atender, Admisible, MarcaInicial;
    if xs != [] {
      var n := |xs| - 1;
      CorridaInv(grado, ss, xs[..n]);
      Crecen(grado, ss, xs[..n]);
      var (k, m) := Correr(grado, ss, xs[..n]);
      AtenderInv(k, m, xs[n]);
      PasoNuevos(k, xs[n]);
      ColaCreciente(Pids(k.nuevos), Espera(k, xs[n]), CargadoPorPasada(k, xs[n]), Pids(Atender(k, xs[n]).nuevos),
                    k.pid);
    }
  }

  lemma ColaCreciente(cola: seq<nat>, entra: seq<nat>, sale: seq<nat>, queda: seq<nat>, n: nat)
    requires Creciente(cola) && (forall i :: 0 <= i < |cola| ==> cola[i] <= n)
    requires entra == [] || entra == [n + 1]
    requires cola + entra == sale + queda
    ensures Creciente(queda) && forall i :: 0 <= i < |queda| ==> queda[i] <= n + |entra|
  {
    assert forall i :: 0 <= i < |queda| ==> queda[i] == (cola + entra)[|sale| + i];
  }

  /**
   * In every reachable state the waiting scripts are in the order they were created, and a scheduler pass with room
   * takes the oldest of them and no other.
   */
  lemma CargaElMasViejo(grado: int, ss: seq<Semaforo>, xs: seq<Mensaje>, r: int)
    requires SemaforosIniciales(ss) && Posible(grado, ss, xs)
    ensures var k := Correr(grado, ss, xs).0;
      && Creciente(Pids(k.nuevos)) && Admisible(k, Pasada(r)) && Terminable(k, Pasada(r))
      && var e := Atender(k, Pasada(r));
        if k.nuevos != [] && k.procesosActuales < k.grado then
          var p := Pids(k.nuevos)[0];
          && (forall q :: q in Pids(k.nuevos) ==> p <= q)
          && (forall q :: q in Pids(e.nuevos) <==> q in Pids(k.nuevos) && q != p)
        else e.nuevos == k.nuevos
  {
    hide Correr, Inv, Pids;
    Crecen(grado, ss, xs);
    var k := Correr(grado, ss, xs).0;
    PasoNuevos(k, Pasada(r));
    if k.nuevos != [] && k.procesosActuales < k.grado {
      PrimeroAparte(Pids(k.nuevos), Pids(Atender(k, Pasada(r)).nuevos));
    }
  }

  lemma PrimeroAparte(s: seq<nat>, t: seq<nat>)
    requires Creciente(s) && s != [] && s + [] == [s[0]] + t
    ensures forall q :: q in s ==> s[0] <= q
    ensures forall q :: q in t <==> q in s && q != s[0]
  {
    assert s == [s[0]] + t;
    forall q | q in t
      ensures q in s && q != s[0]
    {
      var i :| 0 <= i < |t| && t[i] == q;
      assert s[i + 1] == q;
    }
  }

  /** Processors are listed in the order they arrived. */
  lemma OrdenDeProcesadores(grado: int, ss: seq<Semaforo>, xs: seq<Mensaje>)
    requires SemaforosIniciales(ss) && Posible(grado, ss, xs)
    ensures Fds(Correr(grado, ss, xs).0.cpus) == Conectados(xs)
  {
    hide Correr;
    ColasDe(grado, ss, xs);
  }

  /**
   * A scheduler pass dispatches nobody exactly when nobody is ready after loading or every processor is executing;
   * otherwise the process goes to the first processor that is not, and the others stay as they were.
   */
  lemma DespachaEnElPrimero(k: Kernel, r: int) returns (i: nat)
    ensures var e, p := Atender(k, Pasada(r)), Despachado(k, Pasada(r));
      && (p == [] <==> Cargar(k, r).listos == [] || forall j :: 0 <= j < |k.cpus| ==> k.cpus[j].fd in k.enEjecucion)
      && (p == [] ==> e.cpus == k.cpus && e.enEjecucion == k.enEjecucion)
      && (p != [] ==>
            && i < |k.cpus| && k.cpus[i].fd !in k.enEjecucion
            && (forall j :: 0 <= j < i ==> k.cpus[j].fd in k.enEjecucion)
            && p == [Pids(Cargar(k, r).listos)[0]] && e.cpus == k.cpus[i := Conexion(k.cpus[i].fd, p[0])]
            && e.enEjecucion == k.enEjecucion + [k.cpus[i].fd])
  {
    hide Guardado;
    i := CpuLibre(k.cpus, k.enEjecucion);
    MismosProcesadores(k, r);
    forall j: nat | j < i
      ensures k.cpus[j].fd in k.enEjecucion
    {
      CpuLibrePrimera(k.cpus, k.enEjecucion, j);
    }
    hide CpuLibre;
  }

  lemma MismosProcesadores(k: Kernel, r: int)
    ensures Cargar(k, r).cpus == k.cpus && Cargar(k, r).enEjecucion == k.enEjecucion
  {
  }

  // ---------------------------------------------------------------- the states shown of the others

  /**
   * The process list shows every process that is not running by the place it is in, and one whose loading memory
   * answered 0 pages as new.
   */
  lemma EstadoFueraDeCpu(grado: int, ss: seq<Semaforo>, xs: seq<Mensaje>, p: nat, l: Lugar)
    requires SemaforosIniciales(ss) && Posible(grado, ss, xs)
    ensures var k := Correr(grado, ss, xs).0;
      && (Esta(k, p, l) && !l.EnCpu? ==>
            p in k.estados && k.estados[p] == match l {
              case EnNuevos => Nuevo
              case EnListos => Ready
              case EnCola(_) => Block
              case _ => Exit
            })
      && (SinPaginas(grado, ss, xs, p) ==> p in k.estados && k.estados[p] == Nuevo)
  {
    hide Correr, Inv, Esta;
    CorridaInv(grado, ss, xs);
    MarcaDeProceso(grado, ss, xs, p);
    var (k, m) := Correr(grado, ss, xs);
    if l == Perdido {
      EnNinguno(k, p);
    } else {
      EstaSii(k, m, p, l);
    }
    if p in m.lugar {
      EstadosDe(k, m, p);
    }
  }

  // ---------------------------------------------------------------- two runs that show what goes wrong

  /** One message more. */
  lemma Siguiente(grado: int, ss: seq<Semaforo>, xs: seq<Mensaje>, x: Mensaje)
    requires SemaforosIniciales(ss) && Posible(grado, ss, xs) && Admisible(Correr(grado, ss, xs).0, x)
    ensures Posible(grado, ss, xs + [x]) && Terminable(Correr(grado, ss, xs).0, x)
    ensures Correr(grado, ss, xs + [x]).0 == Atender(Correr(grado, ss, xs).0, x)
  {
    hide Inv, Admisible, Atender, Anotar, Terminable;
    assert (xs + [x])[..|xs|] == xs;
    CorridaInv(grado, ss, xs);
    AtenderInv(Correr(grado, ss, xs).0, Correr(grado, ss, xs).1, x);
  }

  /** The state after one message more, when the state before it is known. */
  lemma Despues(grado: int, ss: seq<Semaforo>, xs: seq<Mensaje>, x: Mensaje, k: Kernel)
    requires SemaforosIniciales(ss) && Posible(grado, ss, xs) && Correr(grado, ss, xs).0 == k && Admisible(k, x)
    ensures Posible(grado, ss, xs + [x]) && Terminable(k, x) && Correr(grado, ss, xs + [x]).0 == Atender(k, x)
  {
    hide Correr, Posible, Admisible, Terminable, Atender;
    Siguiente(grado, ss, xs, x);
  }

  /** One processor, which runs process 1 or nothing. */
  function Uno(grado: int, ss: seq<Semaforo>, fd: int, corre: bool, listos: seq<Ref>, e: Estado): Kernel {
    Kernel(grado, 1, 1, [], listos, [], [Conexion(fd, if corre then 1 else 0)], if corre then [fd] else [], ss,
           map[1 := e])
  }

  lemma UnoLlega(grado: int, ss: seq<Semaforo>, fd: int)
    requires grado >= 1
    ensures Atender(Conectar(Inicial(grado, ss), fd), Script(1)) == Uno(grado, ss, fd, false, [Ref(1, true)], Ready)
  {
  }

  lemma UnoSale(grado: int, ss: seq<Semaforo>, fd: int, r: Ref, e: Estado)
    requires r.pid == 1
    ensures Atender(Uno(grado, ss, fd, false, [r], e), Pasada(0))
         == Uno(grado, ss, fd, true, [], if r.original then Exec else e)
  {
  }

  lemma UnoVuelve(grado: int, ss: seq<Semaforo>, fd: int, e: Estado)
    ensures Admisible(Uno(grado, ss, fd, true, [], e), FinRafaga(fd))
    ensures Atender(Uno(grado, ss, fd, true, [], e), FinRafaga(fd)) == Uno(grado, ss, fd, false, [Ref(1, false)], Ready)
  {
    assert [fd][1..] == [];
  }

  /** A processor arrives, a script is loaded and runs, its burst ends, and it runs again. */
  function DosTurnos(fd: int): seq<Mensaje> {
    [NuevaCpu(fd), Script(1), Pasada(0), FinRafaga(fd), Pasada(0)]
  }

  /** From startup, five messages leave a process running that the process list shows as ready. */
  lemma ListadoComoListo(grado: int, ss: seq<Semaforo>, fd: int)
    requires SemaforosIniciales(ss) && grado >= 1
    ensures Posible(grado, ss, DosTurnos(fd))
    ensures var k := Correr(grado, ss, DosTurnos(fd)).0;
      Esta(k, 1, EnCpu(fd)) && 1 in k.estados && k.estados[1] == Ready
  {
    hide Correr, Posible, Atender, Uno;
    Vacia(grado, ss);
    var a := [NuevaCpu(fd)];
    var b := a + [Script(1)];
    var c := b + [Pasada(0)];
    var d := c + [FinRafaga(fd)];
    assert [] + [NuevaCpu(fd)] == a && d + [Pasada(0)] == DosTurnos(fd);
    Despues(grado, ss, [], NuevaCpu(fd), Inicial(grado, ss));
    assert Correr(grado, ss, a).0 == Conectar(Inicial(grado, ss), fd) by {
      LlegaCpu(Inicial(grado, ss), fd);
    }
    Despues(grado, ss, a, Script(1), Conectar(Inicial(grado, ss), fd));
    UnoLlega(grado, ss, fd);
    Despues(grado, ss, b, Pasada(0), Uno(grado, ss, fd, false, [Ref(1, true)], Ready));
    UnoSale(grado, ss, fd, Ref(1, true), Ready);
    UnoVuelve(grado, ss, fd, Exec);
    Despues(grado, ss, c, FinRafaga(fd), Uno(grado, ss, fd, true, [], Exec));
    Despues(grado, ss, d, Pasada(0), Uno(grado, ss, fd, false, [Ref(1, false)], Ready));
    UnoSale(grado, ss, fd, Ref(1, false), Ready);
    UnoEsta(grado, ss, fd, Ready);
  }

  lemma LlegaCpu(k: Kernel, fd: int)
    requires Admisible(k, NuevaCpu(fd)) && Terminable(k, NuevaCpu(fd))
    ensures Atender(k, NuevaCpu(fd)) == Conectar(k, fd)
  {
  }

  lemma UnoEsta(grado: int, ss: seq<Semaforo>, fd: int, e: Estado)
    ensures var k := Uno(grado, ss, fd, true, [], e);
      Esta(k, 1, EnCpu(fd)) && 1 in k.estados && k.estados[1] == e
  {
  }

  lemma Vacia(grado: int, ss: seq<Semaforo>)
    requires SemaforosIniciales(ss)
    ensures Posible(grado, ss, []) && Correr(grado, ss, []).0 == Inicial(grado, ss)
  {
  }

  /** One script answered 0 pages leaves a created process in no place. */
  lemma EnNingunLugar(grado: int, ss: seq<Semaforo>)
    requires SemaforosIniciales(ss) && grado >= 1
    ensures Posible(grado, ss, [Script(0)]) && Correr(grado, ss, [Script(0)]).0.pid == 1
    ensures SinPaginas(grado, ss, [Script(0)], 1) && !EnAlguno(Correr(grado, ss, [Script(0)]).0, 1)
  {
    Vacia(grado, ss);
    Siguiente(grado, ss, [], Script(0));
    assert [] + [Script(0)] == [Script(0)];
    hide EnAlguno;
    UnSoloLugar(grado, ss, [Script(0)], 1);
  }
}
