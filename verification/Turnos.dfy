/** Where every process is, whatever messages arrive: the invariant of the kernel over whole runs. */
module Turnos {
  import opened Listas
  import opened Planificador

  /** The one place a created process is in. */
  datatype Lugar = EnNuevos | EnListos | EnCpu(fd: int) | EnCola(id: string) | EnSalida | Perdido

  /** The life of a semaphore: its starting value, the waits and signals served, and who blocked and woke, in order. */
  datatype Historia = Historia(inicial: int, esperas: nat, seniales: nat, bloqueados: seq<nat>, despertados: seq<nat>)

  /** The ready queue's life: every process that ever entered it and every one dispatched from it, in order. */
  datatype Fila = Fila(turnos: seq<nat>, despachados: seq<nat>)

  /**
   * What a run leaves: the place of each process, which ones have come back from a processor, and the semaphores'
   * lives.
   */
  datatype Marca = Marca(lugar: map<nat, Lugar>, volvieron: set<nat>, historia: map<string, Historia>, fila: Fila)

  function Pids(s: seq<Ref>): (r: seq<nat>)
    ensures |r| == |s| && forall i :: 0 <= i < |s| ==> r[i] == s[i].pid
  {
    seq(|s|, i requires 0 <= i < |s| => s[i].pid)
  }

  // ---------------------------------------------------------------- queues

  /** A queue holds the processes of one place, each once. */
  ghost predicate Lista(s: seq<Ref>, lugar: map<nat, Lugar>, l: Lugar) {
    SinRepetidos(Pids(s)) && forall p: nat :: p in Pids(s) <==> p in lugar && lugar[p] == l
  }

  lemma ListaAgrega(s: seq<Ref>, lugar: map<nat, Lugar>, l: Lugar, r: Ref)
    requires Lista(s, lugar, l) && (r.pid in lugar ==> lugar[r.pid] != l)
    ensures Lista(s + [r], lugar[r.pid := l], l)
  {
    assert Pids(s + [r]) == Pids(s) + [r.pid];
  }

  lemma ListaAjena(s: seq<Ref>, lugar: map<nat, Lugar>, l: Lugar, p: nat, otro: Lugar)
    requires Lista(s, lugar, l) && (p in lugar ==> lugar[p] != l) && otro != l
    ensures Lista(s, lugar[p := otro], l) && p !in Pids(s)
  {
  }

  lemma ListaSaca(s: seq<Ref>, lugar: map<nat, Lugar>, l: Lugar, otro: Lugar)
    requires Lista(s, lugar, l) && s != [] && otro != l
    ensures Lista(s[1..], lugar[s[0].pid := otro], l)
    ensures s[0].pid in lugar && lugar[s[0].pid] == l && s[0].pid !in Pids(s[1..])
  {
  }

  // ---------------------------------------------------------------- processors

  predicate CpuBien(c: Conexion, enEjecucion: seq<int>, lugar: map<nat, Lugar>) {
    && (c.proceso != 0 <==> c.fd in enEjecucion)
    && (c.proceso != 0 ==> c.proceso in lugar && lugar[c.proceso] == EnCpu(c.fd))
  }

  /** A processor runs a process exactly when it is executing, and that process is nowhere else. */
  ghost predicate CpusBien(cpus: seq<Conexion>, enEjecucion: seq<int>, lugar: map<nat, Lugar>) {
    && (forall i, j :: 0 <= i < j < |cpus| ==> cpus[i].fd != cpus[j].fd)
    && SinRepetidos(enEjecucion)
    && (forall fd :: fd in enEjecucion ==> IndiceCpu(cpus, fd) < |cpus|)
    && (forall i :: 0 <= i < |cpus| ==> CpuBien(cpus[i], enEjecucion, lugar))
    && (forall p :: p in lugar && lugar[p].EnCpu? ==> CpuDe(cpus, lugar[p].fd, p))
  }

  predicate CpuDe(cpus: seq<Conexion>, fd: int, p: nat) {
    p != 0 && IndiceCpu(cpus, fd) < |cpus| && cpus[IndiceCpu(cpus, fd)].proceso == p
  }

  lemma CpusAjena(cpus: seq<Conexion>, enEjecucion: seq<int>, lugar: map<nat, Lugar>, p: nat, otro: Lugar)
    requires CpusBien(cpus, enEjecucion, lugar) && !otro.EnCpu? && (p in lugar ==> !lugar[p].EnCpu?)
    ensures CpusBien(cpus, enEjecucion, lugar[p := otro])
  {
  }

  /** Two processors with different sockets are in different positions. */
  lemma IndicePropio(cpus: seq<Conexion>, i: nat)
    requires i < |cpus| && forall a, b :: 0 <= a < b < |cpus| ==> cpus[a].fd != cpus[b].fd
    ensures IndiceCpu(cpus, cpus[i].fd) == i
  {
    if IndiceCpu(cpus, cpus[i].fd) > i {
      IndiceCpuPrimero(cpus, cpus[i].fd, i);
    }
  }

  lemma {:induction false} IndiceIgual(a: seq<Conexion>, b: seq<Conexion>, fd: int)
    requires |a| == |b| && forall i :: 0 <= i < |a| ==> a[i].fd == b[i].fd
    ensures IndiceCpu(a, fd) == IndiceCpu(b, fd)
  {
    if a != [] && a[0].fd != fd {
      IndiceIgual(a[1..], b[1..], fd);
    }
  }

  lemma CpusToma(cpus: seq<Conexion>, enEjecucion: seq<int>, lugar: map<nat, Lugar>, i: nat, p: nat)
    requires CpusBien(cpus, enEjecucion, lugar) && i < |cpus| && cpus[i].fd !in enEjecucion
    requires p != 0 && p in lugar && !lugar[p].EnCpu?
    ensures CpusBien(cpus[i := cpus[i].(proceso := p)], enEjecucion + [cpus[i].fd], lugar[p := EnCpu(cpus[i].fd)])
  {
    hide IndiceCpu;
    var c, e, l := cpus[i := cpus[i].(proceso := p)], enEjecucion + [cpus[i].fd], lugar[p := EnCpu(cpus[i].fd)];
    assert CpuBien(cpus[i], enEjecucion, lugar);
    forall fd | fd in e
      ensures IndiceCpu(c, fd) < |c|
    {
      IndiceIgual(cpus, c, fd);
      IndicePropio(cpus, i);
    }
    forall j | 0 <= j < |c|
      ensures CpuBien(c[j], e, l)
    {
      assert CpuBien(cpus[j], enEjecucion, lugar);
    }
    forall q | q in l && l[q].EnCpu?
      ensures CpuDe(c, l[q].fd, q)
    {
      IndiceIgual(cpus, c, l[q].fd);
      if q == p {
        IndicePropio(cpus, i);
      } else {
        assert CpuDe(cpus, lugar[q].fd, q);
      }
    }
  }

  /** The other processors do not notice. */
  lemma CpuSueltaOtra(x: Conexion, e: seq<int>, e2: seq<int>, lugar: map<nat, Lugar>, p: nat, fd: int, otro: Lugar)
    requires CpuBien(x, e, lugar) && x.fd != fd && p in lugar && lugar[p] == EnCpu(fd)
    requires x.fd in e2 <==> x.fd in e
    ensures CpuBien(x, e2, lugar[p := otro])
  {
  }

  lemma CpuDeSuelta(cpus: seq<Conexion>, c: seq<Conexion>, fd: int, f: int, q: nat)
    requires CpuDe(cpus, f, q) && IndiceCpu(cpus, fd) < |cpus| && f != fd
    requires c == cpus[IndiceCpu(cpus, fd) := Conexion(fd, 0)]
    ensures CpuDe(c, f, q)
  {
    IndiceIgual(cpus, c, f);
  }

  lemma CpuOcupada(x: Conexion, e: seq<int>, lugar: map<nat, Lugar>)
    requires CpuBien(x, e, lugar) && x.fd in e
    ensures x.proceso != 0 && x.proceso in lugar && lugar[x.proceso] == EnCpu(x.fd)
  {
  }

  lemma CpuVacia(x: Conexion, e: seq<int>, lugar: map<nat, Lugar>)
    requires x.proceso == 0 && x.fd !in e
    ensures CpuBien(x, e, lugar)
  {
  }

  lemma CpusSuelta(cpus: seq<Conexion>, enEjecucion: seq<int>, lugar: map<nat, Lugar>, fd: int, otro: Lugar)
    requires CpusBien(cpus, enEjecucion, lugar) && fd in enEjecucion && !otro.EnCpu?
    ensures var i := IndiceCpu(cpus, fd);
      var p := cpus[i].proceso;
      && i < |cpus| && p != 0 && p in lugar && lugar[p] == EnCpu(fd)
      && CpusBien(cpus[i := cpus[i].(proceso := 0)], Quitar(enEjecucion, fd), lugar[p := otro])
      && |Quitar(enEjecucion, fd)| == |enEjecucion| - 1
  {
    hide Quitar, IndiceCpu, CpuBien, CpuDe;
    var i := IndiceCpu(cpus, fd);
    CpuOcupada(cpus[i], enEjecucion, lugar);
    var p := cpus[i].proceso;
    QuitarMiembros(enEjecucion, fd);
    var c, e, l := cpus[i := cpus[i].(proceso := 0)], Quitar(enEjecucion, fd), lugar[p := otro];
    forall f | f in e
      ensures IndiceCpu(c, f) < |c|
    {
      IndiceIgual(cpus, c, f);
    }
    CpuVacia(c[i], e, l);
    forall j | 0 <= j < |c| && j != i
      ensures CpuBien(c[j], e, l)
    {
      CpuSueltaOtra(cpus[j], enEjecucion, e, lugar, p, fd, otro);
    }
    forall q | q in l && l[q].EnCpu?
      ensures CpuDe(c, l[q].fd, q)
    {
      NoEsElMismo(cpus, lugar, fd, p, q);
      CpuDeSuelta(cpus, c, fd, lugar[q].fd, q);
    }
  }

  /** Only one process is placed on a processor. */
  lemma NoEsElMismo(cpus: seq<Conexion>, lugar: map<nat, Lugar>, fd: int, p: nat, q: nat)
    requires CpuDe(cpus, fd, p) && q in lugar && lugar[q].EnCpu? && CpuDe(cpus, lugar[q].fd, q) && q != p
    ensures lugar[q].fd != fd
  {
  }

  // ---------------------------------------------------------------- semaphores

  predicate SemBien(s: Semaforo, h: Historia) {
    && |s.cola| == (if s.valor < 0 then -s.valor else 0)
    && s.valor == h.inicial - h.esperas + h.seniales
    && h.bloqueados == h.despertados + Pids(s.cola)
  }

  ghost predicate ColasBien(ss: seq<Semaforo>, lugar: map<nat, Lugar>) {
    && (forall s :: s in ss ==> Lista(s.cola, lugar, EnCola(s.id)))
    && (forall p :: p in lugar && lugar[p].EnCola? ==> ExisteSem(ss, lugar[p].id))
  }

  ghost predicate SemsBien(ss: seq<Semaforo>, historia: map<string, Historia>) {
    && IdsDistintos(ss)
    && (forall s :: s in ss ==> s.id in historia && SemBien(s, historia[s.id]))
  }

  function TotalCola(ss: seq<Semaforo>): nat {
    if ss == [] then 0 else |ss[0].cola| + TotalCola(ss[1..])
  }

  lemma {:induction false} TotalColaConcat(a: seq<Semaforo>, b: seq<Semaforo>)
    ensures TotalCola(a + b) == TotalCola(a) + TotalCola(b)
  {
    if a == [] {
      assert a + b == b;
    } else {
      assert (a + b)[1..] == a[1..] + b;
      TotalColaConcat(a[1..], b);
    }
  }

  lemma TotalColaCambia(ss: seq<Semaforo>, s: Semaforo)
    requires ExisteSem(ss, s.id)
    ensures TotalCola(CambiarSem(ss, s)) == TotalCola(ss) - |Sem(ss, s.id).cola| + |s.cola|
  {
    var i := IndiceSem(ss, s.id);
    var a, b := ss[..i], ss[i + 1..];
    assert ss == a + ([ss[i]] + b);
    TotalColaConcat(a, [ss[i]] + b);
    TotalColaConcat([ss[i]], b);
    TotalColaConcat(a + b, [s]);
    TotalColaConcat(a, b);
  }

  lemma ColasAjena(ss: seq<Semaforo>, lugar: map<nat, Lugar>, p: nat, otro: Lugar)
    requires ColasBien(ss, lugar) && !otro.EnCola? && (p in lugar ==> !lugar[p].EnCola?)
    ensures ColasBien(ss, lugar[p := otro])
  {
  }

  lemma ExistePorMiembro(ss: seq<Semaforo>, x: Semaforo)
    requires x in ss
    ensures ExisteSem(ss, x.id)
  {
    var b :| 0 <= b < |ss| && ss[b] == x;
    if IndiceSem(ss, x.id) > b {
      IndiceSemPrimero(ss, x.id, b);
    }
  }

  lemma ExisteCambia(ss: seq<Semaforo>, s: Semaforo, id: string)
    requires ExisteSem(ss, s.id) && IdsDistintos(ss)
    ensures ExisteSem(CambiarSem(ss, s), id) <==> ExisteSem(ss, id)
  {
    CambiarSemEs(ss, s);
    hide CambiarSem, IndiceSem;
    if ExisteSem(ss, id) && id != s.id {
      CambiarSemMiembros(ss, s, Sem(ss, id));
      ExistePorMiembro(CambiarSem(ss, s), Sem(ss, id));
    }
    if ExisteSem(CambiarSem(ss, s), id) && id != s.id {
      var x := Sem(CambiarSem(ss, s), id);
      CambiarSemMiembros(ss, s, x);
      ExistePorMiembro(ss, x);
    }
  }

  /** Semaphore `s` takes the place of its namesake, and the places of processes become `l2`. */
  lemma ColasCambia(ss: seq<Semaforo>, s: Semaforo, lugar: map<nat, Lugar>, l2: map<nat, Lugar>)
    requires IdsDistintos(ss) && ExisteSem(ss, s.id) && ColasBien(ss, lugar)
    requires Lista(s.cola, l2, EnCola(s.id))
    requires forall x :: x in ss && x.id != s.id ==> Lista(x.cola, l2, EnCola(x.id))
    requires forall p :: p in l2 && l2[p].EnCola? ==> l2[p].id == s.id || (p in lugar && lugar[p] == l2[p])
    ensures ColasBien(CambiarSem(ss, s), l2)
  {
    hide Lista, CambiarSem, ExisteSem;
    forall x | x in CambiarSem(ss, s)
      ensures Lista(x.cola, l2, EnCola(x.id))
    {
      CambiarSemMiembros(ss, s, x);
    }
    forall p | p in l2 && l2[p].EnCola?
      ensures ExisteSem(CambiarSem(ss, s), l2[p].id)
    {
      ExisteCambia(ss, s, l2[p].id);
    }
  }

  lemma SemsCambia(ss: seq<Semaforo>, s: Semaforo, historia: map<string, Historia>, h: Historia)
    requires SemsBien(ss, historia) && ExisteSem(ss, s.id) && SemBien(s, h)
    ensures SemsBien(CambiarSem(ss, s), historia[s.id := h])
  {
  }

  // ---------------------------------------------------------------- states and copies

  /** The state the process list shows: a process that came back once still shows as ready while it runs. */
  function EstadoDe(l: Lugar, volvio: bool): Estado {
    match l
    case EnNuevos => Nuevo
    case EnListos => Ready
    case EnCpu(_) => if volvio then Ready else Exec
    case EnCola(_) => Block
    case EnSalida => Exit
    case Perdido => Nuevo
  }

  ghost predicate EstadosBien(estados: map<nat, Estado>, lugar: map<nat, Lugar>, volvieron: set<nat>) {
    && estados.Keys == lugar.Keys
    && forall p :: p in lugar ==> estados[p] == EstadoDe(lugar[p], p in volvieron)
  }

  /** The entries of a queue are the listed blocks exactly for processes that never came back. */
  ghost predicate RefsBien(s: seq<Ref>, volvieron: set<nat>) {
    forall i :: 0 <= i < |s| ==> (s[i].original <==> s[i].pid !in volvieron)
  }

  ghost predicate SinVolver(s: seq<Ref>, volvieron: set<nat>) {
    forall i :: 0 <= i < |s| ==> s[i].original && s[i].pid !in volvieron
  }

  ghost predicate Copias(s: seq<Ref>, volvieron: set<nat>) {
    forall i :: 0 <= i < |s| ==> !s[i].original && s[i].pid in volvieron
  }

  ghost predicate ColasDeCopias(ss: seq<Semaforo>, volvieron: set<nat>) {
    forall s :: s in ss ==> Copias(s.cola, volvieron)
  }

  predicate CuentaBien(k: Kernel) {
    && k.procesosActuales == |k.listos| + |k.enEjecucion| + TotalCola(k.semaforos)
    && k.procesosActuales <= (if k.grado > 0 then k.grado else 0)
  }

  ghost predicate Creados(lugar: map<nat, Lugar>, n: nat) {
    forall p: nat :: p in lugar <==> 1 <= p <= n
  }

  /** Whoever entered the ready queue and was not dispatched is still there, in order. */
  predicate FilaBien(listos: seq<Ref>, f: Fila) {
    f.turnos == f.despachados + Pids(listos)
  }

  function Entra(f: Fila, p: nat): Fila {
    f.(turnos := f.turnos + [p])
  }

  function Sale(f: Fila, p: nat): Fila {
    f.(despachados := f.despachados + [p])
  }

  lemma FilaEntra(listos: seq<Ref>, f: Fila, r: Ref)
    requires FilaBien(listos, f)
    ensures FilaBien(listos + [r], Entra(f, r.pid))
  {
  }

  lemma FilaSale(listos: seq<Ref>, f: Fila)
    requires FilaBien(listos, f) && listos != []
    ensures FilaBien(listos[1..], Sale(f, listos[0].pid))
  {
  }

  predicate Volvieron(m: Marca) {
    forall p :: p in m.volvieron ==> p in m.lugar
  }

  ghost predicate Inv(k: Kernel, m: Marca) {
    && Creados(m.lugar, k.pid)
    && Lista(k.nuevos, m.lugar, EnNuevos) && Lista(k.listos, m.lugar, EnListos) && Lista(k.salida, m.lugar, EnSalida)
    && CpusBien(k.cpus, k.enEjecucion, m.lugar)
    && ColasBien(k.semaforos, m.lugar) && SemsBien(k.semaforos, m.historia)
    && EstadosBien(k.estados, m.lugar, m.volvieron) && Volvieron(m)
    && SinVolver(k.nuevos, m.volvieron) && RefsBien(k.listos, m.volvieron) && ColasDeCopias(k.semaforos, m.volvieron)
    && CuentaBien(k) && FilaBien(k.listos, m.fila)
  }

  // ---------------------------------------------------------------- each message

  function LugarGuardado(respuesta: int): Lugar {
    if respuesta > 0 then EnListos else if respuesta < 0 then EnSalida else Perdido
  }

  lemma EstadosCambia(estados: map<nat, Estado>, lugar: map<nat, Lugar>, volvieron: set<nat>, p: nat, l: Lugar,
      e: Estado)
    requires EstadosBien(estados, lugar, volvieron) && e == EstadoDe(l, p in volvieron)
    ensures EstadosBien(estados[p := e], lugar[p := l], volvieron)
  {
  }

  lemma EstadosVuelve(estados: map<nat, Estado>, lugar: map<nat, Lugar>, volvieron: set<nat>, p: nat, l: Lugar,
      e: Estado)
    requires EstadosBien(estados, lugar, volvieron) && e == EstadoDe(l, true)
    ensures EstadosBien(estados[p := e], lugar[p := l], volvieron + {p})
  {
  }

  /** Moving a created process. */
  lemma CreadosMueve(lugar: map<nat, Lugar>, n: nat, p: nat, l: Lugar)
    requires Creados(lugar, n) && p in lugar
    ensures Creados(lugar[p := l], n)
  {
  }

  lemma CreadosMas(lugar: map<nat, Lugar>, n: nat, l: Lugar)
    requires Creados(lugar, n)
    ensures Creados(lugar[n + 1 := l], n + 1) && n + 1 !in lugar
  {
  }

  lemma RefsAgrega(s: seq<Ref>, volvieron: set<nat>, r: Ref)
    requires RefsBien(s, volvieron) && (r.original <==> r.pid !in volvieron)
    ensures RefsBien(s + [r], volvieron)
  {
  }

  lemma RefsSaca(s: seq<Ref>, volvieron: set<nat>)
    requires RefsBien(s, volvieron) && s != []
    ensures RefsBien(s[1..], volvieron) && (s[0].original <==> s[0].pid !in volvieron)
  {
  }

  lemma NuevosAgrega(s: seq<Ref>, volvieron: set<nat>, p: nat)
    requires SinVolver(s, volvieron) && p !in volvieron
    ensures SinVolver(s + [Ref(p, true)], volvieron)
  {
  }

  lemma NuevosSaca(s: seq<Ref>, volvieron: set<nat>)
    requires SinVolver(s, volvieron) && s != []
    ensures SinVolver(s[1..], volvieron) && s[0] == Ref(s[0].pid, true) && s[0].pid !in volvieron
  {
  }

  /** One more process coming back, in none of the queues. */
  lemma VuelveUno(k: Kernel, lugar: map<nat, Lugar>, volvieron: set<nat>, p: nat)
    requires SinVolver(k.nuevos, volvieron) && RefsBien(k.listos, volvieron) && ColasDeCopias(k.semaforos, volvieron)
    requires p !in Pids(k.nuevos) && p !in Pids(k.listos)
    ensures SinVolver(k.nuevos, volvieron + {p}) && RefsBien(k.listos, volvieron + {p})
    ensures ColasDeCopias(k.semaforos, volvieron + {p})
  {
  }

  lemma CopiasCambia(ss: seq<Semaforo>, s: Semaforo, volvieron: set<nat>)
    requires IdsDistintos(ss) && ExisteSem(ss, s.id) && ColasDeCopias(ss, volvieron) && Copias(s.cola, volvieron)
    ensures ColasDeCopias(CambiarSem(ss, s), volvieron)
  {
  }

  /** Everything but the three queues survives a move between places that are neither a processor nor a semaphore. */
  lemma MoverAjeno(k: Kernel, m: Marca, p: nat, l: Lugar)
    requires Inv(k, m) && !l.EnCpu? && !l.EnCola?
    requires p in m.lugar ==> !m.lugar[p].EnCpu? && !m.lugar[p].EnCola?
    ensures CpusBien(k.cpus, k.enEjecucion, m.lugar[p := l]) && ColasBien(k.semaforos, m.lugar[p := l])
  {
    CpusAjena(k.cpus, k.enEjecucion, m.lugar, p, l);
    ColasAjena(k.semaforos, m.lugar, p, l);
  }

  function FilaGuardado(f: Fila, p: nat, respuesta: int): Fila {
    if respuesta > 0 then Entra(f, p) else f
  }

  /** A process already created, in no queue and never run, reaches memory. */
  lemma GuardadoInv(k: Kernel, m: Marca, p: nat, respuesta: int)
    requires Inv(k, m) && p in m.lugar && m.lugar[p] == Perdido && p !in m.volvieron && k.procesosActuales < k.grado
    ensures Inv(Guardado(k, Ref(p, true), respuesta),
                m.(lugar := m.lugar[p := LugarGuardado(respuesta)], fila := FilaGuardado(m.fila, p, respuesta)))
  {
    hide Lista, CpusBien, ColasBien, SemsBien, EstadosBien, SinVolver, RefsBien, ColasDeCopias, Creados, FilaBien;
    var l := LugarGuardado(respuesta);
    if l == Perdido {
      assert m.lugar[p := l] == m.lugar;
    } else {
      ListaAjena(k.nuevos, m.lugar, EnNuevos, p, l);
      MoverAjeno(k, m, p, l);
      CreadosMueve(m.lugar, k.pid, p, l);
      EstadosCambia(k.estados, m.lugar, m.volvieron, p, l, if l == EnListos then Ready else Exit);
      if l == EnListos {
        ListaAgrega(k.listos, m.lugar, EnListos, Ref(p, true));
        RefsAgrega(k.listos, m.volvieron, Ref(p, true));
        FilaEntra(k.listos, m.fila, Ref(p, true));
        ListaAjena(k.salida, m.lugar, EnSalida, p, l);
      } else {
        ListaAgrega(k.salida, m.lugar, EnSalida, Ref(p, true));
        ListaAjena(k.listos, m.lugar, EnListos, p, l);
      }
    }
  }

  /** A process is created in no queue. */
  lemma CrearInv(k: Kernel, m: Marca)
    requires Inv(k, m)
    ensures var p := k.pid + 1;
      p !in m.volvieron &&
      Inv(k.(pid := p, estados := k.estados[p := Nuevo]), m.(lugar := m.lugar[p := Perdido]))
  {
    hide Lista, CpusBien, ColasBien, SemsBien, EstadosBien, SinVolver, RefsBien, ColasDeCopias, Creados, FilaBien;
    var p := k.pid + 1;
    CreadosMas(m.lugar, k.pid, Perdido);
    ListaAjena(k.nuevos, m.lugar, EnNuevos, p, Perdido);
    ListaAjena(k.listos, m.lugar, EnListos, p, Perdido);
    ListaAjena(k.salida, m.lugar, EnSalida, p, Perdido);
    MoverAjeno(k, m, p, Perdido);
    EstadosCambia(k.estados, m.lugar, m.volvieron, p, Perdido, Nuevo);
  }

  function MarcaAdmitir(k: Kernel, m: Marca, respuesta: int): Marca {
    if k.procesosActuales < k.grado then
      m.(lugar := m.lugar[k.pid + 1 := LugarGuardado(respuesta)], fila := FilaGuardado(m.fila, k.pid + 1, respuesta))
    else m.(lugar := m.lugar[k.pid + 1 := EnNuevos])
  }

  lemma AdmitirInv(k: Kernel, m: Marca, respuesta: int)
    requires Inv(k, m)
    ensures Inv(Admitir(k, respuesta), MarcaAdmitir(k, m, respuesta))
  {
    hide Lista, CpusBien, ColasBien, SemsBien, EstadosBien, SinVolver, RefsBien, ColasDeCopias, Creados, FilaBien;
    var p := k.pid + 1;
    var e, w := k.(pid := p, estados := k.estados[p := Nuevo]), m.(lugar := m.lugar[p := Perdido]);
    CrearInv(k, m);
    assert w.lugar[p := MarcaAdmitir(k, m, respuesta).lugar[p]] == MarcaAdmitir(k, m, respuesta).lugar;
    if k.procesosActuales < k.grado {
      GuardadoInv(e, w, p, respuesta);
    } else {
      ListaAgrega(e.nuevos, w.lugar, EnNuevos, Ref(p, true));
      NuevosAgrega(e.nuevos, w.volvieron, p);
      ListaAjena(e.listos, w.lugar, EnListos, p, EnNuevos);
      ListaAjena(e.salida, w.lugar, EnSalida, p, EnNuevos);
      MoverAjeno(e, w, p, EnNuevos);
      CreadosMueve(w.lugar, p, p, EnNuevos);
      EstadosCambia(e.estados, w.lugar, w.volvieron, p, EnNuevos, Nuevo);
      assert e.estados[p := Nuevo] == e.estados;
    }
  }

  function MarcaCargar(k: Kernel, m: Marca, respuesta: int): Marca {
    if |k.nuevos| > 0 && k.procesosActuales < k.grado
    then m.(lugar := m.lugar[k.nuevos[0].pid := LugarGuardado(respuesta)],
            fila := FilaGuardado(m.fila, k.nuevos[0].pid, respuesta))
    else m
  }

  /** The oldest script leaves its queue. */
  lemma SacarNuevo(k: Kernel, m: Marca)
    requires Inv(k, m) && k.nuevos != []
    ensures var p := k.nuevos[0].pid;
      && k.nuevos[0] == Ref(p, true) && p in m.lugar && p !in m.volvieron
      && Inv(k.(nuevos := k.nuevos[1..]), m.(lugar := m.lugar[p := Perdido]))
  {
    hide Lista, CpusBien, ColasBien, SemsBien, EstadosBien, SinVolver, RefsBien, ColasDeCopias, Creados, FilaBien;
    var p := k.nuevos[0].pid;
    NuevosSaca(k.nuevos, m.volvieron);
    ListaSaca(k.nuevos, m.lugar, EnNuevos, Perdido);
    ListaAjena(k.listos, m.lugar, EnListos, p, Perdido);
    ListaAjena(k.salida, m.lugar, EnSalida, p, Perdido);
    MoverAjeno(k, m, p, Perdido);
    CreadosMueve(m.lugar, k.pid, p, Perdido);
    EstadoNuevo(k.estados, m.lugar, m.volvieron, p);
  }

  lemma EstadoNuevo(estados: map<nat, Estado>, lugar: map<nat, Lugar>, volvieron: set<nat>, p: nat)
    requires EstadosBien(estados, lugar, volvieron) && p in lugar && lugar[p] == EnNuevos
    ensures EstadosBien(estados, lugar[p := Perdido], volvieron)
  {
  }

  lemma CargarInv(k: Kernel, m: Marca, respuesta: int)
    requires Inv(k, m)
    ensures Inv(Cargar(k, respuesta), MarcaCargar(k, m, respuesta))
  {
    hide Inv;
    if |k.nuevos| > 0 && k.procesosActuales < k.grado {
      SacarNuevo(k, m);
      var p := k.nuevos[0].pid;
      var e, w := k.(nuevos := k.nuevos[1..]), m.(lugar := m.lugar[p := Perdido]);
      GuardadoInv(e, w, p, respuesta);
      assert w.lugar[p := LugarGuardado(respuesta)] == MarcaCargar(k, m, respuesta).lugar;
    }
  }

  function MarcaDespachar(k: Kernel, m: Marca): Marca {
    var i := CpuLibre(k.cpus, k.enEjecucion);
    if |k.listos| > 0 && i < |k.cpus| then
      m.(lugar := m.lugar[k.listos[0].pid := EnCpu(k.cpus[i].fd)], fila := Sale(m.fila, k.listos[0].pid))
    else m
  }

  lemma DespacharInv(k: Kernel, m: Marca)
    requires Inv(k, m)
    ensures Inv(Despachar(k), MarcaDespachar(k, m))
  {
    hide Lista, CpusBien, ColasBien, SemsBien, EstadosBien, SinVolver, RefsBien, ColasDeCopias, Creados, FilaBien,
      CpuLibre;
    var i := CpuLibre(k.cpus, k.enEjecucion);
    if |k.listos| > 0 && i < |k.cpus| {
      var r := k.listos[0];
      var p, l := r.pid, EnCpu(k.cpus[i].fd);
      ListaSaca(k.listos, m.lugar, EnListos, l);
      RefsSaca(k.listos, m.volvieron);
      FilaSale(k.listos, m.fila);
      ListaAjena(k.nuevos, m.lugar, EnNuevos, p, l);
      ListaAjena(k.salida, m.lugar, EnSalida, p, l);
      NoEsCero(m.lugar, k.pid, p);
      CpusToma(k.cpus, k.enEjecucion, m.lugar, i, p);
      ColasAjena(k.semaforos, m.lugar, p, l);
      CreadosMueve(m.lugar, k.pid, p, l);
      EstadosCambia(k.estados, m.lugar, m.volvieron, p, l, EstadoDe(l, p in m.volvieron));
      EstadoEra(k.estados, m.lugar, m.volvieron, p);
      assert !r.original ==> k.estados[p := Ready] == k.estados;
    }
  }

  lemma EstadoEra(estados: map<nat, Estado>, lugar: map<nat, Lugar>, volvieron: set<nat>, p: nat)
    requires EstadosBien(estados, lugar, volvieron) && p in lugar
    ensures p in estados && estados[p] == EstadoDe(lugar[p], p in volvieron)
  {
  }

  lemma NoEsCero(lugar: map<nat, Lugar>, n: nat, p: nat)
    requires Creados(lugar, n) && p in lugar
    ensures p != 0
  {
  }

  /** Taking a process off its processor: everything but the place it goes to. */
  lemma SoltarAjeno(k: Kernel, m: Marca, fd: int, l: Lugar)
    requires Inv(k, m) && fd in k.enEjecucion && !l.EnCpu?
    ensures Ejecuta(k, fd)
    ensures var p := ProcesoEn(k, fd);
      var e := Soltar(k, fd);
      && p in m.lugar && m.lugar[p] == EnCpu(fd) && p in k.estados && (k.estados[p] == Exec || k.estados[p] == Ready)
      && CpusBien(e.cpus, e.enEjecucion, m.lugar[p := l]) && |e.enEjecucion| == |k.enEjecucion| - 1
      && Creados(m.lugar[p := l], k.pid)
      && p !in Pids(k.nuevos) && p !in Pids(k.listos)
      && SinVolver(k.nuevos, m.volvieron + {p}) && RefsBien(k.listos, m.volvieron + {p})
      && ColasDeCopias(k.semaforos, m.volvieron + {p})
      && EstadosBien(k.estados[p := EstadoDe(l, true)], m.lugar[p := l], m.volvieron + {p})
  {
    hide Lista, ColasBien, SemsBien, EstadosBien, SinVolver, RefsBien, ColasDeCopias, Creados, FilaBien, IndiceCpu,
      Quitar;
    CpusSuelta(k.cpus, k.enEjecucion, m.lugar, fd, l);
    hide CpusBien;
    var p := ProcesoEn(k, fd);
    CreadosMueve(m.lugar, k.pid, p, l);
    ListaAjena(k.nuevos, m.lugar, EnNuevos, p, Perdido);
    ListaAjena(k.listos, m.lugar, EnListos, p, Perdido);
    VuelveUno(k, m.lugar, m.volvieron, p);
    EstadosVuelve(k.estados, m.lugar, m.volvieron, p, l, EstadoDe(l, true));
    EstadoEra(k.estados, m.lugar, m.volvieron, p);
  }

  function MarcaVuelve(k: Kernel, m: Marca, fd: int, l: Lugar): Marca {
    var p := ProcesoEn(k, fd);
    m.(lugar := m.lugar[p := l], volvieron := m.volvieron + {p},
       fila := if l == EnListos then Entra(m.fila, p) else m.fila)
  }

  lemma RafagaInv(k: Kernel, m: Marca, fd: int)
    requires Inv(k, m) && Ejecuta(k, fd)
    ensures Inv(FinDeRafaga(k, fd), MarcaVuelve(k, m, fd, EnListos))
  {
    hide Lista, CpusBien, ColasBien, SemsBien, EstadosBien, SinVolver, RefsBien, ColasDeCopias, Creados, FilaBien,
      IndiceCpu, Quitar;
    SoltarAjeno(k, m, fd, EnListos);
    var p := ProcesoEn(k, fd);
    ListaAgrega(k.listos, m.lugar, EnListos, Ref(p, false));
    RefsAgrega(k.listos, m.volvieron + {p}, Ref(p, false));
    FilaEntra(k.listos, m.fila, Ref(p, false));
    ListaAjena(k.nuevos, m.lugar, EnNuevos, p, EnListos);
    ListaAjena(k.salida, m.lugar, EnSalida, p, EnListos);
    ColasAjena(k.semaforos, m.lugar, p, EnListos);
  }

  lemma SinProcesoIgual(s: seq<Ref>, p: nat)
    requires p !in Pids(s)
    ensures SinProceso(s, p) == s
  {
  }

  /** A finishing process is listed as executing or ready, so no other queue is touched. */
  lemma TerminarInv(k: Kernel, m: Marca, fd: int)
    requires Inv(k, m) && Ejecuta(k, fd)
    ensures ProcesoEn(k, fd) in k.estados && k.estados[ProcesoEn(k, fd)] in {Exec, Ready}
    ensures Terminar(k, fd).listos == k.listos
    ensures Inv(Terminar(k, fd), MarcaVuelve(k, m, fd, EnSalida))
  {
    hide Lista, CpusBien, ColasBien, SemsBien, EstadosBien, SinVolver, RefsBien, ColasDeCopias, Creados, FilaBien,
      IndiceCpu, Quitar, SinProceso;
    SoltarAjeno(k, m, fd, EnSalida);
    var p := ProcesoEn(k, fd);
    SinProcesoIgual(k.listos, p);
    ListaAgrega(k.salida, m.lugar, EnSalida, Ref(p, true));
    ListaAjena(k.nuevos, m.lugar, EnNuevos, p, EnSalida);
    ListaAjena(k.listos, m.lugar, EnListos, p, EnSalida);
    ColasAjena(k.semaforos, m.lugar, p, EnSalida);
  }

  lemma IndiceUnico(ss: seq<Semaforo>, n: nat)
    requires IdsDistintos(ss) && n < |ss|
    ensures IndiceSem(ss, ss[n].id) == n
  {
    if IndiceSem(ss, ss[n].id) > n {
      IndiceSemPrimero(ss, ss[n].id, n);
    }
  }

  /** Two changes of the same semaphore are the last one. */
  lemma CambiarDos(ss: seq<Semaforo>, a: Semaforo, b: Semaforo)
    requires IdsDistintos(ss) && ExisteSem(ss, a.id) && a.id == b.id
    ensures ExisteSem(CambiarSem(ss, a), b.id)
    ensures CambiarSem(CambiarSem(ss, a), b) == CambiarSem(ss, b)
  {
    CambiarSemEs(ss, a);
    var i := IndiceSem(ss, a.id);
    var r := CambiarSem(ss, a);
    var n := |r| - 1;
    CambiarSemEn(ss, a, n);
    IndiceUnico(r, n);
    assert r[..n] == ss[..i] + ss[i + 1..] && r[n + 1..] == [];
  }

  lemma QuitarUltimo(s: seq<int>, x: int)
    requires x !in s
    ensures Quitar(s + [x], x) == s
  {
    if s == [] {
      assert s + [x] == [x];
    } else {
      assert (s + [x])[1..] == s[1..] + [x];
      QuitarUltimo(s[1..], x);
    }
  }

  /** The processor leaves the executing list and returns to its end. */
  lemma CpusRota(cpus: seq<Conexion>, enEjecucion: seq<int>, lugar: map<nat, Lugar>, fd: int)
    requires CpusBien(cpus, enEjecucion, lugar) && fd in enEjecucion
    ensures CpusBien(cpus, Quitar(enEjecucion, fd) + [fd], lugar)
    ensures |Quitar(enEjecucion, fd) + [fd]| == |enEjecucion|
    ensures Quitar(Quitar(enEjecucion, fd) + [fd], fd) == Quitar(enEjecucion, fd)
  {
    QuitarMiembros(enEjecucion, fd);
    QuitarUltimo(Quitar(enEjecucion, fd), fd);
    hide Quitar, IndiceCpu;
    var e := Quitar(enEjecucion, fd) + [fd];
    assert forall y :: y in e <==> y in enEjecucion;
    forall j | 0 <= j < |cpus|
      ensures CpuBien(cpus[j], e, lugar)
    {
      assert CpuBien(cpus[j], enEjecucion, lugar);
    }
  }

  function MarcaSem(m: Marca, id: string, h: Historia): Marca {
    m.(historia := m.historia[id := h])
  }

  /** A semaphore keeps its queue and changes its value along with its life. */
  lemma SoloValor(k: Kernel, m: Marca, s: Semaforo, h: Historia)
    requires Inv(k, m) && ExisteSem(k.semaforos, s.id) && s.cola == Sem(k.semaforos, s.id).cola && SemBien(s, h)
    ensures Inv(k.(semaforos := CambiarSem(k.semaforos, s)), MarcaSem(m, s.id, h))
  {
    var ss := k.semaforos;
    var v := Sem(ss, s.id);
    assert v in ss && Lista(v.cola, m.lugar, EnCola(s.id)) && Copias(v.cola, m.volvieron);
    SemsCambia(ss, s, m.historia, h);
    ColasCambia(ss, s, m.lugar, m.lugar);
    CopiasCambia(ss, s, m.volvieron);
    TotalColaCambia(ss, s);
    hide Lista, CpusBien, ColasBien, SemsBien, EstadosBien, SinVolver, RefsBien, ColasDeCopias, Creados, FilaBien;
  }

  /** What a run knows of a semaphore. */
  lemma SemEra(k: Kernel, m: Marca, id: string)
    requires Inv(k, m) && ExisteSem(k.semaforos, id)
    ensures id in m.historia && SemBien(Sem(k.semaforos, id), m.historia[id])
    ensures IdsDistintos(k.semaforos)
  {
  }

  /** The lists of a semaphore's life after a message; `b` is who blocks and `d` who wakes. */
  function Vive(h: Historia, espera: nat, senial: nat, b: seq<nat>, d: seq<nat>): Historia {
    Historia(h.inicial, h.esperas + espera, h.seniales + senial, h.bloqueados + b, h.despertados + d)
  }

  function MarcaEsperar(k: Kernel, m: Marca, fd: int, id: string, falla: bool): Marca
    requires ExisteSem(k.semaforos, id) && id in m.historia
  {
    var s, h, p := Sem(k.semaforos, id), m.historia[id], ProcesoEn(k, fd);
    if s.valor >= 1 then MarcaSem(m, id, Vive(h, 1, 0, [], []))
    else if falla then m
    else MarcaSem(MarcaVuelve(k, m, fd, EnCola(id)), id, Vive(h, 1, 0, [p], []))
  }

  lemma Rotar(k: Kernel, m: Marca, fd: int)
    requires Inv(k, m) && fd in k.enEjecucion
    ensures Inv(k.(enEjecucion := Quitar(k.enEjecucion, fd) + [fd]), m)
    ensures Quitar(Quitar(k.enEjecucion, fd) + [fd], fd) == Quitar(k.enEjecucion, fd)
  {
    CpusRota(k.cpus, k.enEjecucion, m.lugar, fd);
    hide Lista, CpusBien, ColasBien, SemsBien, EstadosBien, SinVolver, RefsBien, ColasDeCopias, Creados, FilaBien;
  }

  /** One process moves in or out of the queue of one semaphore; the others' queues stay. */
  lemma ColasMueve(ss: seq<Semaforo>, s: Semaforo, lugar: map<nat, Lugar>, p: nat, l: Lugar)
    requires IdsDistintos(ss) && ExisteSem(ss, s.id) && ColasBien(ss, lugar)
    requires Lista(s.cola, lugar[p := l], EnCola(s.id))
    requires l.EnCola? ==> l.id == s.id
    requires p in lugar && (lugar[p].EnCola? ==> lugar[p].id == s.id)
    ensures ColasBien(CambiarSem(ss, s), lugar[p := l])
  {
    hide CambiarSem, ExisteSem, Lista;
    forall x | x in ss && x.id != s.id
      ensures Lista(x.cola, lugar[p := l], EnCola(x.id))
    {
      ListaAjena(x.cola, lugar, EnCola(x.id), p, l);
    }
    ColasCambia(ss, s, lugar, lugar[p := l]);
  }

  lemma SemEn(ss: seq<Semaforo>, m: Marca, id: string)
    requires SemsBien(ss, m.historia) && ColasBien(ss, m.lugar) && ColasDeCopias(ss, m.volvieron) && ExisteSem(ss, id)
    ensures id in m.historia && SemBien(Sem(ss, id), m.historia[id]) && Lista(Sem(ss, id).cola, m.lugar, EnCola(id))
    ensures Copias(Sem(ss, id).cola, m.volvieron) && IdsDistintos(ss)
  {
  }

  lemma VidaBloquea(s: Semaforo, h: Historia, p: nat)
    requires SemBien(s, h) && s.valor < 1
    ensures SemBien(s.(valor := s.valor - 1, cola := s.cola + [Ref(p, false)]), Vive(h, 1, 0, [p], []))
  {
  }

  /** A wait or a signal that moves nobody. */
  lemma VidaSigue(s: Semaforo, h: Historia, espera: nat, senial: nat)
    requires SemBien(s, h) && s.valor - espera + senial >= 0 && s.valor >= 0
    ensures SemBien(s.(valor := s.valor - espera + senial), Vive(h, espera, senial, [], []))
  {
  }

  /** The semaphores after a process joins a queue. */
  lemma SemsBloquea(ss: seq<Semaforo>, m: Marca, p: nat, id: string, h: Historia)
    requires SemsBien(ss, m.historia) && ColasBien(ss, m.lugar) && ColasDeCopias(ss, m.volvieron)
    requires ExisteSem(ss, id) && Sem(ss, id).valor < 1 && id in m.historia && h == m.historia[id]
    requires p in m.lugar && m.lugar[p].EnCpu?
    ensures var s := Sem(ss, id);
      var s2 := s.(valor := s.valor - 1, cola := s.cola + [Ref(p, false)]);
      && SemsBien(CambiarSem(ss, s2), m.historia[id := Vive(h, 1, 0, [p], [])])
      && ColasBien(CambiarSem(ss, s2), m.lugar[p := EnCola(id)])
      && ColasDeCopias(CambiarSem(ss, s2), m.volvieron + {p})
      && TotalCola(CambiarSem(ss, s2)) == TotalCola(ss) + 1
  {
    var s := Sem(ss, id);
    var s2 := s.(valor := s.valor - 1, cola := s.cola + [Ref(p, false)]);
    SemEn(ss, m, id);
    hide IndiceSem, CambiarSem, SemBien, Lista, Copias, Vive, Pids, ColasBien, SemsBien, ColasDeCopias, TotalCola,
      IdsDistintos;
    VidaBloquea(s, h, p);
    SemsCambia(ss, s2, m.historia, Vive(h, 1, 0, [p], []));
    ListaAgrega(s.cola, m.lugar, EnCola(id), Ref(p, false));
    ColasMueve(ss, s2, m.lugar, p, EnCola(id));
    CopiasMas(s.cola, m.volvieron, p);
    CopiasVuelve(ss, m.volvieron, p);
    CopiasCambia(ss, s2, m.volvieron + {p});
    TotalColaCambia(ss, s2);
  }

  lemma CopiasVuelve(ss: seq<Semaforo>, volvieron: set<nat>, p: nat)
    requires ColasDeCopias(ss, volvieron)
    ensures ColasDeCopias(ss, volvieron + {p})
  {
  }

  /** The running process joins the semaphore's queue. */
  lemma BloquearInv(k: Kernel, m: Marca, fd: int, id: string)
    requires Inv(k, m) && Ejecuta(k, fd) && ExisteSem(k.semaforos, id) && Sem(k.semaforos, id).valor < 1
    requires id in m.historia
    ensures var p, s := ProcesoEn(k, fd), Sem(k.semaforos, id);
      var s2 := s.(valor := s.valor - 1, cola := s.cola + [Ref(p, false)]);
      Inv(Soltar(k, fd).(estados := k.estados[p := Block], semaforos := CambiarSem(k.semaforos, s2)),
          MarcaEsperar(k, m, fd, id, false))
  {
    hide Lista, CpusBien, ColasBien, SemsBien, EstadosBien, SinVolver, RefsBien, ColasDeCopias, Creados, FilaBien,
      IndiceCpu, Quitar, IndiceSem, CambiarSem, Vive;
    var p, l := ProcesoEn(k, fd), EnCola(id);
    SoltarAjeno(k, m, fd, l);
    SemsBloquea(k.semaforos, m, p, id, m.historia[id]);
    ListaAjena(k.nuevos, m.lugar, EnNuevos, p, l);
    ListaAjena(k.listos, m.lugar, EnListos, p, l);
    ListaAjena(k.salida, m.lugar, EnSalida, p, l);
  }

  lemma CopiasMas(s: seq<Ref>, volvieron: set<nat>, p: nat)
    requires Copias(s, volvieron)
    ensures Copias(s + [Ref(p, false)], volvieron + {p})
  {
  }

  /** A wait, with each change of the semaphore list counted once. */
  lemma EsperarForma(k: Kernel, fd: int, id: string, falla: bool)
    requires Ejecuta(k, fd) && ExisteSem(k.semaforos, id) && IdsDistintos(k.semaforos)
    ensures var s, p := Sem(k.semaforos, id), ProcesoEn(k, fd);
      var e := k.(enEjecucion := Quitar(k.enEjecucion, fd) + [fd]);
      var s1 := s.(valor := s.valor - 1);
      Esperar(k, fd, id, falla)
      == if s.valor >= 1 then e.(semaforos := CambiarSem(k.semaforos, s1))
         else if falla then e.(semaforos := CambiarSem(k.semaforos, s))
         else Soltar(e, fd).(estados := k.estados[p := Block],
                             semaforos := CambiarSem(k.semaforos, s1.(cola := s.cola + [Ref(p, false)])))
  {
    hide CambiarSem, IndiceSem, IndiceCpu, Quitar, IdsDistintos;
    var s := Sem(k.semaforos, id);
    var s1 := s.(valor := s.valor - 1);
    CambiarDos(k.semaforos, s1, s);
    CambiarDos(k.semaforos, s1, s1.(cola := s.cola + [Ref(ProcesoEn(k, fd), false)]));
  }

  lemma EsperarPasa(k: Kernel, m: Marca, fd: int, id: string, falla: bool)
    requires Inv(k, m) && Ejecuta(k, fd) && ExisteSem(k.semaforos, id) && Sem(k.semaforos, id).valor >= 1
    ensures id in m.historia
    ensures Inv(Esperar(k, fd, id, falla), MarcaEsperar(k, m, fd, id, falla))
  {
    hide Inv, Quitar, IndiceCpu, CambiarSem, IndiceSem, IdsDistintos, Esperar, Vive, Pids, SemBien, Soltar;
    var s := Sem(k.semaforos, id);
    SemEra(k, m, id);
    Rotar(k, m, fd);
    EsperarForma(k, fd, id, falla);
    VidaSigue(s, m.historia[id], 1, 0);
    var e := k.(enEjecucion := Quitar(k.enEjecucion, fd) + [fd]);
    SoloValor(e, m, s.(valor := s.valor - 1), Vive(m.historia[id], 1, 0, [], []));
  }

  /** A wait cancelled because its process could not be received leaves no trace. */
  lemma EsperarCancelado(k: Kernel, m: Marca, fd: int, id: string)
    requires Inv(k, m) && Ejecuta(k, fd) && ExisteSem(k.semaforos, id) && Sem(k.semaforos, id).valor < 1
    ensures id in m.historia
    ensures Inv(Esperar(k, fd, id, true), MarcaEsperar(k, m, fd, id, true))
  {
    hide Inv, Quitar, IndiceCpu, CambiarSem, IndiceSem, IdsDistintos, Esperar, Vive, Pids, SemBien, Soltar;
    var s := Sem(k.semaforos, id);
    SemEra(k, m, id);
    Rotar(k, m, fd);
    EsperarForma(k, fd, id, true);
    var e := k.(enEjecucion := Quitar(k.enEjecucion, fd) + [fd]);
    SoloValor(e, m, s, m.historia[id]);
    assert m.historia[id := m.historia[id]] == m.historia;
  }

  lemma EsperarBloquea(k: Kernel, m: Marca, fd: int, id: string)
    requires Inv(k, m) && Ejecuta(k, fd) && ExisteSem(k.semaforos, id) && Sem(k.semaforos, id).valor < 1
    ensures id in m.historia
    ensures Inv(Esperar(k, fd, id, false), MarcaEsperar(k, m, fd, id, false))
  {
    hide Inv, Quitar, IndiceCpu, CambiarSem, IndiceSem, IdsDistintos, Esperar, Vive, Pids, SemBien, Soltar;
    SemEra(k, m, id);
    Rotar(k, m, fd);
    EsperarForma(k, fd, id, false);
    BloquearInv(k.(enEjecucion := Quitar(k.enEjecucion, fd) + [fd]), m, fd, id);
  }

  lemma EsperarInv(k: Kernel, m: Marca, fd: int, id: string, falla: bool)
    requires Inv(k, m) && Ejecuta(k, fd) && ExisteSem(k.semaforos, id)
    ensures id in m.historia
    ensures Inv(Esperar(k, fd, id, falla), MarcaEsperar(k, m, fd, id, falla))
  {
    SemEra(k, m, id);
    hide Inv, Esperar, MarcaEsperar;
    if Sem(k.semaforos, id).valor >= 1 {
      EsperarPasa(k, m, fd, id, falla);
    } else if falla {
      EsperarCancelado(k, m, fd, id);
    } else {
      EsperarBloquea(k, m, fd, id);
    }
  }

  function MarcaAvisar(k: Kernel, m: Marca, id: string): Marca
    requires ExisteSem(k.semaforos, id) && id in m.historia
  {
    var s, h := Sem(k.semaforos, id), m.historia[id];
    if |s.cola| > 0 then
      MarcaSem(m.(lugar := m.lugar[s.cola[0].pid := EnListos], fila := Entra(m.fila, s.cola[0].pid)), id,
          Vive(h, 0, 1, [], [s.cola[0].pid]))
    else MarcaSem(m, id, Vive(h, 0, 1, [], []))
  }

  lemma VidaDespierta(s: Semaforo, h: Historia)
    requires SemBien(s, h) && |s.cola| > 0
    ensures SemBien(s.(valor := s.valor + 1, cola := s.cola[1..]), Vive(h, 0, 1, [], [s.cola[0].pid]))
  {
  }

  lemma CopiasSaca(s: seq<Ref>, volvieron: set<nat>)
    requires Copias(s, volvieron) && s != []
    ensures Copias(s[1..], volvieron) && !s[0].original && s[0].pid in volvieron
  {
  }

  /** The semaphores after the first of a queue leaves it. */
  lemma SemsDespierta(ss: seq<Semaforo>, m: Marca, id: string, h: Historia)
    requires SemsBien(ss, m.historia) && ColasBien(ss, m.lugar) && ColasDeCopias(ss, m.volvieron)
    requires ExisteSem(ss, id) && |Sem(ss, id).cola| > 0 && id in m.historia && h == m.historia[id]
    ensures var s := Sem(ss, id);
      var s2 := s.(valor := s.valor + 1, cola := s.cola[1..]);
      var p := s.cola[0].pid;
      && SemsBien(CambiarSem(ss, s2), m.historia[id := Vive(h, 0, 1, [], [p])])
      && p in m.lugar && m.lugar[p] == EnCola(id) && p in m.volvieron && !s.cola[0].original
      && ColasBien(CambiarSem(ss, s2), m.lugar[p := EnListos])
      && ColasDeCopias(CambiarSem(ss, s2), m.volvieron)
      && TotalCola(CambiarSem(ss, s2)) == TotalCola(ss) - 1
  {
    var s := Sem(ss, id);
    var s2 := s.(valor := s.valor + 1, cola := s.cola[1..]);
    var p := s.cola[0].pid;
    SemEn(ss, m, id);
    hide IndiceSem, CambiarSem, SemBien, Lista, Copias, Vive, Pids, ColasBien, SemsBien, ColasDeCopias, TotalCola,
      IdsDistintos;
    VidaDespierta(s, h);
    CopiasSaca(s.cola, m.volvieron);
    SemsCambia(ss, s2, m.historia, Vive(h, 0, 1, [], [p]));
    ListaSaca(s.cola, m.lugar, EnCola(id), EnListos);
    ColasMueve(ss, s2, m.lugar, p, EnListos);
    CopiasCambia(ss, s2, m.volvieron);
    TotalColaCambia(ss, s2);
  }

  lemma DespertarInv(k: Kernel, m: Marca, id: string)
    requires Inv(k, m) && ExisteSem(k.semaforos, id) && id in m.historia && |Sem(k.semaforos, id).cola| > 0
    ensures Inv(Avisar(k, id), MarcaAvisar(k, m, id))
  {
    hide Lista, CpusBien, ColasBien, SemsBien, EstadosBien, SinVolver, RefsBien, ColasDeCopias, Creados, FilaBien,
      IndiceSem, CambiarSem, Vive;
    var l := EnListos;
    var r := Sem(k.semaforos, id).cola[0];
    var p := r.pid;
    SemsDespierta(k.semaforos, m, id, m.historia[id]);
    ListaAgrega(k.listos, m.lugar, l, r);
    RefsAgrega(k.listos, m.volvieron, r);
    FilaEntra(k.listos, m.fila, r);
    ListaAjena(k.nuevos, m.lugar, EnNuevos, p, l);
    ListaAjena(k.salida, m.lugar, EnSalida, p, l);
    CpusAjena(k.cpus, k.enEjecucion, m.lugar, p, l);
    CreadosMueve(m.lugar, k.pid, p, l);
    EstadosCambia(k.estados, m.lugar, m.volvieron, p, l, Ready);
  }

  lemma AvisarInv(k: Kernel, m: Marca, id: string)
    requires Inv(k, m) && ExisteSem(k.semaforos, id)
    ensures id in m.historia
    ensures Inv(Avisar(k, id), MarcaAvisar(k, m, id))
  {
    SemEra(k, m, id);
    var s, h := Sem(k.semaforos, id), m.historia[id];
    hide Inv, CambiarSem, IndiceSem, IdsDistintos, Vive, Pids;
    if |s.cola| > 0 {
      DespertarInv(k, m, id);
    } else {
      VidaSigue(s, h, 0, 1);
      SoloValor(k, m, s.(valor := s.valor + 1), Vive(h, 0, 1, [], []));
    }
  }

  lemma ConectarInv(k: Kernel, m: Marca, fd: int)
    requires Inv(k, m) && forall i :: 0 <= i < |k.cpus| ==> k.cpus[i].fd != fd
    ensures Inv(Conectar(k, fd), m)
  {
    CpusMas(k.cpus, k.enEjecucion, m.lugar, fd);
    hide Lista, CpusBien, ColasBien, SemsBien, EstadosBien, SinVolver, RefsBien, ColasDeCopias, Creados, FilaBien;
  }

  lemma CpusMas(cpus: seq<Conexion>, enEjecucion: seq<int>, lugar: map<nat, Lugar>, fd: int)
    requires CpusBien(cpus, enEjecucion, lugar) && forall i :: 0 <= i < |cpus| ==> cpus[i].fd != fd
    ensures CpusBien(cpus + [Conexion(fd, 0)], enEjecucion, lugar)
  {
    var c := cpus + [Conexion(fd, 0)];
    assert fd !in enEjecucion;
    forall f
      ensures IndiceCpu(cpus, f) < |cpus| ==> IndiceCpu(c, f) == IndiceCpu(cpus, f)
    {
      IndicePrefijo(cpus, [Conexion(fd, 0)], f);
    }
    forall j | 0 <= j < |c|
      ensures CpuBien(c[j], enEjecucion, lugar)
    {
      if j < |cpus| {
        assert CpuBien(cpus[j], enEjecucion, lugar);
      }
    }
    forall q | q in lugar && lugar[q].EnCpu?
      ensures CpuDe(c, lugar[q].fd, q)
    {
      assert CpuDe(cpus, lugar[q].fd, q);
    }
  }

  lemma {:induction false} IndicePrefijo(a: seq<Conexion>, b: seq<Conexion>, fd: int)
    ensures IndiceCpu(a, fd) < |a| ==> IndiceCpu(a + b, fd) == IndiceCpu(a, fd)
  {
    if a != [] && a[0].fd != fd {
      assert (a + b)[1..] == a[1..] + b;
      IndicePrefijo(a[1..], b, fd);
    }
  }

  // ---------------------------------------------------------------- whole runs

  datatype Mensaje =
    | Script(respuesta: int)
    | Pasada(respuesta: int)
    | FinRafaga(fd: int)
    | Wait(fd: int, id: string, falla: bool)
    | Signal(id: string)
    | Fin(fd: int)
    | NuevaCpu(fd: int)

  /** Processors speak only while they run something, semaphores exist, and a new socket is new. */
  predicate Admisible(k: Kernel, x: Mensaje) {
    match x
    case Script(_) => true
    case Pasada(_) => true
    case FinRafaga(fd) => Ejecuta(k, fd)
    case Wait(fd, id, _) => Ejecuta(k, fd) && ExisteSem(k.semaforos, id)
    case Signal(id) => ExisteSem(k.semaforos, id)
    case Fin(fd) => Ejecuta(k, fd)
    case NuevaCpu(fd) => forall i :: 0 <= i < |k.cpus| ==> k.cpus[i].fd != fd
  }

  /** A finishing process is not listed as blocked. */
  predicate Terminable(k: Kernel, x: Mensaje) {
    x.Fin? ==> ProcesoEn(k, x.fd) in k.estados && k.estados[ProcesoEn(k, x.fd)] != Block
  }

  function Atender(k: Kernel, x: Mensaje): Kernel
    requires Admisible(k, x) && Terminable(k, x)
  {
    match x
    case Script(r) => Admitir(k, r)
    case Pasada(r) => Despachar(Cargar(k, r))
    case FinRafaga(fd) => FinDeRafaga(k, fd)
    case Wait(fd, id, falla) => Esperar(k, fd, id, falla)
    case Signal(id) => Avisar(k, id)
    case Fin(fd) => Terminar(k, fd)
    case NuevaCpu(fd) => Conectar(k, fd)
  }

  ghost function Anotar(k: Kernel, m: Marca, x: Mensaje): Marca
    requires Inv(k, m) && Admisible(k, x)
  {
    match x
    case Script(r) => MarcaAdmitir(k, m, r)
    case Pasada(r) => MarcaDespachar(Cargar(k, r), MarcaCargar(k, m, r))
    case FinRafaga(fd) => MarcaVuelve(k, m, fd, EnListos)
    case Wait(fd, id, falla) => EsperarInv(k, m, fd, id, falla); MarcaEsperar(k, m, fd, id, falla)
    case Signal(id) => AvisarInv(k, m, id); MarcaAvisar(k, m, id)
    case Fin(fd) => MarcaVuelve(k, m, fd, EnSalida)
    case NuevaCpu(fd) => m
  }

  /** Every message keeps the invariant. */
  lemma AtenderInv(k: Kernel, m: Marca, x: Mensaje)
    requires Inv(k, m) && Admisible(k, x)
    ensures Terminable(k, x) && Inv(Atender(k, x), Anotar(k, m, x))
  {
    hide Inv, Admitir, Cargar, Despachar, FinDeRafaga, Esperar, Avisar, Terminar, Conectar, MarcaAdmitir, MarcaCargar;
    hide MarcaDespachar, MarcaVuelve, MarcaEsperar, MarcaAvisar, ExisteSem, IndiceSem, IndiceCpu;
    match x
    case Script(r) => AdmitirInv(k, m, r);
    case Pasada(r) =>
      CargarInv(k, m, r);
      DespacharInv(Cargar(k, r), MarcaCargar(k, m, r));
    case FinRafaga(fd) => RafagaInv(k, m, fd);
    case Wait(fd, id, falla) => EsperarInv(k, m, fd, id, falla);
    case Signal(id) => AvisarInv(k, m, id);
    case Fin(fd) => TerminarInv(k, m, fd);
    case NuevaCpu(fd) => ConectarInv(k, m, fd);
  }

  /** The kernel at startup: nobody connected, and each semaphore with its configured value. */
  function Inicial(grado: int, semaforos: seq<Semaforo>): Kernel {
    Kernel(grado, 0, 0, [], [], [], [], [], semaforos, map[])
  }

  predicate SemaforosIniciales(ss: seq<Semaforo>) {
    IdsDistintos(ss) && forall s :: s in ss ==> s.valor >= 0 && s.cola == []
  }

  ghost function MarcaInicial(ss: seq<Semaforo>): Marca
    requires IdsDistintos(ss)
  {
    Marca(map[], {}, map s: Semaforo | s in ss :: s.id := Historia(s.valor, 0, 0, [], []), Fila([], []))
  }

  lemma InicialInv(grado: int, ss: seq<Semaforo>)
    requires SemaforosIniciales(ss)
    ensures Inv(Inicial(grado, ss), MarcaInicial(ss))
  {
    hide MarcaInicial, SemsBien, IdsDistintos, ColasBien, ColasDeCopias, CpusBien, Lista, TotalCola;
    SemsIniciales(ss);
    SinColas(ss);
    MarcaVacia(ss);
    ColasIniciales(ss);
    ListaVacia(EnNuevos);
    ListaVacia(EnListos);
    ListaVacia(EnSalida);
    SinCpus();
  }

  lemma ColasIniciales(ss: seq<Semaforo>)
    requires forall s :: s in ss ==> s.cola == []
    ensures ColasBien(ss, map[]) && ColasDeCopias(ss, {})
  {
  }

  lemma ListaVacia(l: Lugar)
    ensures Lista([], map[], l)
  {
  }

  lemma SinCpus()
    ensures CpusBien([], [], map[])
  {
  }

  lemma MarcaVacia(ss: seq<Semaforo>)
    requires IdsDistintos(ss)
    ensures var m := MarcaInicial(ss);
      m.lugar == map[] && m.volvieron == {} && m.fila == Fila([], [])
  {
  }

  lemma SemsIniciales(ss: seq<Semaforo>)
    requires SemaforosIniciales(ss)
    ensures SemsBien(ss, MarcaInicial(ss).historia)
  {
    var m := MarcaInicial(ss);
    forall s | s in ss
      ensures s.id in m.historia && m.historia[s.id] == Historia(s.valor, 0, 0, [], [])
    {
      SemDe(ss, s);
      forall t | t in ss && t.id == s.id
        ensures t == s
      {
        SemDe(ss, t);
      }
    }
  }

  lemma {:induction false} SinColas(ss: seq<Semaforo>)
    requires forall s :: s in ss ==> s.cola == []
    ensures TotalCola(ss) == 0
  {
    if ss != [] {
      assert ss[0] in ss;
      SinColas(ss[1..]);
    }
  }

  /** A run from startup in which every message is admissible when it arrives. */
  ghost predicate Posible(grado: int, ss: seq<Semaforo>, xs: seq<Mensaje>)
    requires SemaforosIniciales(ss)
    decreases |xs|, 0
  {
    xs == [] ||
    (var n := |xs| - 1;
     Posible(grado, ss, xs[..n]) && Admisible(Correr(grado, ss, xs[..n]).0, xs[n]))
  }

  ghost function Correr(grado: int, ss: seq<Semaforo>, xs: seq<Mensaje>): (Kernel, Marca)
    requires SemaforosIniciales(ss) && Posible(grado, ss, xs)
    decreases |xs|, 1
  {
    hide Inv;
    if xs == [] then (Inicial(grado, ss), MarcaInicial(ss)) else
      var n := |xs| - 1;
      CorridaInv(grado, ss, xs[..n]);
      var (k, m) := Correr(grado, ss, xs[..n]);
      AtenderInv(k, m, xs[n]);
      (Atender(k, xs[n]), Anotar(k, m, xs[n]))
  }

  /** The invariant holds after every run. */
  lemma {:induction false} CorridaInv(grado: int, ss: seq<Semaforo>, xs: seq<Mensaje>)
    requires SemaforosIniciales(ss) && Posible(grado, ss, xs)
    ensures Inv(Correr(grado, ss, xs).0, Correr(grado, ss, xs).1)
    decreases |xs|, 2
  {
    hide Inv, Inicial, MarcaInicial;
    if xs == [] {
      InicialInv(grado, ss);
    } else {
      var n := |xs| - 1;
      CorridaInv(grado, ss, xs[..n]);
      var (k, m) := Correr(grado, ss, xs[..n]);
      AtenderInv(k, m, xs[n]);
    }
  }

  /**
   * After any run the processes in memory are those ready, running or blocked, and never more than the degree allows.
   */
  lemma Multiprogramacion(grado: int, ss: seq<Semaforo>, xs: seq<Mensaje>)
    requires SemaforosIniciales(ss) && Posible(grado, ss, xs)
    ensures var k := Correr(grado, ss, xs).0;
      && k.procesosActuales == |k.listos| + |k.enEjecucion| + TotalCola(k.semaforos)
      && 0 <= k.procesosActuales && (grado >= 0 ==> k.procesosActuales <= grado)
  {
    CorridaInv(grado, ss, xs);
    GradoFijo(grado, ss, xs);
    hide Correr;
  }

  lemma {:induction false} GradoFijo(grado: int, ss: seq<Semaforo>, xs: seq<Mensaje>)
    requires SemaforosIniciales(ss) && Posible(grado, ss, xs)
    ensures Correr(grado, ss, xs).0.grado == grado
  {
    hide Inv;
    if xs != [] {
      CorridaInv(grado, ss, xs[..|xs| - 1]);
      GradoFijo(grado, ss, xs[..|xs| - 1]);
      hide IndiceCpu, IndiceSem, CambiarSem, Quitar;
    }
  }
}
