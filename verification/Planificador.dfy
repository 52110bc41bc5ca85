/** The kernel's queues, processors and semaphores, and the messages that move processes among them. */
module Planificador {
  import opened Listas

  datatype Estado = Nuevo | Ready | Exec | Block | Exit

  /** An entry of a queue: a process, and whether it is the block the process list holds or a copy received later. */
  datatype Ref = Ref(pid: nat, original: bool)

  datatype Semaforo = Semaforo(id: string, valor: int, cola: seq<Ref>)

  /** A connected processor; process 0 means none. */
  datatype Conexion = Conexion(fd: int, proceso: nat)

  datatype Kernel = Kernel(
    grado: int, pid: nat, procesosActuales: int,
    nuevos: seq<Ref>, listos: seq<Ref>, salida: seq<Ref>,
    cpus: seq<Conexion>, enEjecucion: seq<int>, semaforos: seq<Semaforo>, estados: map<nat, Estado>)

  // ---------------------------------------------------------------- lists

  /** The entries of a queue that are not of a process, in order. */
  function SinProceso(s: seq<Ref>, pid: nat): (r: seq<Ref>)
    ensures |r| <= |s|
  {
    if s == [] then [] else
      (if s[0].pid == pid then [] else [s[0]]) + SinProceso(s[1..], pid)
  }

  /** A queue of one entry keeps it exactly when it is of another process. */
  lemma SinProcesoUno(x: Ref, pid: nat)
    ensures SinProceso([], pid) == [] && SinProceso([x], pid) == if x.pid == pid then [] else [x]
  {
    assert [x][1..] == [];
  }

  /** What one part of a queue keeps does not depend on the rest, nor does its place. */
  lemma {:induction false} SinProcesoPartes(a: seq<Ref>, b: seq<Ref>, pid: nat)
    ensures SinProceso(a + b, pid) == SinProceso(a, pid) + SinProceso(b, pid)
  {
    if a == [] {
      assert a + b == b;
    } else {
      assert (a + b)[0] == a[0] && (a + b)[1..] == a[1..] + b;
      SinProcesoPartes(a[1..], b, pid);
    }
  }

  /** The position of a semaphore, or the length of the list. */
  function IndiceSem(ss: seq<Semaforo>, id: string): (i: nat)
    ensures i <= |ss| && (i < |ss| ==> ss[i].id == id)
  {
    if ss == [] || ss[0].id == id then 0 else 1 + IndiceSem(ss[1..], id)
  }

  /** No semaphore before the answer has the name. */
  lemma {:induction false} IndiceSemPrimero(ss: seq<Semaforo>, id: string, j: nat)
    requires j < IndiceSem(ss, id)
    ensures ss[j].id != id
  {
    if j > 0 {
      IndiceSemPrimero(ss[1..], id, j - 1);
    }
  }

  predicate ExisteSem(ss: seq<Semaforo>, id: string) {
    IndiceSem(ss, id) < |ss|
  }

  function Sem(ss: seq<Semaforo>, id: string): (s: Semaforo)
    requires ExisteSem(ss, id)
    ensures s.id == id
  {
    ss[IndiceSem(ss, id)]
  }

  /** Takes the semaphore out of the list and puts the new one at the end. */
  function CambiarSem(ss: seq<Semaforo>, s: Semaforo): (r: seq<Semaforo>)
    requires ExisteSem(ss, s.id)
    ensures |r| == |ss|
  {
    var i := IndiceSem(ss, s.id);
    ss[..i] + ss[i + 1..] + [s]
  }

  /** The first processor that is not executing, or the number of processors. */
  function CpuLibre(cpus: seq<Conexion>, enEjecucion: seq<int>): (i: nat)
    ensures i <= |cpus| && (i < |cpus| ==> cpus[i].fd !in enEjecucion)
  {
    if cpus == [] || cpus[0].fd !in enEjecucion then 0 else 1 + CpuLibre(cpus[1..], enEjecucion)
  }

  function IndiceCpu(cpus: seq<Conexion>, fd: int): (i: nat)
    ensures i <= |cpus| && (i < |cpus| ==> cpus[i].fd == fd)
  {
    if cpus == [] || cpus[0].fd == fd then 0 else 1 + IndiceCpu(cpus[1..], fd)
  }

  /** Every processor before the first free one is executing. */
  lemma {:induction false} CpuLibrePrimera(cpus: seq<Conexion>, enEjecucion: seq<int>, j: nat)
    requires j < CpuLibre(cpus, enEjecucion)
    ensures cpus[j].fd in enEjecucion
  {
    if j > 0 {
      CpuLibrePrimera(cpus[1..], enEjecucion, j - 1);
    }
  }

  lemma {:induction false} IndiceCpuPrimero(cpus: seq<Conexion>, fd: int, j: nat)
    requires j < IndiceCpu(cpus, fd)
    ensures cpus[j].fd != fd
  {
    if j > 0 {
      IndiceCpuPrimero(cpus[1..], fd, j - 1);
    }
  }

  // ---------------------------------------------------------------- the messages

  /** What a processor connected as `fd` is running. */
  function ProcesoEn(k: Kernel, fd: int): nat {
    var i := IndiceCpu(k.cpus, fd);
    if i < |k.cpus| then k.cpus[i].proceso else 0
  }

  /** Memory answers how many pages the process got, or a negative number. */
  function Guardado(k: Kernel, r: Ref, respuesta: int): Kernel {
    if respuesta > 0 then
      k.(estados := k.estados[r.pid := Ready], listos := k.listos + [r], procesosActuales := k.procesosActuales + 1)
    else if respuesta < 0 then
      k.(estados := k.estados[r.pid := Exit], salida := k.salida + [r])
    else k
  }

  /** A script arrives. */
  function Admitir(k: Kernel, respuesta: int): Kernel {
    var p := k.pid + 1;
    var e := k.(pid := p, estados := k.estados[p := Nuevo]);
    if k.procesosActuales < k.grado then Guardado(e, Ref(p, true), respuesta)
    else e.(nuevos := e.nuevos + [Ref(p, true)])
  }

  /** First half of a scheduler pass: the oldest waiting script, when there is room. */
  function Cargar(k: Kernel, respuesta: int): Kernel {
    if |k.nuevos| > 0 && k.procesosActuales < k.grado
    then Guardado(k.(nuevos := k.nuevos[1..]), k.nuevos[0], respuesta)
    else k
  }

  /** Second half: the oldest ready process goes to the first free processor. */
  function Despachar(k: Kernel): Kernel {
    var i := CpuLibre(k.cpus, k.enEjecucion);
    if |k.listos| > 0 && i < |k.cpus| then
      var r := k.listos[0];
      k.(enEjecucion := k.enEjecucion + [k.cpus[i].fd],
         listos := k.listos[1..],
         cpus := k.cpus[i := k.cpus[i].(proceso := r.pid)],
         estados := if r.original then k.estados[r.pid := Exec] else k.estados)
    else k
  }

  /** Frees the processor: out of the executing list, and running nothing. */
  function Soltar(k: Kernel, fd: int): Kernel
    requires IndiceCpu(k.cpus, fd) < |k.cpus|
  {
    var i := IndiceCpu(k.cpus, fd);
    k.(enEjecucion := Quitar(k.enEjecucion, fd), cpus := k.cpus[i := k.cpus[i].(proceso := 0)])
  }

  /** The processor `fd` runs a process. */
  predicate Ejecuta(k: Kernel, fd: int) {
    fd in k.enEjecucion && IndiceCpu(k.cpus, fd) < |k.cpus|
  }

  function FinDeRafaga(k: Kernel, fd: int): Kernel
    requires Ejecuta(k, fd)
  {
    var p := ProcesoEn(k, fd);
    Soltar(k, fd).(estados := k.estados[p := Ready], listos := k.listos + [Ref(p, false)])
  }

  /** A wait; `falla` says the connection broke while the blocked process was being received. */
  function Esperar(k: Kernel, fd: int, id: string, falla: bool): Kernel
    requires Ejecuta(k, fd) && ExisteSem(k.semaforos, id)
  {
    var p := ProcesoEn(k, fd);
    var s := Sem(k.semaforos, id);
    var s1 := s.(valor := s.valor - 1);
    var ss := CambiarSem(k.semaforos, s1);
    var e := k.(enEjecucion := Quitar(k.enEjecucion, fd) + [fd], semaforos := ss);
    if s1.valor >= 0 then e
    else
      CambiarSemEs(k.semaforos, s1);
      if falla then e.(semaforos := CambiarSem(ss, s))
      else
        var s2 := s1.(cola := s1.cola + [Ref(p, false)]);
        Soltar(e, fd).(estados := k.estados[p := Block], semaforos := CambiarSem(ss, s2))
  }

  function Avisar(k: Kernel, id: string): Kernel
    requires ExisteSem(k.semaforos, id)
  {
    var s := Sem(k.semaforos, id);
    if |s.cola| > 0 then
      var r := s.cola[0];
      k.(semaforos := CambiarSem(k.semaforos, s.(valor := s.valor + 1, cola := s.cola[1..])),
         estados := k.estados[r.pid := Ready], listos := k.listos + [r])
    else k.(semaforos := CambiarSem(k.semaforos, s.(valor := s.valor + 1)))
  }

  /**
   * A process ends well. The queue its listed state names is searched for it; a state of `Block` would mean searching
   * the semaphores, which no run reaches.
   */
  function Terminar(k: Kernel, fd: int): Kernel
    requires Ejecuta(k, fd) && ProcesoEn(k, fd) in k.estados && k.estados[ProcesoEn(k, fd)] != Block
  {
    var p := ProcesoEn(k, fd);
    var e := Soltar(k, fd);
    if k.estados[p] == Exit then e else
      e.(listos := if k.estados[p] == Ready then SinProceso(k.listos, p) else k.listos,
         estados := k.estados[p := Exit],
         procesosActuales := k.procesosActuales - 1,
         salida := k.salida + [Ref(p, true)])
  }

  function Conectar(k: Kernel, fd: int): Kernel {
    k.(cpus := k.cpus + [Conexion(fd, 0)])
  }

  // ---------------------------------------------------------------- list facts

  predicate IdsDistintos(ss: seq<Semaforo>) {
    forall i, j :: 0 <= i < j < |ss| ==> ss[i].id != ss[j].id
  }

  /** Position `a` of the changed list, in the old one. */
  lemma CambiarSemEn(ss: seq<Semaforo>, s: Semaforo, a: nat)
    requires ExisteSem(ss, s.id) && a < |ss|
    ensures var i := IndiceSem(ss, s.id);
      CambiarSem(ss, s)[a] == if a == |ss| - 1 then s else ss[if a < i then a else a + 1]
  {
  }

  /** After a change the semaphore is the new one, and every other one is as it was. */
  lemma CambiarSemEs(ss: seq<Semaforo>, s: Semaforo)
    requires ExisteSem(ss, s.id)
    ensures ExisteSem(CambiarSem(ss, s), s.id)
    ensures IdsDistintos(ss) ==> IdsDistintos(CambiarSem(ss, s)) && Sem(CambiarSem(ss, s), s.id) == s
  {
    var i := IndiceSem(ss, s.id);
    var r := CambiarSem(ss, s);
    CambiarSemEn(ss, s, |r| - 1);
    hide CambiarSem;
    if IndiceSem(r, s.id) == |r| {
      IndiceSemPrimero(r, s.id, |r| - 1);
    }
    if IdsDistintos(ss) {
      forall a, b | 0 <= a < b < |r|
        ensures r[a].id != r[b].id
      {
        CambiarSemEn(ss, s, a);
        CambiarSemEn(ss, s, b);
      }
      var j := IndiceSem(r, s.id);
      CambiarSemEn(ss, s, j);
    }
  }

  /** The semaphores of the changed list are the new one and the old ones with other names. */
  lemma CambiarSemMiembros(ss: seq<Semaforo>, s: Semaforo, x: Semaforo)
    requires ExisteSem(ss, s.id) && IdsDistintos(ss)
    ensures x in CambiarSem(ss, s) <==> x == s || (x in ss && x.id != s.id)
  {
  }

  lemma SemDe(ss: seq<Semaforo>, x: Semaforo)
    requires IdsDistintos(ss) && x in ss
    ensures ExisteSem(ss, x.id) && Sem(ss, x.id) == x
  {
    var b :| 0 <= b < |ss| && ss[b] == x;
    if IndiceSem(ss, x.id) > b {
      IndiceSemPrimero(ss, x.id, b);
    }
  }

  lemma {:induction false} SinProcesoNinguno(s: seq<Ref>, p: nat, i: nat)
    requires i < |SinProceso(s, p)|
    ensures SinProceso(s, p)[i].pid != p
  {
    if s[0].pid == p {
      SinProcesoNinguno(s[1..], p, i);
    } else if i > 0 {
      SinProcesoNinguno(s[1..], p, i - 1);
    }
  }

  /** A process that ends while listed as ready leaves the ready queue; one listed as executing is not sought there. */
  lemma TerminarSaca(k: Kernel, fd: int, i: nat)
    requires Ejecuta(k, fd) && ProcesoEn(k, fd) in k.estados && k.estados[ProcesoEn(k, fd)] != Block
    ensures var p, r := ProcesoEn(k, fd), Terminar(k, fd);
      && (k.estados[p] == Ready && i < |r.listos| ==> r.listos[i].pid != p)
      && (k.estados[p] != Ready ==> r.listos == k.listos)
  {
    hide SinProceso, IndiceCpu, Quitar;
    var p := ProcesoEn(k, fd);
    if k.estados[p] == Ready && i < |SinProceso(k.listos, p)| {
      SinProcesoNinguno(k.listos, p, i);
    }
  }
}
