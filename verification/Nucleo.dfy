/** The kernel's message handlers and scheduler pass, updating its lists in place. */
module Nucleo {
  import opened Listas
  import opened Planificador
  import opened Turnos
  import Bytes

  lemma SinProcesoPaso(s: seq<Ref>, i: nat, p: nat, hecho: seq<Ref>)
    requires i < |s|
    ensures hecho + SinProceso(s[i..], p)
         == (if s[i].pid != p then hecho + [s[i]] else hecho) + SinProceso(s[i + 1..], p)
  {
    var t := s[i..];
    assert t[0] == s[i] && t[1..] == s[i + 1..];
    var resto := SinProceso(t[1..], p);
    assert SinProceso(t, p) == (if s[i].pid == p then [] else [s[i]]) + resto;
    hide SinProceso;
    Bytes.ConcatAsocia(hecho, [s[i]], resto);
    assert [] + resto == resto;
  }

  /** Rebuilds a queue without a process, going through all of it. */
  method RemovePCBFromSpecificQueue(processid: nat, queue: seq<Ref>) returns (r: seq<Ref>)
    ensures r == SinProceso(queue, processid)
  {
    var cola, listaAuxiliar := queue, [];
    var i, len := 0, |queue|;
    assert queue[0..] == queue && listaAuxiliar + SinProceso(queue, processid) == SinProceso(queue, processid);
    hide SinProceso;
    while i < len
      invariant 0 <= i <= len && cola == queue[i..]
      invariant listaAuxiliar + SinProceso(queue[i..], processid) == SinProceso(queue, processid)
    {
      SinProcesoPaso(queue, i, processid, listaAuxiliar);
      var aux := cola[0];
      if aux.pid != processid {
        listaAuxiliar := listaAuxiliar + [aux];
      }
      cola := cola[1..];
      i := i + 1;
    }
    Nadie(queue[i..], processid);
    assert listaAuxiliar + [] == listaAuxiliar;
    i := 0;
    while i < |listaAuxiliar|
      invariant 0 <= i <= |listaAuxiliar| && cola == listaAuxiliar[..i]
    {
      cola := cola + [listaAuxiliar[i]];
      i := i + 1;
    }
    r := cola;
  }

  lemma Nadie(s: seq<Ref>, p: nat)
    requires s == []
    ensures SinProceso(s, p) == []
  {
  }

  /** The whole kernel; `marca` follows where each process is. */
  class Supervisor {
    const grado: int
    var pid: nat
    var procesosActuales: int
    var newQueue: seq<Ref>
    var readyQueue: seq<Ref>
    var exitQueue: seq<Ref>
    var listaCpus: seq<Conexion>
    var listaEnEjecucion: seq<int>
    var semaforos: seq<Semaforo>
    var estados: map<nat, Estado>
    ghost var marca: Marca

    function Vista(): Kernel
      reads this
    {
      Kernel(grado, pid, procesosActuales, newQueue, readyQueue, exitQueue, listaCpus, listaEnEjecucion, semaforos,
          estados)
    }

    ghost predicate Valid()
      reads this
    {
      Inv(Vista(), marca)
    }

    constructor (grado: int, ss: seq<Semaforo>)
      requires SemaforosIniciales(ss)
      ensures Valid() && Vista() == Inicial(grado, ss) && marca == MarcaInicial(ss)
    {
      this.grado := grado;
      pid, procesosActuales := 0, 0;
      newQueue, readyQueue, exitQueue := [], [], [];
      listaCpus, listaEnEjecucion := [], [];
      semaforos, estados := ss, map[];
      marca := MarcaInicial(ss);
      new;
      InicialInv(grado, ss);
    }

    method EstaEnUso(fd: int) returns (enUso: bool)
      ensures enUso <==> fd in listaEnEjecucion
    {
      enUso := false;
      for i := 0 to |listaEnEjecucion|
        invariant enUso <==> fd in listaEnEjecucion[..i]
      {
        if listaEnEjecucion[i] == fd {
          enUso := true;
        }
      }
      assert listaEnEjecucion[..|listaEnEjecucion|] == listaEnEjecucion;
    }

    method BuscarCpuLibre() returns (i: nat)
      ensures i == CpuLibre(listaCpus, listaEnEjecucion)
    {
      i := 0;
      var encontrado := false;
      assert listaCpus[0..] == listaCpus;
      while !encontrado && i != |listaCpus|
        invariant i <= |listaCpus|
        invariant encontrado ==> i == CpuLibre(listaCpus, listaEnEjecucion)
        invariant !encontrado ==>
            i + CpuLibre(listaCpus[i..], listaEnEjecucion) == CpuLibre(listaCpus, listaEnEjecucion)
        decreases !encontrado, |listaCpus| - i
      {
        var enUso := EstaEnUso(listaCpus[i].fd);
        assert listaCpus[i..][1..] == listaCpus[i + 1..];
        if !enUso {
          encontrado := true;
        } else {
          i := i + 1;
        }
      }
    }

    method BuscarConexionDeCpu(cpuSock: int) returns (i: nat)
      ensures i == IndiceCpu(listaCpus, cpuSock)
    {
      i := 0;
      assert listaCpus[0..] == listaCpus;
      while i < |listaCpus|
        invariant i <= |listaCpus|
        invariant i + IndiceCpu(listaCpus[i..], cpuSock) == IndiceCpu(listaCpus, cpuSock)
      {
        assert listaCpus[i..][1..] == listaCpus[i + 1..];
        if listaCpus[i].fd == cpuSock {
          return;
        }
        i := i + 1;
      }
    }

    /** Memory's answer decides the queue. */
    method GuardadoEnMemoria(pcb: Ref, pageCounter: int)
      modifies this`estados, this`readyQueue, this`exitQueue, this`procesosActuales
      ensures Vista() == old(Guardado(Vista(), pcb, pageCounter))
    {
      if pageCounter > 0 {
        estados := estados[pcb.pid := Ready];
        readyQueue := readyQueue + [pcb];
        procesosActuales := procesosActuales + 1;
      }
      if pageCounter < 0 {
        estados := estados[pcb.pid := Exit];
        exitQueue := exitQueue + [pcb];
      }
    }

    /** A script creates a process, which is loaded when the degree allows and waits otherwise. */
    method ManejadorDeScripts(pageCounter: int)
      modifies this
      ensures Vista() == old(Admitir(Vista(), pageCounter)) && marca == old(marca)
    {
      hide Guardado;
      pid := pid + 1;
      estados := estados[pid := Nuevo];
      var pcb := Ref(pid, true);
      if procesosActuales < grado {
        GuardadoEnMemoria(pcb, pageCounter);
      } else {
        newQueue := newQueue + [pcb];
      }
    }

    /** The scheduler's first half: the oldest waiting script. */
    method PasarDeNewAReady(pageCounter: int)
      modifies this
      ensures Vista() == old(Cargar(Vista(), pageCounter)) && marca == old(marca)
    {
      hide Guardado;
      if |newQueue| > 0 {
        if procesosActuales < grado {
          var nuevo := newQueue[0];
          newQueue := newQueue[1..];
          GuardadoEnMemoria(nuevo, pageCounter);
        }
      }
    }

    /** The scheduler's second half: the oldest ready process, when a processor is free. */
    method PasarDeReadyAExec()
      modifies this
      ensures Vista() == old(Despachar(Vista())) && marca == old(marca)
    {
      hide CpuLibre;
      if |readyQueue| > 0 {
        var i := BuscarCpuLibre();
        if |listaCpus| > 0 && i < |listaCpus| {
          listaEnEjecucion := listaEnEjecucion + [listaCpus[i].fd];
          var pcb := readyQueue[0];
          readyQueue := readyQueue[1..];
          listaCpus := listaCpus[i := listaCpus[i].(proceso := pcb.pid)];
          if pcb.original {
            estados := estados[pcb.pid := Exec];
          }
        }
      }
    }

    /** One turn of the scheduler's endless loop. */
    method Planificacion(pageCounter: int)
      modifies this
      ensures Vista() == old(Despachar(Cargar(Vista(), pageCounter))) && marca == old(marca)
    {
      hide Despachar, Cargar;
      PasarDeNewAReady(pageCounter);
      PasarDeReadyAExec();
    }

    /** The processor has nothing to run. */
    method VaciarCpu(fd: int)
      requires IndiceCpu(listaCpus, fd) < |listaCpus|
      modifies this`listaCpus
      ensures listaCpus
          == old(listaCpus[IndiceCpu(listaCpus, fd) := listaCpus[IndiceCpu(listaCpus, fd)].(proceso := 0)])
    {
      hide IndiceCpu;
      var i := BuscarConexionDeCpu(fd);
      listaCpus := listaCpus[i := listaCpus[i].(proceso := 0)];
    }

    /** The end of a burst: `fd` sends back the block of the process it was running. */
    method AtenderFinDeRafaga(fd: int)
      requires Ejecuta(Vista(), fd)
      modifies this
      ensures Vista() == old(FinDeRafaga(Vista(), fd)) && marca == old(marca)
    {
      hide IndiceCpu, Quitar, ProcesoEn;
      var p := ProcesoEn(Vista(), fd);
      listaEnEjecucion := Quitar(listaEnEjecucion, fd);
      estados := estados[p := Ready];
      readyQueue := readyQueue + [Ref(p, false)];
      VaciarCpu(fd);
    }

    /** Takes a semaphore out of the list. */
    method RemoveSemaforoByID(id: string) returns (s: Semaforo)
      requires ExisteSem(semaforos, id)
      modifies this`semaforos
      ensures s == old(Sem(semaforos, id))
      ensures semaforos == old(semaforos[..IndiceSem(semaforos, id)] + semaforos[IndiceSem(semaforos, id) + 1..])
    {
      hide IndiceSem;
      var i := IndiceSem(semaforos, id);
      s := semaforos[i];
      semaforos := semaforos[..i] + semaforos[i + 1..];
    }

    /** Takes one from the value. */
    method WaitSemaforo(id: string) returns (valor: int)
      requires ExisteSem(semaforos, id)
      modifies this`semaforos
      ensures valor == old(Sem(semaforos, id).valor) - 1
      ensures semaforos == old(CambiarSem(semaforos, Sem(semaforos, id).(valor := Sem(semaforos, id).valor - 1)))
    {
      hide IndiceSem;
      var unSem := RemoveSemaforoByID(id);
      unSem := unSem.(valor := unSem.valor - 1);
      semaforos := semaforos + [unSem];
      valor := unSem.valor;
    }

    method CancelarWait(id: string)
      requires ExisteSem(semaforos, id)
      modifies this`semaforos
      ensures semaforos == old(CambiarSem(semaforos, Sem(semaforos, id).(valor := Sem(semaforos, id).valor + 1)))
    {
      hide IndiceSem;
      var unSem := RemoveSemaforoByID(id);
      unSem := unSem.(valor := unSem.valor + 1);
      semaforos := semaforos + [unSem];
    }

    /** Puts a process at the end of a semaphore's queue. */
    method Encolar(id: string, r: Ref)
      requires ExisteSem(semaforos, id)
      modifies this`semaforos
      ensures semaforos == old(CambiarSem(semaforos, Sem(semaforos, id).(cola := Sem(semaforos, id).cola + [r])))
    {
      hide IndiceSem;
      var unSem := RemoveSemaforoByID(id);
      unSem := unSem.(cola := unSem.cola + [r]);
      semaforos := semaforos + [unSem];
    }

    /** The process leaves its processor for the semaphore's queue. */
    method BloquearProceso(fd: int, id: string, p: nat)
      requires ExisteSem(semaforos, id) && IndiceCpu(listaCpus, fd) < |listaCpus|
      modifies this`listaEnEjecucion, this`estados, this`semaforos, this`listaCpus
      ensures Vista() == old(Soltar(Vista(), fd)).(estados := old(estados)[p := Block],
        semaforos := old(CambiarSem(semaforos, Sem(semaforos, id).(cola := Sem(semaforos, id).cola + [Ref(p, false)]))))
    {
      hide IndiceCpu, Quitar, CambiarSem, IndiceSem;
      listaEnEjecucion := Quitar(listaEnEjecucion, fd);
      estados := estados[p := Block];
      Encolar(id, Ref(p, false));
      VaciarCpu(fd);
    }

    /** A wait asked by the processor `fd`; `falla` says its blocked process could not be received. */
    method AtenderWait(fd: int, id: string, falla: bool)
      requires Ejecuta(Vista(), fd) && ExisteSem(semaforos, id) && IdsDistintos(semaforos)
      modifies this
      ensures Vista() == old(Esperar(Vista(), fd, id, falla)) && marca == old(marca)
    {
      ghost var s := Sem(semaforos, id);
      CambiarSemEs(semaforos, s.(valor := s.valor - 1));
      hide IndiceCpu, Quitar, CambiarSem, IndiceSem, IdsDistintos, ProcesoEn, Soltar;
      var p := ProcesoEn(Vista(), fd);
      listaEnEjecucion := Quitar(listaEnEjecucion, fd) + [fd];
      var valor := WaitSemaforo(id);
      if valor < 0 {
        if falla {
          CancelarWait(id);
        } else {
          BloquearProceso(fd, id, p);
        }
      }
    }

    /** A signal: the oldest blocked process, if any, becomes ready. */
    method AtenderSignal(id: string)
      requires ExisteSem(semaforos, id)
      modifies this
      ensures Vista() == old(Avisar(Vista(), id)) && marca == old(marca)
    {
      hide IndiceSem;
      var unSem := RemoveSemaforoByID(id);
      unSem := unSem.(valor := unSem.valor + 1);
      if |unSem.cola| > 0 {
        var unPCB := unSem.cola[0];
        unSem := unSem.(cola := unSem.cola[1..]);
        estados := estados[unPCB.pid := Ready];
        readyQueue := readyQueue + [unPCB];
      }
      semaforos := semaforos + [unSem];
    }

    /** Takes a finished process out of the queue its listed state names, and into the exit queue. */
    method EndProcess(p: nat)
      requires p in estados && estados[p] != Block
      modifies this`readyQueue, this`estados, this`procesosActuales, this`exitQueue
      ensures old(estados)[p] == Exit ==> Vista() == old(Vista())
      ensures old(estados)[p] != Exit ==> Vista() == old(Vista()).(
        listos := if old(estados)[p] == Ready then SinProceso(old(readyQueue), p) else old(readyQueue),
        estados := old(estados)[p := Exit], procesosActuales := old(procesosActuales) - 1,
        salida := old(exitQueue) + [Ref(p, true)])
    {
      hide SinProceso;
      if estados[p] != Exit {
        if estados[p] == Ready {
          readyQueue := RemovePCBFromSpecificQueue(p, readyQueue);
        }
        estados := estados[p := Exit];
        procesosActuales := procesosActuales - 1;
        exitQueue := exitQueue + [Ref(p, true)];
      }
    }

    /** A process ends well on the processor `fd`. */
    method AtenderFinDeProceso(fd: int)
      requires Ejecuta(Vista(), fd) && ProcesoEn(Vista(), fd) in estados && estados[ProcesoEn(Vista(), fd)] != Block
      modifies this
      ensures Vista() == old(Terminar(Vista(), fd)) && marca == old(marca)
    {
      hide IndiceCpu, Quitar, SinProceso, ProcesoEn;
      var p := ProcesoEn(Vista(), fd);
      listaEnEjecucion := Quitar(listaEnEjecucion, fd);
      EndProcess(p);
      VaciarCpu(fd);
    }

    method AtenderNuevaCpu(fd: int)
      modifies this`listaCpus
      ensures Vista() == old(Conectar(Vista(), fd))
    {
      listaCpus := listaCpus + [Conexion(fd, 0)];
    }

    /** The handler of each message. */
    method Despacho(x: Mensaje)
      requires Admisible(Vista(), x) && Terminable(Vista(), x) && IdsDistintos(semaforos)
      modifies this
      ensures Vista() == old(Atender(Vista(), x)) && marca == old(marca)
    {
      hide Admitir, Cargar, Despachar, FinDeRafaga, Esperar, Avisar, Terminar, Conectar, IdsDistintos, ExisteSem;
      hide Ejecuta, IndiceCpu;
      match x
      case Script(r) => ManejadorDeScripts(r);
      case Pasada(r) => Planificacion(r);
      case FinRafaga(fd) => AtenderFinDeRafaga(fd);
      case Wait(fd, id, falla) => AtenderWait(fd, id, falla);
      case Signal(id) => AtenderSignal(id);
      case Fin(fd) => AtenderFinDeProceso(fd);
      case NuevaCpu(fd) => AtenderNuevaCpu(fd);
    }

    /** The kernel's loop: one message, whatever it is, keeps every process in its one place. */
    method Recibir(x: Mensaje)
      requires Valid() && Admisible(Vista(), x)
      modifies this
      ensures Valid() && old(Terminable(Vista(), x))
      ensures Vista() == old(Atender(Vista(), x)) && marca == old(Anotar(Vista(), marca, x))
    {
      hide Admisible, Terminable, Atender, Anotar, IdsDistintos;
      AtenderInv(Vista(), marca, x);
      ghost var m := Anotar(Vista(), marca, x);
      LoQueSeSabe(Vista(), marca);
      hide Inv;
      Despacho(x);
      marca := m;
    }
  }

  lemma LoQueSeSabe(k: Kernel, m: Marca)
    requires Inv(k, m)
    ensures IdsDistintos(k.semaforos)
  {
  }
}
