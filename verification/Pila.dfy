/** The call stack of a running program: variables, arguments and call records over one stack pointer. */
module Pila {
  import opened Bytes
  import opened Pcb

  /** Where the stack of the process lives; its last address fits a signed word. */
  datatype Config = Config(primerPagina: Palabra, tamanioStack: Palabra, tamanioPagina: Palabra)

  /** The address of the first byte of the stack. */
  function Base(c: Config): nat {
    c.primerPagina * c.tamanioPagina
  }

  /** How many bytes the stack has. */
  function Tope(c: Config): nat {
    c.tamanioStack * c.tamanioPagina
  }

  predicate ConfigValida(c: Config) {
    c.tamanioPagina > 0 && Base(c) + Tope(c) < TOPE31
  }

  datatype Cpu = Cpu(registros: seq<RegistroStack>, stackPointer: nat, programCounter: Palabra,
                     programaTerminado: bool, excepcionMemoria: bool, codigoError: int)

  predicate EsDigito(id: Byte) {
    48 <= id <= 57
  }

  /** The digits are the ten characters of decimal numerals. */
  lemma DigitosSon(id: Byte)
    ensures EsDigito(id) <==> id as char in "0123456789"
  {
  }

  /** The address a variable's page and offset stand for. */
  function Direccion(c: Config, v: Variable): nat {
    v.page * c.tamanioPagina + v.offset
  }

  /**
   * How far the stack pointer lies into its page: a multiple of the page size stays at the end of the previous page.
   */
  function Avance(tp: Palabra, sp: nat): (r: (nat, nat))
    requires tp > 0
    ensures r.0 * tp + r.1 == sp && r.1 <= tp && (sp > 0 ==> r.1 > 0)
  {
    if sp <= tp then (0, sp) else
      var (k, o) := Avance(tp, sp - tp);
      assert (k + 1) * tp == k * tp + tp;
      (k + 1, o)
  }

  lemma CabeEnPalabra(c: Config, sp: nat)
    requires ConfigValida(c) && sp < Tope(c)
    ensures c.primerPagina + Avance(c.tamanioPagina, sp).0 < TOPE32
    ensures (c.primerPagina + Avance(c.tamanioPagina, sp).0) * c.tamanioPagina
        + Avance(c.tamanioPagina, sp).1 == Base(c) + sp
  {
    var k := Avance(c.tamanioPagina, sp).0;
    var p := c.primerPagina + k;
    assert p * c.tamanioPagina == c.primerPagina * c.tamanioPagina + k * c.tamanioPagina;
    ProductoMayor(p, c.tamanioPagina);
  }

  lemma ProductoMayor(p: nat, t: nat)
    requires t > 0
    ensures p <= p * t
  {
  }

  /** A definition at the stack pointer. */
  function Nueva(c: Config, sp: nat, id: Byte): (v: Variable)
    requires ConfigValida(c) && sp < Tope(c)
    ensures v.id == id && v.size == 4 && Direccion(c, v) == Base(c) + sp
  {
    CabeEnPalabra(c, sp);
    var (k, o) := Avance(c.tamanioPagina, sp);
    Variable(id, c.primerPagina + k, o, 4)
  }

  function Agregar(r: RegistroStack, v: Variable): RegistroStack {
    if EsDigito(v.id) then r.(args := r.args + [v]) else r.(vars := r.vars + [v])
  }

  /** What `malloc` left in a new record is `sucio`; only the first definition of a program shows it. */
  function Definir(c: Config, s: Cpu, id: Byte, sucio: RegistroStack): (r: (Cpu, int))
    requires ConfigValida(c)
  {
    if s.stackPointer + 4 > Tope(c) then (s.(excepcionMemoria := true, codigoError := -20), -1)
    else
      var regs := if s.registros == [] then [sucio.(args := [], vars := [])] else s.registros;
      var n := |regs| - 1;
      (s.(registros := regs[n := Agregar(regs[n], Nueva(c, s.stackPointer, id))], stackPointer := s.stackPointer + 4),
       Base(c) + s.stackPointer)
  }

  function Llamar(c: Config, s: Cpu, destino: Palabra, dondeRetornar: Palabra): Cpu
    requires ConfigValida(c)
  {
    s.(registros := s.registros + [RegistroStack([], [], s.programCounter,
         PagOffSize(dondeRetornar / c.tamanioPagina, dondeRetornar % c.tamanioPagina, 4))],
       programCounter := destino)
  }

  /** Leaves the current call; gives back the space of its variables and not of its arguments. */
  function Finalizar(s: Cpu): Cpu
    requires s.registros != []
  {
    var n := |s.registros| - 1;
    var r := s.registros[n];
    var e := s.(registros := s.registros[..n], stackPointer := Resta4(s.stackPointer, |r.vars|));
    if n == 0 then e.(programaTerminado := true) else e.(programCounter := r.retPos)
  }

  /** `n` times minus four in an unsigned 32-bit word. */
  function Resta4(sp: nat, n: nat): (r: nat)
    ensures 4 * n <= sp < TOPE32 ==> r == sp - 4 * n
    decreases n
  {
    if n == 0 then sp else Resta4((sp - 4) % TOPE32, n - 1)
  }

  /** The address of the first variable of a list with a name, or -1. */
  function Posicion(c: Config, vs: seq<Variable>, id: Byte): (r: int)
    ensures r >= -1
  {
    if vs == [] then -1
    else if vs[0].id == id then Direccion(c, vs[0])
    else Posicion(c, vs[1..], id)
  }

  predicate PrimeraCon(vs: seq<Variable>, id: Byte, k: nat)
    requires k < |vs|
  {
    vs[k].id == id && forall j :: 0 <= j < k ==> vs[j].id != id
  }

  /** No variable before the answer has the name, and -1 means none does. */
  lemma {:induction false} PosicionPrimera(c: Config, vs: seq<Variable>, id: Byte)
    ensures Posicion(c, vs, id) == -1 <==> forall k :: 0 <= k < |vs| ==> vs[k].id != id
    ensures Posicion(c, vs, id) != -1 ==>
      exists k :: 0 <= k < |vs| && PrimeraCon(vs, id, k) && Posicion(c, vs, id) == Direccion(c, vs[k])
  {
    if vs != [] && vs[0].id == id {
      assert PrimeraCon(vs, id, 0);
    } else if vs != [] {
      var cola := vs[1..];
      PosicionPrimera(c, cola, id);
      assert forall k :: 0 < k < |vs| ==> vs[k] == cola[k - 1];
      if Posicion(c, vs, id) != -1 {
        var k :| 0 <= k < |cola| && PrimeraCon(cola, id, k) && Posicion(c, cola, id) == Direccion(c, cola[k]);
        assert PrimeraCon(vs, id, k + 1);
      } else {
        assert forall k :: 0 < k < |vs| ==> vs[k].id != id;
      }
    }
  }

  /** Looks a name up in the current call: digits among the arguments, the rest among the variables. */
  function ObtenerPosicion(c: Config, s: Cpu, id: Byte): int
    requires s.registros != []
  {
    var r := s.registros[|s.registros| - 1];
    Posicion(c, if EsDigito(id) then r.args else r.vars, id)
  }

  // ---------------------------------------------------------------- the invariant

  /**
   * What a run leaves behind of each live call: where the stack pointer stood when it began, and the address its first
   * definition of each name answered; and how many arguments were ever defined.
   */
  datatype Marca = Marca(bases: seq<nat>, direcciones: seq<map<Byte, int>>, argumentos: nat)

  function Ranuras(r: RegistroStack): seq<Variable> {
    r.args + r.vars
  }

  predicate Separadas(c: Config, a: Variable, b: Variable) {
    Direccion(c, a) + 4 <= Direccion(c, b) || Direccion(c, b) + 4 <= Direccion(c, a)
  }

  predicate Entre(c: Config, v: Variable, lo: nat, hi: nat) {
    Base(c) + lo <= Direccion(c, v) && Direccion(c, v) + 4 <= Base(c) + hi && v.size == 4
  }

  /** Slots between two marks, apart from each other. */
  predicate RanurasBien(c: Config, xs: seq<Variable>, lo: nat, hi: nat) {
    && (forall k :: 0 <= k < |xs| ==> Entre(c, xs[k], lo, hi))
    && (forall j, k :: 0 <= j < k < |xs| ==> Separadas(c, xs[j], xs[k]))
  }

  /** The slots of a call, with room for all of them. */
  predicate RegistroBien(c: Config, r: RegistroStack, lo: nat, hi: nat) {
    lo + 4 * (|r.args| + |r.vars|) <= hi && RanurasBien(c, Ranuras(r), lo, hi)
  }

  /** Lookups in a call answer what its first definitions did. */
  ghost predicate Recuerda(c: Config, r: RegistroStack, m: map<Byte, int>) {
    forall id: Byte :: RecuerdaUno(c, r, m, id)
  }

  predicate RecuerdaUno(c: Config, r: RegistroStack, m: map<Byte, int>, id: Byte) {
    && Posicion(c, if EsDigito(id) then r.args else r.vars, id) == (if id in m then m[id] else -1)
    && (id in m ==> m[id] >= 0)
  }

  function Techo(s: Cpu, m: Marca, i: nat): nat
    requires |m.bases| == |s.registros| && i < |m.bases|
  {
    if i + 1 < |m.bases| then m.bases[i + 1] else s.stackPointer
  }

  function TotalVars(rs: seq<RegistroStack>): nat {
    if rs == [] then 0 else TotalVars(rs[..|rs| - 1]) + |rs[|rs| - 1].vars|
  }

  /** Call `i` keeps its slots between its own mark and the next one, and its names. */
  ghost predicate Nivel(c: Config, s: Cpu, m: Marca, i: nat)
    requires |m.bases| == |s.registros| && |m.direcciones| == |s.registros| && i < |s.registros|
  {
    RegistroBien(c, s.registros[i], m.bases[i], Techo(s, m, i)) && Recuerda(c, s.registros[i], m.direcciones[i])
  }

  ghost predicate Inv(c: Config, s: Cpu, m: Marca) {
    && ConfigValida(c) && s.stackPointer <= Tope(c)
    && |m.bases| == |s.registros| && |m.direcciones| == |s.registros|
    && (forall i :: 0 <= i < |s.registros| ==> Nivel(c, s, m, i))
    && s.stackPointer == 4 * (TotalVars(s.registros) + m.argumentos)
  }

  function MarcaDefinir(c: Config, s: Cpu, m: Marca, id: Byte): Marca
    requires |m.direcciones| == |s.registros|
  {
    if s.stackPointer + 4 > Tope(c) then m else
      var bs := if s.registros == [] then [s.stackPointer] else m.bases;
      var ds := if s.registros == [] then [map[]] else m.direcciones;
      var n := |ds| - 1;
      var d := if id in ds[n] then ds[n] else ds[n][id := Base(c) + s.stackPointer];
      Marca(bs, ds[n := d], m.argumentos + if EsDigito(id) then 1 else 0)
  }

  lemma {:induction false} PosicionAgregada(c: Config, vs: seq<Variable>, v: Variable, id: Byte)
    ensures Posicion(c, vs + [v], id)
         == if Posicion(c, vs, id) != -1 then Posicion(c, vs, id) else if v.id == id then Direccion(c, v) else -1
  {
    hide Direccion;
    if vs == [] {
      assert vs + [v] == [v];
    } else {
      assert (vs + [v])[1..] == vs[1..] + [v];
      PosicionAgregada(c, vs[1..], v, id);
    }
  }

  lemma InsertarRanura(c: Config, xs: seq<Variable>, p: nat, v: Variable, lo: nat, sp: nat)
    requires RanurasBien(c, xs, lo, sp) && p <= |xs| && lo <= sp
    requires v.size == 4 && Direccion(c, v) == Base(c) + sp
    ensures RanurasBien(c, xs[..p] + [v] + xs[p..], lo, sp + 4)
  {
  }

  /** A slot above all the others of a call joins them. */
  lemma AgregarBien(c: Config, r: RegistroStack, lo: nat, sp: nat, v: Variable)
    requires RegistroBien(c, r, lo, sp) && v.size == 4 && Direccion(c, v) == Base(c) + sp
    ensures RegistroBien(c, Agregar(r, v), lo, sp + 4)
  {
    hide Direccion, Base, RanurasBien;
    var x := Ranuras(r);
    var p := if EsDigito(v.id) then |r.args| else |x|;
    InsertarRanura(c, x, p, v, lo, sp);
    assert Ranuras(Agregar(r, v)) == x[..p] + [v] + x[p..];
  }

  lemma AgregarRecuerda(c: Config, r: RegistroStack, v: Variable, m: map<Byte, int>)
    requires Recuerda(c, r, m)
    ensures Recuerda(c, Agregar(r, v), if v.id in m then m else m[v.id := Direccion(c, v)])
  {
    hide Posicion, Direccion;
    var e := Agregar(r, v);
    var d := if v.id in m then m else m[v.id := Direccion(c, v)];
    forall id: Byte
      ensures RecuerdaUno(c, e, d, id)
    {
      assert RecuerdaUno(c, r, m, id);
      PosicionAgregada(c, if EsDigito(id) then r.args else r.vars, v, id);
    }
  }

  lemma VacioBien(c: Config, r: RegistroStack, sp: nat)
    requires r.args == [] && r.vars == []
    ensures RegistroBien(c, r, sp, sp) && Recuerda(c, r, map[])
  {
  }

  /** Levels depend on their own call and marks alone. */
  lemma NivelIgual(c: Config, s: Cpu, m: Marca, e: Cpu, w: Marca, i: nat)
    requires |m.bases| == |s.registros| && |m.direcciones| == |s.registros| && i < |s.registros|
    requires |w.bases| == |e.registros| && |w.direcciones| == |e.registros| && i < |e.registros|
    requires Nivel(c, s, m, i) && e.registros[i] == s.registros[i] && w.bases[i] == m.bases[i]
    requires w.direcciones[i] == m.direcciones[i] && Techo(s, m, i) <= Techo(e, w, i)
    ensures Nivel(c, e, w, i)
  {
  }

  lemma NivelAgregado(c: Config, s: Cpu, m: Marca, id: Byte, sucio: RegistroStack)
    requires Inv(c, s, m) && s.registros != [] && s.stackPointer + 4 <= Tope(c)
    ensures var e, w := Definir(c, s, id, sucio).0, MarcaDefinir(c, s, m, id);
      |w.bases| == |e.registros| && |w.direcciones| == |e.registros| && Nivel(c, e, w, |e.registros| - 1)
  {
    hide Direccion, RegistroBien, Recuerda, Base, Tope, Nueva, Agregar;
    var n := |s.registros| - 1;
    assert Nivel(c, s, m, n);
    var v := Nueva(c, s.stackPointer, id);
    AgregarBien(c, s.registros[n], m.bases[n], s.stackPointer, v);
    AgregarRecuerda(c, s.registros[n], v, m.direcciones[n]);
  }

  /** Defining on a stack that already has a call. */
  lemma DefinirEnRegistro(c: Config, s: Cpu, m: Marca, id: Byte, sucio: RegistroStack)
    requires Inv(c, s, m) && s.registros != []
    ensures Inv(c, Definir(c, s, id, sucio).0, MarcaDefinir(c, s, m, id))
  {
    hide Nivel, Base, Tope, Nueva;
    var e, w := Definir(c, s, id, sucio).0, MarcaDefinir(c, s, m, id);
    if s.stackPointer + 4 <= Tope(c) {
      var n := |s.registros| - 1;
      NivelAgregado(c, s, m, id, sucio);
      forall i | 0 <= i < n
        ensures Nivel(c, e, w, i)
      {
        assert Nivel(c, s, m, i);
        NivelIgual(c, s, m, e, w, i);
      }
    } else {
      forall i | 0 <= i < |e.registros|
        ensures Nivel(c, e, w, i)
      {
        assert Nivel(c, s, m, i);
        NivelIgual(c, s, m, e, w, i);
      }
    }
  }

  lemma DefinirInv(c: Config, s: Cpu, m: Marca, id: Byte, sucio: RegistroStack)
    requires Inv(c, s, m)
    ensures Inv(c, Definir(c, s, id, sucio).0, MarcaDefinir(c, s, m, id))
  {
    hide Base, Tope, Nueva, RegistroBien, Recuerda;
    if s.registros == [] && s.stackPointer + 4 <= Tope(c) {
      var r := sucio.(args := [], vars := []);
      var t, x := s.(registros := [r]), Marca([s.stackPointer], [map[]], m.argumentos);
      VacioBien(c, r, s.stackPointer);
      assert TotalVars([r]) == 0 by {
        assert [r][..0] == [];
      }
      assert Inv(c, t, x);
      DefinirEnRegistro(c, t, x, id, sucio);
    } else if s.registros != [] {
      DefinirEnRegistro(c, s, m, id, sucio);
    }
  }

  lemma LlamarInv(c: Config, s: Cpu, m: Marca, destino: Palabra, donde: Palabra)
    requires Inv(c, s, m)
    ensures Inv(c, Llamar(c, s, destino, donde),
        Marca(m.bases + [s.stackPointer], m.direcciones + [map[]], m.argumentos))
  {
    hide Base, Tope, RegistroBien, Recuerda;
    var e := Llamar(c, s, destino, donde);
    var w := Marca(m.bases + [s.stackPointer], m.direcciones + [map[]], m.argumentos);
    var n := |s.registros|;
    VacioBien(c, e.registros[n], s.stackPointer);
    assert Nivel(c, e, w, n);
    assert e.registros[..n] == s.registros;
    hide Nivel;
    forall i | 0 <= i < n
      ensures Nivel(c, e, w, i)
    {
      assert Nivel(c, s, m, i);
      NivelIgual(c, s, m, e, w, i);
    }
  }

  function MarcaFinalizar(m: Marca): Marca
    requires m.bases != [] && m.direcciones != []
  {
    Marca(m.bases[..|m.bases| - 1], m.direcciones[..|m.direcciones| - 1], m.argumentos)
  }

  /** The caller's slots stay below the stack pointer, which never wraps around. */
  lemma FinalizarInv(c: Config, s: Cpu, m: Marca)
    requires Inv(c, s, m) && s.registros != []
    ensures var n := |s.registros| - 1;
      Finalizar(s).stackPointer == s.stackPointer - 4 * |s.registros[n].vars| >= m.bases[n] + 4 * |s.registros[n].args|
    ensures Inv(c, Finalizar(s), MarcaFinalizar(m))
  {
    hide Recuerda, Base, Tope;
    assert s.stackPointer < TOPE32 by {
      assert Tope(c) < TOPE32;
    }
    var n := |s.registros| - 1;
    var e, w := Finalizar(s), MarcaFinalizar(m);
    assert Nivel(c, s, m, n);
    hide Nivel;
    forall i | 0 <= i < n
      ensures Nivel(c, e, w, i)
    {
      assert Nivel(c, s, m, i);
      NivelIgual(c, s, m, e, w, i);
    }
  }

  // ---------------------------------------------------------------- runs

  datatype Paso =
    | DefinirVariable(id: Byte, sucio: RegistroStack)
    | LlamarConRetorno(destino: Palabra, dondeRetornar: Palabra)
    | FinalizarLlamada

  /** No call is finished when there is none. */
  predicate Posible(c: Config, pasos: seq<Paso>)
    requires ConfigValida(c)
    decreases |pasos|, 0
  {
    pasos == [] ||
    (var n := |pasos| - 1;
     Posible(c, pasos[..n]) && (pasos[n].FinalizarLlamada? ==> Correr(c, pasos[..n]).0.registros != []))
  }

  /** The state after a run from an empty stack, and what is remembered of it. */
  function Correr(c: Config, pasos: seq<Paso>): (r: (Cpu, Marca))
    requires ConfigValida(c) && Posible(c, pasos)
    ensures |r.1.direcciones| == |r.0.registros| && |r.1.bases| == |r.0.registros|
    decreases |pasos|, 1
  {
    if pasos == [] then (Cpu([], 0, 0, false, false, 0), Marca([], [], 0)) else
      var n := |pasos| - 1;
      var (s, m) := Correr(c, pasos[..n]);
      match pasos[n]
      case DefinirVariable(id, sucio) => (Definir(c, s, id, sucio).0, MarcaDefinir(c, s, m, id))
      case LlamarConRetorno(destino, donde) =>
        (Llamar(c, s, destino, donde), Marca(m.bases + [s.stackPointer], m.direcciones + [map[]], m.argumentos))
      case FinalizarLlamada => (Finalizar(s), MarcaFinalizar(m))
  }

  lemma {:induction false} CorridaInv(c: Config, pasos: seq<Paso>)
    requires ConfigValida(c) && Posible(c, pasos)
    ensures Inv(c, Correr(c, pasos).0, Correr(c, pasos).1)
  {
    hide Definir, Llamar, Finalizar, MarcaDefinir, MarcaFinalizar, Tope, Base;
    if pasos != [] {
      hide Inv;
      var n := |pasos| - 1;
      CorridaInv(c, pasos[..n]);
      var (s, m) := Correr(c, pasos[..n]);
      match pasos[n]
      case DefinirVariable(id, sucio) => DefinirInv(c, s, m, id, sucio);
      case LlamarConRetorno(destino, donde) => LlamarInv(c, s, m, destino, donde);
      case FinalizarLlamada => FinalizarInv(c, s, m);
    }
  }

  /** The live slot `k` of call `i`. */
  predicate Viva(s: Cpu, i: nat, k: nat) {
    i < |s.registros| && k < |Ranuras(s.registros[i])|
  }

  lemma {:induction false} BasesCrecen(c: Config, s: Cpu, m: Marca, i: nat, j: nat)
    requires Inv(c, s, m) && i < j < |s.registros|
    ensures Techo(s, m, i) <= m.bases[j]
    decreases j
  {
    hide Recuerda, RanurasBien, Base, Tope;
    if i + 1 < j {
      BasesCrecen(c, s, m, i, j - 1);
      assert Nivel(c, s, m, j - 1);
    }
  }

  lemma BajoElPuntero(c: Config, s: Cpu, m: Marca, i: nat)
    requires Inv(c, s, m) && i < |s.registros|
    ensures Techo(s, m, i) <= s.stackPointer
  {
    hide Recuerda, RanurasBien, Base, Tope;
    var n := |s.registros| - 1;
    if i < n {
      BasesCrecen(c, s, m, i, n);
      assert Nivel(c, s, m, n);
    }
  }

  lemma PunteroEnLaPila(c: Config, s: Cpu, m: Marca)
    requires Inv(c, s, m)
    ensures s.stackPointer <= Tope(c) && s.stackPointer % 4 == 0
  {
  }

  /** Where a live slot is. */
  lemma RanuraEntre(c: Config, s: Cpu, m: Marca, i: nat, k: nat)
    requires Inv(c, s, m) && Viva(s, i, k)
    ensures Entre(c, Ranuras(s.registros[i])[k], m.bases[i], Techo(s, m, i))
    ensures forall l :: 0 <= l < |Ranuras(s.registros[i])| && l != k ==>
      Separadas(c, Ranuras(s.registros[i])[k], Ranuras(s.registros[i])[l])
  {
    hide Recuerda, Base, Tope, Direccion;
    assert Nivel(c, s, m, i);
  }

  /** After any run, two live variables or arguments never share a byte, and all lie below the stack pointer. */
  lemma RanurasDisjuntas(c: Config, pasos: seq<Paso>, i: nat, k: nat, j: nat, l: nat)
    requires ConfigValida(c) && Posible(c, pasos)
    requires Viva(Correr(c, pasos).0, i, k) && Viva(Correr(c, pasos).0, j, l) && (i, k) != (j, l)
    ensures var s := Correr(c, pasos).0;
      var a, b := Ranuras(s.registros[i])[k], Ranuras(s.registros[j])[l];
      && Separadas(c, a, b)
      && Base(c) <= Direccion(c, a) && Direccion(c, a) + 4 <= Base(c) + s.stackPointer <= Base(c) + Tope(c)
  {
    hide Correr, Posible, Inv, Base, Tope, Direccion;
    CorridaInv(c, pasos);
    var (s, m) := Correr(c, pasos);
    PunteroEnLaPila(c, s, m);
    BajoElPuntero(c, s, m, i);
    RanuraEntre(c, s, m, i, k);
    RanuraEntre(c, s, m, j, l);
    if i < j {
      BasesCrecen(c, s, m, i, j);
    } else if j < i {
      BasesCrecen(c, s, m, j, i);
    }
  }

  lemma {:induction false} PosiblePrefijo(c: Config, pasos: seq<Paso>, k: nat)
    requires ConfigValida(c) && Posible(c, pasos) && k <= |pasos|
    ensures Posible(c, pasos[..k])
  {
    if k < |pasos| {
      var n := |pasos| - 1;
      PosiblePrefijo(c, pasos[..n], k);
      assert pasos[..n][..k] == pasos[..k];
    } else {
      assert pasos[..k] == pasos;
    }
  }

  /** Step `k` of the run defines an argument: its name is a digit and the stack has room for it. */
  predicate DefineArgumento(c: Config, pasos: seq<Paso>, k: nat)
    requires ConfigValida(c) && Posible(c, pasos) && k < |pasos|
  {
    PosiblePrefijo(c, pasos, k);
    pasos[k].DefinirVariable? && EsDigito(pasos[k].id) && Correr(c, pasos[..k]).0.stackPointer + 4 <= Tope(c)
  }

  /** No step from `desde` on defines an argument. */
  predicate SinArgumentos(c: Config, pasos: seq<Paso>, desde: nat)
    requires ConfigValida(c) && Posible(c, pasos)
  {
    forall k :: desde <= k < |pasos| ==> !DefineArgumento(c, pasos, k)
  }

  lemma UltimoArgumento(c: Config, pasos: seq<Paso>)
    requires ConfigValida(c) && Posible(c, pasos) && pasos != []
    ensures var n := |pasos| - 1;
      Correr(c, pasos).1.argumentos
      == Correr(c, pasos[..n]).1.argumentos + (if DefineArgumento(c, pasos, n) then 1 else 0)
  {
    hide Definir, Llamar, Finalizar, Tope, Base;
  }

  lemma SinArgumentosPaso(c: Config, pasos: seq<Paso>, desde: nat)
    requires ConfigValida(c) && Posible(c, pasos) && desde < |pasos|
    ensures var n := |pasos| - 1;
      SinArgumentos(c, pasos, desde) <==> SinArgumentos(c, pasos[..n], desde) && !DefineArgumento(c, pasos, n)
  {
    var n := |pasos| - 1;
    assert Posible(c, pasos[..n]);
    hide Correr, Tope, Posible;
    forall k | desde <= k < n
      ensures DefineArgumento(c, pasos[..n], k) <==> DefineArgumento(c, pasos, k)
    {
      assert pasos[..n][..k] == pasos[..k];
    }
  }

  /** The arguments counted along a run grow exactly when a step defines one. */
  lemma {:induction false} ArgumentosDesde(c: Config, pasos: seq<Paso>, desde: nat)
    requires ConfigValida(c) && Posible(c, pasos) && desde <= |pasos|
    ensures Posible(c, pasos[..desde])
    ensures Correr(c, pasos).1.argumentos >= Correr(c, pasos[..desde]).1.argumentos
    ensures Correr(c, pasos).1.argumentos == Correr(c, pasos[..desde]).1.argumentos <==> SinArgumentos(c, pasos, desde)
  {
    PosiblePrefijo(c, pasos, desde);
    if desde < |pasos| {
      var n := |pasos| - 1;
      assert pasos[..n][..desde] == pasos[..desde];
      ArgumentosDesde(c, pasos[..n], desde);
      UltimoArgumento(c, pasos);
      SinArgumentosPaso(c, pasos, desde);
      hide Correr, SinArgumentos, DefineArgumento;
    } else {
      assert pasos[..desde] == pasos;
    }
  }

  /** How many steps of the run define an argument. */
  function Argumentos(c: Config, pasos: seq<Paso>): nat
    requires ConfigValida(c) && Posible(c, pasos)
  {
    if pasos == [] then 0 else
      var n := |pasos| - 1;
      Argumentos(c, pasos[..n]) + if DefineArgumento(c, pasos, n) then 1 else 0
  }

  lemma {:induction false} ArgumentosDe(c: Config, pasos: seq<Paso>)
    requires ConfigValida(c) && Posible(c, pasos)
    ensures Correr(c, pasos).1.argumentos == Argumentos(c, pasos)
  {
    if pasos != [] {
      ArgumentosDe(c, pasos[..|pasos| - 1]);
      UltimoArgumento(c, pasos);
      hide Correr, DefineArgumento, Posible;
    }
  }

  /** The state after the first `k` steps. */
  function Tras(c: Config, pasos: seq<Paso>, k: nat): Cpu
    requires ConfigValida(c) && Posible(c, pasos) && k <= |pasos|
  {
    PosiblePrefijo(c, pasos, k);
    Correr(c, pasos[..k]).0
  }

  /** What step `k`, a definition, answers. */
  function Respuesta(c: Config, pasos: seq<Paso>, k: nat): int
    requires ConfigValida(c) && Posible(c, pasos) && k < |pasos| && pasos[k].DefinirVariable?
  {
    Definir(c, Tras(c, pasos, k), pasos[k].id, pasos[k].sucio).1
  }

  /** Step `k` defines `id`, with room for it, in the call that is at depth `i` from then to the end of the run. */
  predicate DefineEn(c: Config, pasos: seq<Paso>, k: nat, i: nat, id: Byte): (b: bool)
    requires ConfigValida(c) && Posible(c, pasos)
    ensures b ==> k < |pasos| && pasos[k].DefinirVariable?
  {
    && k < |pasos| && pasos[k].DefinirVariable? && pasos[k].id == id
    && Tras(c, pasos, k).stackPointer + 4 <= Tope(c)
    && |Tras(c, pasos, k + 1).registros| == i + 1
    && forall j :: k < j <= |pasos| ==> |Tras(c, pasos, j).registros| > i
  }

  /** The first step that does. */
  predicate PrimeraEn(c: Config, pasos: seq<Paso>, k: nat, i: nat, id: Byte)
    requires ConfigValida(c) && Posible(c, pasos)
  {
    DefineEn(c, pasos, k, i, id) && forall j :: 0 <= j < k ==> !DefineEn(c, pasos, j, i, id)
  }

  lemma TrasPrefijo(c: Config, pasos: seq<Paso>, k: nat)
    requires ConfigValida(c) && Posible(c, pasos) && k < |pasos|
    ensures Posible(c, pasos[..|pasos| - 1]) && Tras(c, pasos[..|pasos| - 1], k) == Tras(c, pasos, k)
  {
    assert pasos[..|pasos| - 1][..k] == pasos[..k];
  }

  lemma TrasTodo(c: Config, pasos: seq<Paso>)
    requires ConfigValida(c) && Posible(c, pasos)
    ensures Tras(c, pasos, |pasos|) == Correr(c, pasos).0
  {
    assert pasos[..|pasos|] == pasos;
  }

  /** One step more keeps the definitions of every call that is still there. */
  lemma DefineEnPrefijo(c: Config, pasos: seq<Paso>, k: nat, i: nat, id: Byte)
    requires ConfigValida(c) && Posible(c, pasos) && k + 1 < |pasos| && i < |Correr(c, pasos).0.registros|
    ensures Posible(c, pasos[..|pasos| - 1])
    ensures DefineEn(c, pasos, k, i, id) <==> DefineEn(c, pasos[..|pasos| - 1], k, i, id)
  {
    hide Correr, Posible, Tras, Tope;
    var n := |pasos| - 1;
    TrasPrefijo(c, pasos, k);
    TrasTodo(c, pasos);
    forall j: nat | j <= n
      ensures Tras(c, pasos[..n], j) == Tras(c, pasos, j)
    {
      TrasPrefijo(c, pasos, j);
    }
  }

  /** The last step alone. */
  lemma DefineEnUltimo(c: Config, pasos: seq<Paso>, i: nat, id: Byte)
    requires ConfigValida(c) && Posible(c, pasos) && pasos != []
    ensures var n := |pasos| - 1;
      DefineEn(c, pasos, n, i, id) <==>
        && pasos[n].DefinirVariable? && pasos[n].id == id && Correr(c, pasos[..n]).0.stackPointer + 4 <= Tope(c)
        && |Correr(c, pasos).0.registros| == i + 1
  {
    hide Correr, Posible, Tope;
    TrasTodo(c, pasos);
  }

  /** What a run remembers of the names of a call is what its first definitions answered. */
  ghost predicate Nombra(c: Config, pasos: seq<Paso>, i: nat, id: Byte, d: map<Byte, int>)
    requires ConfigValida(c) && Posible(c, pasos)
  {
    && (id !in d ==> forall k :: 0 <= k < |pasos| ==> !DefineEn(c, pasos, k, i, id))
    && (id in d ==> exists k :: 0 <= k < |pasos| && PrimeraEn(c, pasos, k, i, id) && d[id] == Respuesta(c, pasos, k))
  }

  lemma NombraSigue(c: Config, pasos: seq<Paso>, i: nat, id: Byte, d: map<Byte, int>, e: map<Byte, int>)
    requires ConfigValida(c) && Posible(c, pasos) && pasos != [] && i < |Correr(c, pasos).0.registros|
    requires Nombra(c, pasos[..|pasos| - 1], i, id, d)
    requires DefineEn(c, pasos, |pasos| - 1, i, id) && id !in d ==> id in e && e[id] == Respuesta(c, pasos, |pasos| - 1)
    requires !DefineEn(c, pasos, |pasos| - 1, i, id) || id in d ==>
      (id in e <==> id in d) && (id in d ==> e[id] == d[id])
    ensures Nombra(c, pasos, i, id, e)
  {
    hide Correr, Posible, DefineEn, Tras, Definir;
    var n := |pasos| - 1;
    PosiblePrefijo(c, pasos, n);
    forall k | 0 <= k < n
      ensures DefineEn(c, pasos, k, i, id) <==> DefineEn(c, pasos[..n], k, i, id)
    {
      DefineEnPrefijo(c, pasos, k, i, id);
    }
    if id in d {
      var k :| 0 <= k < n && PrimeraEn(c, pasos[..n], k, i, id) && d[id] == Respuesta(c, pasos[..n], k);
      RespuestaPrefijo(c, pasos, k, i, id);
      assert PrimeraEn(c, pasos, k, i, id);
    } else if id in e {
      assert PrimeraEn(c, pasos, n, i, id);
    }
  }

  lemma RespuestaPrefijo(c: Config, pasos: seq<Paso>, k: nat, i: nat, id: Byte)
    requires ConfigValida(c) && Posible(c, pasos) && k + 1 < |pasos| && Posible(c, pasos[..|pasos| - 1])
    requires DefineEn(c, pasos[..|pasos| - 1], k, i, id)
    ensures pasos[k].DefinirVariable? && Respuesta(c, pasos, k) == Respuesta(c, pasos[..|pasos| - 1], k)
  {
    hide Correr, Posible, Tras, Definir;
    TrasPrefijo(c, pasos, k);
  }

  /** One step, told on the map of names of call `i`. */
  lemma NombresPaso(c: Config, s: Cpu, m: Marca, p: Paso, i: nat, id: Byte)
    requires ConfigValida(c) && |m.direcciones| == |s.registros|
    requires p.DefinirVariable?
    ensures var e, w := Definir(c, s, p.id, p.sucio).0, MarcaDefinir(c, s, m, p.id);
      var cabe := s.stackPointer + 4 <= Tope(c);
      && |w.direcciones| == |e.registros| && |e.registros| >= |s.registros|
      && (i < |e.registros| ==>
          var d := if i < |s.registros| then m.direcciones[i] else map[];
          if p.id == id && cabe && |e.registros| == i + 1 && id !in d
          then id in w.direcciones[i] && w.direcciones[i][id] == Definir(c, s, p.id, p.sucio).1
          else (id in w.direcciones[i] <==> id in d) && (id in d ==> w.direcciones[i][id] == d[id]))
  {
    hide Nueva, Tope, Base;
  }

  /** A call that was not there before the step was not there to define anything in. */
  lemma NadaAntes(c: Config, pasos: seq<Paso>, i: nat, id: Byte)
    requires ConfigValida(c) && Posible(c, pasos) && i >= |Correr(c, pasos).0.registros|
    ensures Nombra(c, pasos, i, id, map[])
  {
    hide Correr, Posible;
    TrasTodo(c, pasos);
  }

  lemma {:induction false} NombresDe(c: Config, pasos: seq<Paso>, i: nat, id: Byte)
    requires ConfigValida(c) && Posible(c, pasos) && i < |Correr(c, pasos).0.registros|
    ensures Nombra(c, pasos, i, id, Correr(c, pasos).1.direcciones[i])
  {
    hide Definir, MarcaDefinir, Nombra, DefineEn, Tope, Base;
    var n := |pasos| - 1;
    var (s, m) := Correr(c, pasos[..n]);
    var d := if i < |s.registros| then m.direcciones[i] else map[];
    if i < |s.registros| {
      NombresDe(c, pasos[..n], i, id);
    } else {
      NadaAntes(c, pasos[..n], i, id);
    }
    DefineEnUltimo(c, pasos, i, id);
    if pasos[n].DefinirVariable? {
      NombresPaso(c, s, m, pasos[n], i, id);
    }
    NombraSigue(c, pasos, i, id, d, Correr(c, pasos).1.direcciones[i]);
  }

  /**
   * After any run, looking a name up answers what the first step that defined it in the current call answered, and -1
   * exactly when no step did; the stack pointer counts the live variables and every argument ever defined.
   */
  lemma BusquedasYPuntero(c: Config, pasos: seq<Paso>, id: Byte)
    requires ConfigValida(c) && Posible(c, pasos)
    ensures var s := Correr(c, pasos).0;
      && s.stackPointer == 4 * (TotalVars(s.registros) + Argumentos(c, pasos))
      && (s.registros != [] ==>
           var r, i := ObtenerPosicion(c, s, id), |s.registros| - 1;
           && (r == -1 <==> forall k :: 0 <= k < |pasos| ==> !DefineEn(c, pasos, k, i, id))
           && (forall k :: 0 <= k < |pasos| && PrimeraEn(c, pasos, k, i, id) ==> r == Respuesta(c, pasos, k)))
  {
    hide Correr, RegistroBien, Posicion, Base, Tope, DefineEn;
    CorridaInv(c, pasos);
    ArgumentosDe(c, pasos);
    var (s, m) := Correr(c, pasos);
    if s.registros != [] {
      var n := |s.registros| - 1;
      assert Nivel(c, s, m, n);
      assert RecuerdaUno(c, s.registros[n], m.direcciones[n], id);
      NombresDe(c, pasos, n, id);
    }
  }

  /**
   * A stretch of a run that ends with the calls it began with restores the stack pointer exactly when none of its steps
   * defines an argument; every one that does leaves it four bytes higher.
   */
  lemma PunteroRestaurado(c: Config, a: seq<Paso>, b: seq<Paso>)
    requires ConfigValida(c) && Posible(c, a) && Posible(c, a + b)
    requires Correr(c, a).0.registros == Correr(c, a + b).0.registros
    ensures Correr(c, a + b).0.stackPointer - Correr(c, a).0.stackPointer
         == 4 * (Argumentos(c, a + b) - Argumentos(c, a)) >= 0
    ensures Correr(c, a + b).0.stackPointer == Correr(c, a).0.stackPointer <==> SinArgumentos(c, a + b, |a|)
  {
    CorridaInv(c, a);
    CorridaInv(c, a + b);
    assert (a + b)[..|a|] == a;
    ArgumentosDesde(c, a + b, |a|);
    ArgumentosDe(c, a);
    ArgumentosDe(c, a + b);
    hide Correr, Nivel, Base, Tope, SinArgumentos, Posible;
  }

  lemma CorrerUno(c: Config, a: seq<Paso>, p: Paso)
    requires ConfigValida(c) && Posible(c, a)
    requires p.FinalizarLlamada? ==> Correr(c, a).0.registros != []
    ensures Posible(c, a + [p])
    ensures var (s, e) := (Correr(c, a).0, Correr(c, a + [p]).0);
      match p
      case DefinirVariable(id, sucio) => e == Definir(c, s, id, sucio).0
      case LlamarConRetorno(destino, donde) => e == Llamar(c, s, destino, donde)
      case FinalizarLlamada => e == Finalizar(s)
  {
    assert (a + [p])[..|a|] == a;
    hide Definir, Llamar, Finalizar, MarcaDefinir;
  }

  lemma UnArgumento(c: Config, s: Cpu, destino: Palabra, donde: Palabra, id: Byte, sucio: RegistroStack)
    requires ConfigValida(c) && EsDigito(id) && s.stackPointer + 4 <= Tope(c)
    ensures var e := Definir(c, Llamar(c, s, destino, donde), id, sucio).0;
      && e.registros != []
      && Finalizar(e).registros == s.registros && Finalizar(e).stackPointer == s.stackPointer + 4
  {
    hide Tope, Base, Nueva;
    assert Llamar(c, s, destino, donde).registros[..|s.registros|] == s.registros;
  }

  /** Calling, defining one argument and coming back: the calls are those there were, the pointer four bytes higher. */
  lemma PunteroPerdido(c: Config, a: seq<Paso>, destino: Palabra, donde: Palabra, id: Byte, sucio: RegistroStack)
    requires ConfigValida(c) && Posible(c, a) && EsDigito(id) && Correr(c, a).0.stackPointer + 4 <= Tope(c)
    ensures var b := [LlamarConRetorno(destino, donde), DefinirVariable(id, sucio), FinalizarLlamada];
      && Posible(c, a + b)
      && Correr(c, a + b).0.registros == Correr(c, a).0.registros
      && Correr(c, a + b).0.stackPointer == Correr(c, a).0.stackPointer + 4
  {
    var x, y, z := LlamarConRetorno(destino, donde), DefinirVariable(id, sucio), FinalizarLlamada;
    assert a + [x] + [y] + [z] == a + [x, y, z];
    hide Correr, Posible, Tope, Base, Nueva, Llamar, Definir, Finalizar;
    UnArgumento(c, Correr(c, a).0, destino, donde, id, sucio);
    CorrerUno(c, a, x);
    CorrerUno(c, a + [x], y);
    CorrerUno(c, a + [x] + [y], z);
  }

  /** The page and offset kept for a slot are the usual ones except at the first byte of a later page. */
  lemma AvanceNormal(tp: Palabra, sp: nat)
    requires tp > 0
    ensures Avance(tp, sp).1 < tp <==> sp == 0 || sp % tp != 0
    ensures sp == 0 || sp % tp != 0 ==> Avance(tp, sp) == (sp / tp, sp % tp)
  {
    var (k, o) := Avance(tp, sp);
    hide Avance;
    if sp == 0 {
      DivisionUnica(tp, sp, 0, 0);
    } else if o < tp {
      DivisionUnica(tp, sp, k, o);
    } else {
      assert (k + 1) * tp == k * tp + tp;
      DivisionUnica(tp, sp, k + 1, 0);
    }
  }

  // ---------------------------------------------------------------- control over whole runs

  /** A call goes to its label, and leaves the way back and everything else in place. */
  lemma LlamadaVa(c: Config, a: seq<Paso>, destino: Palabra, donde: Palabra)
    requires ConfigValida(c) && Posible(c, a)
    ensures Posible(c, a + [LlamarConRetorno(destino, donde)])
    ensures var s, e := Correr(c, a).0, Correr(c, a + [LlamarConRetorno(destino, donde)]).0;
      var n := |s.registros|;
      && e.programCounter == destino && e.stackPointer == s.stackPointer
      && |e.registros| == n + 1 && e.registros[..n] == s.registros
      && e.registros[n].args == [] && e.registros[n].vars == [] && e.registros[n].retPos == s.programCounter
  {
    hide Correr, Posible;
    CorrerUno(c, a, LlamarConRetorno(destino, donde));
  }

  /** From step `desde` on there are at least `n` calls. */
  predicate NoBaja(c: Config, pasos: seq<Paso>, desde: nat, n: nat)
    requires ConfigValida(c) && Posible(c, pasos)
  {
    forall j :: desde <= j <= |pasos| ==> |Tras(c, pasos, j).registros| >= n
  }

  /** One step above call `n` leaves the calls below it alone, and its return position. */
  lemma PasoQuieto(c: Config, a: seq<Paso>, p: Paso, n: nat)
    requires ConfigValida(c) && Posible(c, a) && Posible(c, a + [p])
    requires |Correr(c, a).0.registros| > n && |Correr(c, a + [p]).0.registros| > n
    ensures var s, e := Correr(c, a).0, Correr(c, a + [p]).0;
      e.registros[..n] == s.registros[..n] && e.registros[n].retPos == s.registros[n].retPos
  {
    hide Correr, Posible, Tope, Base, Nueva;
    CorrerUno(c, a, p);
  }

  lemma {:induction false} RegistrosQuietos(c: Config, pasos: seq<Paso>, desde: nat, n: nat)
    requires ConfigValida(c) && Posible(c, pasos) && desde <= |pasos| && NoBaja(c, pasos, desde, n + 1)
    ensures |Tras(c, pasos, desde).registros| > n && |Correr(c, pasos).0.registros| > n
    ensures var s, e := Tras(c, pasos, desde), Correr(c, pasos).0;
      e.registros[..n] == s.registros[..n] && e.registros[n].retPos == s.registros[n].retPos
  {
    hide Correr, Tras;
    TrasTodo(c, pasos);
    if desde < |pasos| {
      var m := |pasos| - 1;
      forall j | desde <= j <= m
        ensures Tras(c, pasos[..m], j) == Tras(c, pasos, j)
      {
        TrasPrefijo(c, pasos, j);
      }
      RegistrosQuietos(c, pasos[..m], desde, n);
      assert pasos == pasos[..m] + [pasos[m]];
      PasoQuieto(c, pasos[..m], pasos[m], n);
    }
  }

  /**
   * A call, any stretch that never leaves it, and the end of the call: control is back where the call was made, and the
   * calls there were then hold what they held. The end of the outermost call ends the program instead.
   */
  lemma LlamadaVuelve(c: Config, a: seq<Paso>, destino: Palabra, donde: Palabra, b: seq<Paso>)
    requires ConfigValida(c) && Posible(c, a) && Posible(c, a + [LlamarConRetorno(destino, donde)] + b)
    requires var p, n := a + [LlamarConRetorno(destino, donde)] + b, |Correr(c, a).0.registros|;
      NoBaja(c, p, |a| + 1, n + 1) && |Correr(c, p).0.registros| == n + 1
    ensures Posible(c, a + [LlamarConRetorno(destino, donde)] + b + [FinalizarLlamada])
    ensures var s, e := Correr(c, a).0, Correr(c, a + [LlamarConRetorno(destino, donde)] + b + [FinalizarLlamada]).0;
      && e.registros == s.registros
      && (if s.registros == [] then e.programaTerminado else e.programCounter == s.programCounter)
  {
    hide Correr, Posible, NoBaja, Llamar;
    var l := LlamarConRetorno(destino, donde);
    var p, n := a + [l] + b, |Correr(c, a).0.registros|;
    LlamadaVa(c, a, destino, donde);
    RegistrosQuietos(c, p, |a| + 1, n);
    assert p[..|a| + 1] == a + [l];
    CorrerUno(c, p, FinalizarLlamada);
    var e := Correr(c, p).0;
    assert e.registros[..n] == Correr(c, a + [l]).0.registros[..n];
  }

  /** A definition, whether it fits or not, moves neither control nor the end of the program. */
  lemma DefinicionQuieta(c: Config, a: seq<Paso>, id: Byte, sucio: RegistroStack)
    requires ConfigValida(c) && Posible(c, a)
    ensures Posible(c, a + [DefinirVariable(id, sucio)])
    ensures var s, e := Correr(c, a).0, Correr(c, a + [DefinirVariable(id, sucio)]).0;
      e.programCounter == s.programCounter && e.programaTerminado == s.programaTerminado
  {
    hide Correr, Posible, Tope, Base, Nueva;
    CorrerUno(c, a, DefinirVariable(id, sucio));
  }

  /** Step `k` defines a name for which the stack has no room. */
  predicate SinLugar(c: Config, pasos: seq<Paso>, k: nat)
    requires ConfigValida(c) && Posible(c, pasos)
  {
    k < |pasos| && pasos[k].DefinirVariable? && Tras(c, pasos, k).stackPointer + 4 > Tope(c)
  }

  /** Step `k` ends the outermost call. */
  predicate Termina(c: Config, pasos: seq<Paso>, k: nat)
    requires ConfigValida(c) && Posible(c, pasos)
  {
    k < |pasos| && pasos[k].FinalizarLlamada? && |Tras(c, pasos, k).registros| == 1
  }

  /** A definition is answered -1 exactly when there is no room for it, and then no call and no pointer changes. */
  lemma DefinicionSinLugar(c: Config, pasos: seq<Paso>, k: nat)
    requires ConfigValida(c) && Posible(c, pasos) && k < |pasos| && pasos[k].DefinirVariable?
    ensures Respuesta(c, pasos, k) == -1 <==> SinLugar(c, pasos, k)
    ensures SinLugar(c, pasos, k) ==>
      var s, e := Tras(c, pasos, k), Tras(c, pasos, k + 1);
      e.registros == s.registros && e.stackPointer == s.stackPointer
  {
    hide Tope, Base, Nueva, Posible, Correr;
    PosiblePrefijo(c, pasos, k);
    assert pasos[..k + 1] == pasos[..k] + [pasos[k]];
    CorrerUno(c, pasos[..k], pasos[k]);
  }

  lemma FlagsPrefijo(c: Config, pasos: seq<Paso>, k: nat)
    requires ConfigValida(c) && Posible(c, pasos) && k + 1 < |pasos|
    ensures Posible(c, pasos[..|pasos| - 1])
    ensures SinLugar(c, pasos[..|pasos| - 1], k) <==> SinLugar(c, pasos, k)
    ensures Termina(c, pasos[..|pasos| - 1], k) <==> Termina(c, pasos, k)
  {
    hide Tope, Posible, Tras;
    TrasPrefijo(c, pasos, k);
  }

  lemma UltimoPaso(c: Config, a: seq<Paso>, p: Paso)
    requires ConfigValida(c) && Posible(c, a) && Posible(c, a + [p])
    ensures SinLugar(c, a + [p], |a|) <==> p.DefinirVariable? && Correr(c, a).0.stackPointer + 4 > Tope(c)
    ensures Termina(c, a + [p], |a|) <==> p.FinalizarLlamada? && |Correr(c, a).0.registros| == 1
  {
    hide Correr, Posible, Tope;
    assert (a + [p])[..|a|] == a;
  }

  lemma FlagsPaso(c: Config, a: seq<Paso>, p: Paso)
    requires ConfigValida(c) && Posible(c, a) && Posible(c, a + [p])
    ensures var s, e := Correr(c, a).0, Correr(c, a + [p]).0;
      && (e.excepcionMemoria <==> s.excepcionMemoria || SinLugar(c, a + [p], |a|))
      && e.codigoError == (if SinLugar(c, a + [p], |a|) then -20 else s.codigoError)
      && (e.programaTerminado <==> s.programaTerminado || Termina(c, a + [p], |a|))
  {
    hide Correr, Posible, Tope, Base, Nueva, SinLugar, Termina;
    assert p.FinalizarLlamada? ==> Correr(c, a).0.registros != [] by {
      UltimoPosible(c, a, p);
    }
    CorrerUno(c, a, p);
    UltimoPaso(c, a, p);
  }

  lemma UltimoPosible(c: Config, a: seq<Paso>, p: Paso)
    requires ConfigValida(c) && Posible(c, a) && Posible(c, a + [p])
    ensures p.FinalizarLlamada? ==> Correr(c, a).0.registros != []
  {
    hide Correr;
    assert (a + [p])[..|a|] == a;
  }

  /**
   * Over any run: the memory exception is raised, with code -20, exactly when some definition found no room; the
   * program has ended exactly when some step ended the outermost call.
   */
  lemma {:induction false} Banderas(c: Config, pasos: seq<Paso>)
    requires ConfigValida(c) && Posible(c, pasos)
    ensures var s := Correr(c, pasos).0;
      && (s.excepcionMemoria <==> exists k :: 0 <= k < |pasos| && SinLugar(c, pasos, k))
      && s.codigoError == (if s.excepcionMemoria then -20 else 0)
      && (s.programaTerminado <==> exists k :: 0 <= k < |pasos| && Termina(c, pasos, k))
  {
    if pasos != [] {
      var n := |pasos| - 1;
      var a := pasos[..n];
      assert pasos == a + [pasos[n]];
      assert Posible(c, a);
      Banderas(c, a);
      FlagsPaso(c, a, pasos[n]);
      hide Correr, Posible, SinLugar, Termina;
      forall k | 0 <= k < n
        ensures SinLugar(c, a, k) <==> SinLugar(c, pasos, k)
        ensures Termina(c, a, k) <==> Termina(c, pasos, k)
      {
        FlagsPrefijo(c, pasos, k);
      }
    }
  }

  // ---------------------------------------------------------------- slots and pages

  /** The four bytes at the address of the slot lie inside one page, as memory asks of every access. */
  predicate EnUnaPagina(c: Config, v: Variable)
    requires ConfigValida(c)
  {
    Direccion(c, v) % c.tamanioPagina + 4 <= c.tamanioPagina
  }

  /** Every slot of a record stands a multiple of four above the base of the stack. */
  predicate DeACuatro(c: Config, r: RegistroStack) {
    forall k :: 0 <= k < |Ranuras(r)| ==> (Direccion(c, Ranuras(r)[k]) - Base(c)) % 4 == 0
  }

  lemma AgregarDeACuatro(c: Config, r: RegistroStack, v: Variable)
    requires DeACuatro(c, r) && (Direccion(c, v) - Base(c)) % 4 == 0
    ensures DeACuatro(c, Agregar(r, v))
  {
    hide Direccion, Base;
    var x := Ranuras(r);
    var p := if EsDigito(v.id) then |r.args| else |x|;
    assert Ranuras(Agregar(r, v)) == x[..p] + [v] + x[p..];
  }

  predicate TodasDeACuatro(c: Config, rs: seq<RegistroStack>) {
    forall i :: 0 <= i < |rs| ==> DeACuatro(c, rs[i])
  }

  lemma DefinirDeACuatro(c: Config, s: Cpu, id: Byte, sucio: RegistroStack)
    requires ConfigValida(c) && s.stackPointer % 4 == 0 && TodasDeACuatro(c, s.registros)
    ensures TodasDeACuatro(c, Definir(c, s, id, sucio).0.registros)
  {
    hide Base, Tope, Nueva, Direccion, DeACuatro, Agregar;
    if s.stackPointer + 4 <= Tope(c) {
      var r := sucio.(args := [], vars := []);
      VacioDeACuatro(c, r);
      var v := Nueva(c, s.stackPointer, id);
      AgregarDeACuatro(c, if s.registros == [] then r else s.registros[|s.registros| - 1], v);
    }
  }

  lemma {:induction false} RanurasDeACuatro(c: Config, pasos: seq<Paso>)
    requires ConfigValida(c) && Posible(c, pasos)
    ensures TodasDeACuatro(c, Correr(c, pasos).0.registros)
  {
    hide Base, Tope, DeACuatro, Definir, MarcaDefinir, Inv;
    if pasos != [] {
      var n := |pasos| - 1;
      RanurasDeACuatro(c, pasos[..n]);
      var (s, m) := Correr(c, pasos[..n]);
      match pasos[n]
      case DefinirVariable(id, sucio) =>
        CorridaInv(c, pasos[..n]);
        PunteroEnLaPila(c, s, m);
        DefinirDeACuatro(c, s, id, sucio);
      case LlamarConRetorno(destino, donde) =>
        VacioDeACuatro(c, Llamar(c, s, destino, donde).registros[|s.registros|]);
      case FinalizarLlamada =>
    }
  }

  lemma VacioDeACuatro(c: Config, r: RegistroStack)
    requires r.args == [] && r.vars == []
    ensures DeACuatro(c, r)
  {
  }

  /** The page is a multiple of four bytes, or the stack is too short for a slot across its first boundary. */
  predicate PaginasPorPalabra(c: Config)
    requires ConfigValida(c)
  {
    c.tamanioPagina % 4 == 0 || Tope(c) < 4 * (c.tamanioPagina / 4) + 4
  }

  /** Where address `Base + o` falls in its page. */
  lemma ResiduoDeBase(c: Config, d: nat, o: nat)
    requires ConfigValida(c) && d == Base(c) + o
    ensures d % c.tamanioPagina == o % c.tamanioPagina
  {
    var t := c.tamanioPagina;
    var k, r := o / t, o % t;
    assert o == k * t + r;
    assert (c.primerPagina + k) * t == c.primerPagina * t + k * t;
    DivisionUnica(t, d, c.primerPagina + k, r);
  }

  lemma MultiploEnPagina(t: nat, o: nat)
    requires t > 0 && t % 4 == 0 && o % 4 == 0
    ensures o % t + 4 <= t
  {
    var k, r, q := o / t, o % t, t / 4;
    assert o == k * t + r;
    assert k * t == 4 * (k * q) by {
      assert t == 4 * q;
      assert k * t == k * (4 * q) == 4 * (k * q);
    }
  }

  lemma RanuraEnPagina(c: Config, v: Variable)
    requires ConfigValida(c) && PaginasPorPalabra(c)
    requires Entre(c, v, 0, Tope(c)) && (Direccion(c, v) - Base(c)) % 4 == 0
    ensures EnUnaPagina(c, v)
  {
    hide Base, Tope, Direccion;
    var o := Direccion(c, v) - Base(c);
    var t := c.tamanioPagina;
    ResiduoDeBase(c, Direccion(c, v), o);
    if t % 4 == 0 {
      MultiploEnPagina(t, o);
    } else {
      DivisionUnica(t, o, 0, o);
    }
  }

  /** `n` definitions of the variable `a`. */
  function Definiciones(n: nat): seq<Paso> {
    seq(n, _ => DefinirVariable(97, RegistroStack([], [], 0, PagOffSize(0, 0, 0))))
  }

  /** They all fit, one after another, in one record. */
  lemma {:induction false} CorridaDeDefiniciones(c: Config, n: nat)
    requires ConfigValida(c) && 4 * n <= Tope(c)
    ensures Posible(c, Definiciones(n)) && Correr(c, Definiciones(n)).0.stackPointer == 4 * n
    ensures n > 0 ==>
      var rs := Correr(c, Definiciones(n)).0.registros;
      |rs| == 1 && rs[0].args == [] && |rs[0].vars| == n && rs[0].vars[n - 1] == Nueva(c, 4 * (n - 1), 97)
    ensures n == 0 ==> Correr(c, Definiciones(n)).0.registros == []
  {
    hide Tope, Base, Nueva, MarcaDefinir;
    if n > 0 {
      CorridaDeDefiniciones(c, n - 1);
      assert Definiciones(n)[..n - 1] == Definiciones(n - 1);
    } else {
      assert Definiciones(n) == [];
    }
  }

  /** Whatever the run, every live slot lies inside one page. */
  ghost predicate SiempreEnUnaPagina(c: Config)
    requires ConfigValida(c)
  {
    forall pasos, i: nat, k: nat :: Posible(c, pasos) && Viva(Correr(c, pasos).0, i, k) ==>
      EnUnaPagina(c, Ranuras(Correr(c, pasos).0.registros[i])[k])
  }

  /**
   * Every slot of every run lies inside one page exactly when the page is a multiple of four bytes, or the stack ends
   * before its first slot across a boundary.
   */
  lemma RanurasEnPaginas(c: Config)
    requires ConfigValida(c)
    ensures SiempreEnUnaPagina(c) <==> PaginasPorPalabra(c)
  {
    hide Posible, Correr, EnUnaPagina, Tope, Base, Definiciones;
    if PaginasPorPalabra(c) {
      forall pasos, i: nat, k: nat | Posible(c, pasos) && Viva(Correr(c, pasos).0, i, k)
        ensures EnUnaPagina(c, Ranuras(Correr(c, pasos).0.registros[i])[k])
      {
        VivaEnPagina(c, pasos, i, k);
      }
    } else {
      var n := c.tamanioPagina / 4 + 1;
      CorridaDeDefiniciones(c, n);
      var s := Correr(c, Definiciones(n)).0;
      assert Viva(s, 0, n - 1) && Ranuras(s.registros[0])[n - 1] == Nueva(c, 4 * (n - 1), 97);
      Cruzada(c, Nueva(c, 4 * (n - 1), 97));
    }
  }

  lemma VivaEnPagina(c: Config, pasos: seq<Paso>, i: nat, k: nat)
    requires ConfigValida(c) && Posible(c, pasos) && Viva(Correr(c, pasos).0, i, k) && PaginasPorPalabra(c)
    ensures EnUnaPagina(c, Ranuras(Correr(c, pasos).0.registros[i])[k])
  {
    hide Correr, Posible, Inv, Base, Tope, Direccion, PaginasPorPalabra, EnUnaPagina;
    CorridaInv(c, pasos);
    RanurasDeACuatro(c, pasos);
    var (s, m) := Correr(c, pasos);
    PunteroEnLaPila(c, s, m);
    assert DeACuatro(c, s.registros[i]);
    BajoElPuntero(c, s, m, i);
    RanuraEntre(c, s, m, i, k);
    RanuraEnPagina(c, Ranuras(s.registros[i])[k]);
  }

  /** The last whole word of the first page is followed by a slot that crosses into the next page. */
  lemma Cruzada(c: Config, v: Variable)
    requires ConfigValida(c) && c.tamanioPagina % 4 != 0
    requires Direccion(c, v) == Base(c) + 4 * (c.tamanioPagina / 4)
    ensures !EnUnaPagina(c, v)
  {
    hide Base, Direccion;
    var o := 4 * (c.tamanioPagina / 4);
    ResiduoDeBase(c, Direccion(c, v), o);
    DivisionUnica(c.tamanioPagina, o, 0, o);
  }

  /** A stack of more than one page, full up to its first boundary: the next slot keeps an offset of a whole page. */
  lemma OffsetDeUnaPagina(c: Config)
    requires ConfigValida(c) && c.tamanioPagina % 4 == 0 && c.tamanioPagina + 4 <= Tope(c)
    ensures var n := c.tamanioPagina / 4 + 1;
      && Posible(c, Definiciones(n))
      && var s := Correr(c, Definiciones(n)).0;
         Viva(s, 0, n - 1) && Ranuras(s.registros[0])[n - 1].offset == c.tamanioPagina
  {
    hide Posible, Correr, Tope, Base, Definiciones, Avance;
    var n := c.tamanioPagina / 4 + 1;
    CorridaDeDefiniciones(c, n);
    var s := Correr(c, Definiciones(n)).0;
    assert Ranuras(s.registros[0])[n - 1] == Nueva(c, 4 * (n - 1), 97);
    AvanceNormal(c.tamanioPagina, c.tamanioPagina);
  }

  /** An empty call leaves the program where it was; its record holds the return address. */
  lemma LlamarYFinalizar(c: Config, s: Cpu, destino: Palabra, donde: Palabra)
    requires ConfigValida(c)
    ensures var e := Llamar(c, s, destino, donde);
      var r := e.registros[|e.registros| - 1];
      && r.retVar.page * c.tamanioPagina + r.retVar.offset == donde
      && (s.registros != [] ==> Finalizar(e) == s)
      && (s.registros == [] ==> Finalizar(e).programaTerminado && Finalizar(e).registros == [])
  {
  }
}
