/** The process control block, its bytes on the wire, and the reader of those bytes. */
module Pcb {
  import opened Bytes

  type Palabra = x: int | 0 <= x < 0x1_0000_0000

  /** A variable or argument: the four bytes it takes in the process's stack. */
  datatype Variable = Variable(id: Byte, page: Palabra, offset: Palabra, size: Palabra)

  datatype PagOffSize = PagOffSize(page: Palabra, offset: Palabra, size: Palabra)

  datatype RegistroStack = RegistroStack(args: seq<Variable>, vars: seq<Variable>, retPos: Palabra, retVar: PagOffSize)

  datatype Instruccion = Instruccion(inicio: Palabra, offset: Palabra)

  datatype PCB = PCB(
    pid: Palabra, pageCounter: Palabra, direccionInicioCodigo: Palabra, programCounter: Palabra,
    cantidadDeInstrucciones: Palabra, indiceDeCodigo: seq<Instruccion>, listaDeEtiquetas: seq<Byte>,
    exitCode: Palabra, estado: seq<Byte>, stackIndex: seq<RegistroStack>,
    primerPaginaStack: Palabra, stackPointer: Palabra, tamanioStack: Palabra)

  // ---------------------------------------------------------------- bytes of each part

  function Palabras(ws: seq<Palabra>): (b: seq<Byte>)
    ensures |b| == 4 * |ws|
  {
    if ws == [] then [] else U32(ws[0]) + Palabras(ws[1..])
  }

  function DeVariable(v: Variable): (b: seq<Byte>)
    ensures |b| == 13
  {
    [v.id] + Palabras([v.offset, v.page, v.size])
  }

  function DeVariables(vs: seq<Variable>): (b: seq<Byte>)
    ensures |b| == 13 * |vs|
  {
    if vs == [] then [] else DeVariable(vs[0]) + DeVariables(vs[1..])
  }

  predicate RegistroValido(r: RegistroStack) {
    |r.args| < TOPE31 && |r.vars| < TOPE31
  }

  function DeRegistro(r: RegistroStack): (b: seq<Byte>)
    requires RegistroValido(r)
    ensures |b| == TamanioRegistro(r)
  {
    U32(|r.args|) + DeVariables(r.args) + U32(|r.vars|) + DeVariables(r.vars)
    + Palabras([r.retPos, r.retVar.offset, r.retVar.page, r.retVar.size])
  }

  /** What the size pass adds for a record: the variables, two counters, and the return fields. */
  function TamanioRegistro(r: RegistroStack): nat {
    13 * |r.args| + 13 * |r.vars| + (12 + 4) + 8
  }

  function DeStack(rs: seq<RegistroStack>): (b: seq<Byte>)
    requires forall k :: 0 <= k < |rs| ==> RegistroValido(rs[k])
    ensures |b| == TamanioStack(rs)
  {
    if rs == [] then [] else DeRegistro(rs[0]) + DeStack(rs[1..])
  }

  function TamanioStack(rs: seq<RegistroStack>): nat {
    if rs == [] then 0 else TamanioRegistro(rs[0]) + TamanioStack(rs[1..])
  }

  function DeIndice(es: seq<Instruccion>): (b: seq<Byte>)
    ensures |b| == 8 * |es|
  {
    if es == [] then [] else Palabras([es[0].inicio, es[0].offset]) + DeIndice(es[1..])
  }

  /** The counters describe their parts, the state name is a C string, and the sizes fit a 32-bit word. */
  predicate PCBValido(p: PCB) {
    && |p.indiceDeCodigo| == p.cantidadDeInstrucciones && 8 * p.cantidadDeInstrucciones < TOPE32
    && |p.listaDeEtiquetas| < TOPE32
    && 0 !in p.estado && |p.estado| + 1 < TOPE32
    && |p.stackIndex| < TOPE32
    && forall k :: 0 <= k < |p.stackIndex| ==> RegistroValido(p.stackIndex[k])
  }

  function Cabeza(p: PCB): seq<Palabra>
    requires PCBValido(p)
  {
    [p.pid, p.pageCounter, p.direccionInicioCodigo, p.programCounter, p.cantidadDeInstrucciones,
     8 * p.cantidadDeInstrucciones]
  }

  function Cola(p: PCB): seq<Palabra>
    requires PCBValido(p)
  {
    [p.exitCode, p.primerPaginaStack, p.stackPointer, p.tamanioStack, |p.stackIndex|]
  }

  /** The bytes of a whole block. */
  function DePCB(p: PCB): (b: seq<Byte>)
    requires PCBValido(p)
    ensures |b| == TamanioPCB(p)
  {
    Palabras(Cabeza(p)) + DeIndice(p.indiceDeCodigo)
    + U32(|p.listaDeEtiquetas|) + p.listaDeEtiquetas
    + U32(|p.estado| + 1) + (p.estado + [0])
    + Palabras(Cola(p)) + DeStack(p.stackIndex)
  }

  /** The size the sender computes before serializing: fixed fields, the three variable parts, and the stack. */
  function TamanioPCB(p: PCB): nat {
    52 + 8 * p.cantidadDeInstrucciones + |p.listaDeEtiquetas| + (|p.estado| + 1) + TamanioStack(p.stackIndex)
  }

  // ---------------------------------------------------------------- the reader

  /** The outcome of reading from a stream: a value and what is left, or the stream ended too soon. */
  datatype Lectura<T> = Corto | Leido(valor: T, resto: seq<Byte>)
  {
    predicate IsFailure() { Corto? }
    function PropagateFailure<U>(): Lectura<U>
      requires Corto?
    {
      Corto
    }
    function Extract(): (T, seq<Byte>)
      requires Leido?
    {
      (valor, resto)
    }
  }

  function LeerBytes(s: seq<Byte>, n: nat): (l: Lectura<seq<Byte>>)
    ensures l.Leido? ==> |l.resto| <= |s|
  {
    if |s| < n then Corto else Leido(s[..n], s[n..])
  }

  function LeerU32(s: seq<Byte>): (l: Lectura<Palabra>)
    ensures l.Leido? ==> |l.resto| <= |s|
  {
    var (b, s) :- LeerBytes(s, 4);
    Leido(De32(b), s)
  }

  function LeerVariable(s: seq<Byte>): (l: Lectura<Variable>)
    ensures l.Leido? ==> |l.resto| <= |s|
  {
    var (id, s) :- LeerBytes(s, 1);
    var (offset, s) :- LeerU32(s);
    var (page, s) :- LeerU32(s);
    var (size, s) :- LeerU32(s);
    Leido(Variable(id[0], page, offset, size), s)
  }

  function LeerVariables(s: seq<Byte>, n: nat): (l: Lectura<seq<Variable>>)
    ensures l.Leido? ==> |l.resto| <= |s|
    decreases n
  {
    if n == 0 then Leido([], s) else
      var (v, s) :- LeerVariable(s);
      var (vs, s) :- LeerVariables(s, n - 1);
      Leido([v] + vs, s)
  }

  /** A counter read into a signed variable: negative ones count as nothing. */
  function Cuantos(w: Palabra): nat {
    if w < 0x8000_0000 then w else 0
  }

  function LeerRegistro(s: seq<Byte>): (l: Lectura<RegistroStack>)
    ensures l.Leido? ==> |l.resto| <= |s|
  {
    var (cantArgumentos, s) :- LeerU32(s);
    var (args, s) :- LeerVariables(s, Cuantos(cantArgumentos));
    var (cantVariables, s) :- LeerU32(s);
    var (vars, s) :- LeerVariables(s, Cuantos(cantVariables));
    var (retPos, s) :- LeerU32(s);
    var (offset, s) :- LeerU32(s);
    var (page, s) :- LeerU32(s);
    var (size, s) :- LeerU32(s);
    Leido(RegistroStack(args, vars, retPos, PagOffSize(page, offset, size)), s)
  }

  function LeerRegistros(s: seq<Byte>, n: nat): (l: Lectura<seq<RegistroStack>>)
    ensures l.Leido? ==> |l.resto| <= |s|
    decreases n
  {
    if n == 0 then Leido([], s) else
      var (r, s) :- LeerRegistro(s);
      var (rs, s) :- LeerRegistros(s, n - 1);
      Leido([r] + rs, s)
  }

  /** A raw buffer seen as an array of instruction entries. */
  function ComoIndice(b: seq<Byte>): seq<Instruccion> {
    if |b| < 8 then [] else [Instruccion(De32(b[..4]), De32(b[4..8]))] + ComoIndice(b[8..])
  }

  /** A raw buffer seen as a C string. */
  function ComoTexto(b: seq<Byte>): seq<Byte> {
    if b == [] || b[0] == 0 then [] else [b[0]] + ComoTexto(b[1..])
  }

  function LeerPCB(s: seq<Byte>): (l: Lectura<PCB>)
    ensures l.Leido? ==> |l.resto| <= |s|
  {
    var (pid, s) :- LeerU32(s);
    var (pageCounter, s) :- LeerU32(s);
    var (direccion, s) :- LeerU32(s);
    var (programCounter, s) :- LeerU32(s);
    var (cantidad, s) :- LeerU32(s);
    var (tamanioIndice, s) :- LeerU32(s);
    var (indice, s) :- LeerBytes(s, tamanioIndice);
    var (tamanioEtiquetas, s) :- LeerU32(s);
    var (etiquetas, s) :- LeerBytes(s, tamanioEtiquetas);
    var (tamanioEstado, s) :- LeerU32(s);
    var (estado, s) :- LeerBytes(s, tamanioEstado);
    var (exitCode, s) :- LeerU32(s);
    var (primerPagina, s) :- LeerU32(s);
    var (stackPointer, s) :- LeerU32(s);
    var (stackSize, s) :- LeerU32(s);
    var (cantRegistros, s) :- LeerU32(s);
    var (stack, s) :- LeerRegistros(s, cantRegistros);
    Leido(PCB(pid, pageCounter, direccion, programCounter, cantidad, ComoIndice(indice), etiquetas, exitCode,
              ComoTexto(estado), stack, primerPagina, stackPointer, stackSize), s)
  }

  // ---------------------------------------------------------------- reading back what was written

  lemma LeerBytesDe(b: seq<Byte>, r: seq<Byte>)
    ensures LeerBytes(b + r, |b|) == Leido(b, r)
  {
  }

  lemma LeerU32De(w: Palabra, r: seq<Byte>)
    ensures LeerU32(U32(w) + r) == Leido(w, r)
  {
  }

  lemma PalabrasCabeza(w: Palabra, ws: seq<Palabra>, r: seq<Byte>)
    ensures Palabras([w] + ws) + r == U32(w) + (Palabras(ws) + r)
    ensures LeerU32(Palabras([w] + ws) + r) == Leido(w, Palabras(ws) + r)
  {
  }

  lemma LeerVariableDe(v: Variable, r: seq<Byte>)
    ensures LeerVariable(DeVariable(v) + r) == Leido(v, r)
  {
    hide Palabras, LeerU32;
    var ps := Palabras([v.offset, v.page, v.size]);
    ConcatAsocia([v.id], ps, r);
    LeerBytesDe([v.id], ps + r);
    assert [v.offset] + [v.page, v.size] == [v.offset, v.page, v.size];
    assert [v.page] + [v.size] == [v.page, v.size];
    assert [v.size] + [] == [v.size];
    PalabrasCabeza(v.offset, [v.page, v.size], r);
    PalabrasCabeza(v.page, [v.size], r);
    PalabrasCabeza(v.size, [], r);
  }

  lemma {:induction false} LeerVariablesDe(vs: seq<Variable>, r: seq<Byte>)
    ensures LeerVariables(DeVariables(vs) + r, |vs|) == Leido(vs, r)
  {
    hide LeerVariable, DeVariable;
    if vs == [] {
      assert [] + r == r;
    } else {
      ConcatAsocia(DeVariable(vs[0]), DeVariables(vs[1..]), r);
      LeerVariableDe(vs[0], DeVariables(vs[1..]) + r);
      LeerVariablesDe(vs[1..], r);
      assert [vs[0]] + vs[1..] == vs;
    }
  }

  lemma Asocia5(a: seq<Byte>, b: seq<Byte>, c: seq<Byte>, d: seq<Byte>, e: seq<Byte>, r: seq<Byte>)
    ensures a + b + c + d + e + r == a + (b + (c + (d + (e + r))))
  {
  }

  lemma LeerRegistroDe(g: RegistroStack, r: seq<Byte>)
    requires RegistroValido(g)
    ensures LeerRegistro(DeRegistro(g) + r) == Leido(g, r)
  {
    hide Palabras, LeerU32, LeerVariables, DeVariables;
    var a, b, c, d := U32(|g.args|), DeVariables(g.args), U32(|g.vars|), DeVariables(g.vars);
    var ws := [g.retPos, g.retVar.offset, g.retVar.page, g.retVar.size];
    Asocia5(a, b, c, d, Palabras(ws), r);
    var r3 := Palabras(ws) + r;
    var r2 := d + r3;
    var r1 := b + (c + r2);
    LeerU32De(|g.args|, r1);
    LeerVariablesDe(g.args, c + r2);
    LeerU32De(|g.vars|, r2);
    LeerVariablesDe(g.vars, r3);
    assert [ws[0]] + ws[1..] == ws && [ws[1]] + ws[2..] == ws[1..] && [ws[2]] + ws[3..] == ws[2..]
        && [ws[3]] + [] == ws[3..];
    PalabrasCabeza(ws[0], ws[1..], r);
    PalabrasCabeza(ws[1], ws[2..], r);
    PalabrasCabeza(ws[2], ws[3..], r);
    PalabrasCabeza(ws[3], [], r);
  }

  lemma {:induction false} LeerRegistrosDe(gs: seq<RegistroStack>, r: seq<Byte>)
    requires forall k :: 0 <= k < |gs| ==> RegistroValido(gs[k])
    ensures LeerRegistros(DeStack(gs) + r, |gs|) == Leido(gs, r)
  {
    hide LeerRegistro, DeRegistro;
    if gs == [] {
      assert [] + r == r;
    } else {
      ConcatAsocia(DeRegistro(gs[0]), DeStack(gs[1..]), r);
      LeerRegistroDe(gs[0], DeStack(gs[1..]) + r);
      LeerRegistrosDe(gs[1..], r);
      assert [gs[0]] + gs[1..] == gs;
    }
  }

  lemma {:induction false} ComoIndiceDe(es: seq<Instruccion>)
    ensures ComoIndice(DeIndice(es)) == es
  {
    if es != [] {
      var e := es[0];
      var b := DeIndice(es);
      assert Palabras([e.inicio, e.offset]) == U32(e.inicio) + U32(e.offset) by {
        assert [e.inicio, e.offset][1..] == [e.offset];
        assert [e.offset][1..] == [];
        assert U32(e.offset) + [] == U32(e.offset);
      }
      assert b[..4] == U32(e.inicio) && b[4..8] == U32(e.offset) && b[8..] == DeIndice(es[1..]);
      ComoIndiceDe(es[1..]);
    }
  }

  lemma {:induction false} ComoTextoDe(s: seq<Byte>)
    requires 0 !in s
    ensures ComoTexto(s + [0]) == s
  {
    if s != [] {
      assert (s + [0])[1..] == s[1..] + [0];
      ComoTextoDe(s[1..]);
    }
  }

  /** The leading words, one by one. */
  lemma LeerCabeza(ws: seq<Palabra>, k: nat, r: seq<Byte>)
    requires k < |ws|
    ensures LeerU32(Palabras(ws[k..]) + r) == Leido(ws[k], Palabras(ws[k + 1..]) + r)
    ensures k + 1 == |ws| ==> Palabras(ws[k + 1..]) + r == r
  {
  }

  /** The bytes of a block before any suffix, field by field. */
  lemma FormaPCB(p: PCB, r: seq<Byte>)
    requires PCBValido(p)
    ensures DePCB(p) + r
         == Palabras(Cabeza(p)) + (DeIndice(p.indiceDeCodigo) + (U32(|p.listaDeEtiquetas|) + (p.listaDeEtiquetas
            + (U32(|p.estado + [0]|) + (p.estado + [0] + (Palabras(Cola(p)) + (DeStack(p.stackIndex) + r)))))))
  {
    hide Palabras, DeStack, DeIndice, Cabeza, Cola, U32;
  }

  /** Reading a serialized block, whatever follows it, gives the block back and leaves what follows. */
  lemma LeerPCBDe(p: PCB, r: seq<Byte>)
    requires PCBValido(p)
    ensures LeerPCB(DePCB(p) + r) == Leido(p, r)
  {
    hide Palabras, LeerU32, LeerBytes, LeerRegistros, DeStack, DeIndice, ComoIndice, ComoTexto;
    var cs, ls := Cabeza(p), Cola(p);
    var ind, etq, est := DeIndice(p.indiceDeCodigo), p.listaDeEtiquetas, p.estado + [0];
    var stk := DeStack(p.stackIndex);
    var r6 := Palabras(ls) + (stk + r);
    var r4 := U32(|est|) + (est + r6);
    var r2 := U32(|etq|) + (etq + r4);
    FormaPCB(p, r);
    hide DePCB, U32;
    assert cs[0..] == cs && ls[0..] == ls;
    LeerCabeza(cs, 0, ind + r2);
    LeerCabeza(cs, 1, ind + r2);
    LeerCabeza(cs, 2, ind + r2);
    LeerCabeza(cs, 3, ind + r2);
    LeerCabeza(cs, 4, ind + r2);
    LeerCabeza(cs, 5, ind + r2);
    LeerBytesDe(ind, r2);
    ComoIndiceDe(p.indiceDeCodigo);
    LeerU32De(|etq|, etq + r4);
    LeerBytesDe(etq, r4);
    LeerU32De(|est|, est + r6);
    LeerBytesDe(est, r6);
    ComoTextoDe(p.estado);
    LeerCabeza(ls, 0, stk + r);
    LeerCabeza(ls, 1, stk + r);
    LeerCabeza(ls, 2, stk + r);
    LeerCabeza(ls, 3, stk + r);
    LeerCabeza(ls, 4, stk + r);
    LeerRegistrosDe(p.stackIndex, r);
  }

  /** No two blocks share their bytes, even as prefixes of longer streams. */
  lemma BytesDeterminanPCB(p: PCB, r: seq<Byte>, q: PCB, t: seq<Byte>)
    requires PCBValido(p) && PCBValido(q) && DePCB(p) + r == DePCB(q) + t
    ensures p == q && r == t
  {
    hide DePCB, LeerPCB;
    LeerPCBDe(p, r);
    LeerPCBDe(q, t);
  }

  // ---------------------------------------------------------------- streams cut short

  /** Reading a stream and reading it with `y` after it: the same, unless `y` is needed to finish. */
  ghost predicate Sigue<T>(l: Lectura<T>, m: Lectura<T>, y: seq<Byte>) {
    && (l.Leido? ==> m.Leido? && m.valor == l.valor && m.resto == l.resto + y)
    && (l.Corto? && m.Leido? ==> |m.resto| < |y|)
  }

  lemma LeerBytesMas(s: seq<Byte>, y: seq<Byte>, n: nat)
    ensures Sigue(LeerBytes(s, n), LeerBytes(s + y, n), y)
  {
    if n <= |s| {
      assert (s + y)[..n] == s[..n] && (s + y)[n..] == s[n..] + y;
    }
  }

  lemma LeerU32Mas(s: seq<Byte>, y: seq<Byte>)
    ensures Sigue(LeerU32(s), LeerU32(s + y), y)
  {
    hide LeerBytes, De32;
    LeerBytesMas(s, y, 4);
  }

  lemma LeerVariableMas(s: seq<Byte>, y: seq<Byte>)
    ensures Sigue(LeerVariable(s), LeerVariable(s + y), y)
  {
    hide LeerU32;
    LeerBytesMas(s, y, 1);
    forall t: seq<Byte> {:trigger LeerU32(t + y)}
      ensures Sigue(LeerU32(t), LeerU32(t + y), y)
    {
      LeerU32Mas(t, y);
    }
  }

  lemma {:induction false} LeerVariablesMas(s: seq<Byte>, y: seq<Byte>, n: nat)
    ensures Sigue(LeerVariables(s, n), LeerVariables(s + y, n), y)
    decreases n
  {
    hide LeerVariable;
    if n > 0 {
      LeerVariableMas(s, y);
      if LeerVariable(s).Leido? {
        LeerVariablesMas(LeerVariable(s).resto, y, n - 1);
      }
    }
  }

  lemma LeerRegistroMas(s: seq<Byte>, y: seq<Byte>)
    ensures Sigue(LeerRegistro(s), LeerRegistro(s + y), y)
  {
    hide LeerU32, LeerVariables;
    forall t: seq<Byte> {:trigger LeerU32(t + y)}
      ensures Sigue(LeerU32(t), LeerU32(t + y), y)
    {
      LeerU32Mas(t, y);
    }
    forall t: seq<Byte>, n: nat {:trigger LeerVariables(t + y, n)}
      ensures Sigue(LeerVariables(t, n), LeerVariables(t + y, n), y)
    {
      LeerVariablesMas(t, y, n);
    }
  }

  lemma {:induction false} LeerRegistrosMas(s: seq<Byte>, y: seq<Byte>, n: nat)
    ensures Sigue(LeerRegistros(s, n), LeerRegistros(s + y, n), y)
    decreases n
  {
    hide LeerRegistro;
    if n > 0 {
      LeerRegistroMas(s, y);
      if LeerRegistro(s).Leido? {
        LeerRegistrosMas(LeerRegistro(s).resto, y, n - 1);
      }
    }
  }

  ghost predicate U32Sigue(y: seq<Byte>) {
    forall t: seq<Byte> {:trigger LeerU32(t + y)} :: Sigue(LeerU32(t), LeerU32(t + y), y)
  }

  ghost predicate BytesSigue(y: seq<Byte>) {
    forall t: seq<Byte>, n: nat {:trigger LeerBytes(t + y, n)} :: Sigue(LeerBytes(t, n), LeerBytes(t + y, n), y)
  }

  ghost predicate RegistrosSigue(y: seq<Byte>) {
    forall t: seq<Byte>, n: nat {:trigger LeerRegistros(t + y, n)} ::
      Sigue(LeerRegistros(t, n), LeerRegistros(t + y, n), y)
  }

  lemma PartesSiguen(y: seq<Byte>)
    ensures U32Sigue(y) && BytesSigue(y) && RegistrosSigue(y)
  {
    hide LeerU32, LeerBytes, LeerRegistros, Sigue;
    forall t: seq<Byte>
      ensures Sigue(LeerU32(t), LeerU32(t + y), y)
    {
      LeerU32Mas(t, y);
    }
    forall t: seq<Byte>, n: nat
      ensures Sigue(LeerBytes(t, n), LeerBytes(t + y, n), y) && Sigue(LeerRegistros(t, n), LeerRegistros(t + y, n), y)
    {
      LeerBytesMas(t, y, n);
      LeerRegistrosMas(t, y, n);
    }
  }

  lemma LeerPCBAlarga(s: seq<Byte>, y: seq<Byte>)
    requires LeerPCB(s).Leido?
    ensures LeerPCB(s + y) == Leido(LeerPCB(s).valor, LeerPCB(s).resto + y)
  {
    hide LeerU32, LeerBytes, LeerRegistros, ComoIndice, ComoTexto;
    PartesSiguen(y);
  }

  lemma LeerPCBCorta(s: seq<Byte>, y: seq<Byte>)
    requires LeerPCB(s).Corto? && LeerPCB(s + y).Leido?
    ensures |LeerPCB(s + y).resto| < |y|
  {
    hide LeerU32, LeerBytes, LeerRegistros, ComoIndice, ComoTexto;
    PartesSiguen(y);
  }

  /** What follows a block is never part of how it is read. */
  lemma LeerPCBMas(s: seq<Byte>, y: seq<Byte>)
    ensures Sigue(LeerPCB(s), LeerPCB(s + y), y)
  {
    hide LeerPCB;
    if LeerPCB(s).Leido? {
      LeerPCBAlarga(s, y);
    } else if LeerPCB(s + y).Leido? {
      LeerPCBCorta(s, y);
    }
  }

  /** A block cut short is never received whole: the reader waits for more, or takes bytes of what follows. */
  lemma BloqueCortado(p: PCB, k: nat, r: seq<Byte>)
    requires PCBValido(p) && k < |DePCB(p)|
    ensures LeerPCB(DePCB(p)[..k]) == Corto
    ensures var l := LeerPCB(DePCB(p)[..k] + r);
      l.Leido? ==> |l.resto| < |r|
  {
    hide LeerPCB, DePCB;
    var a, b := DePCB(p)[..k], DePCB(p)[k..];
    assert a + b == DePCB(p) && DePCB(p) + [] == DePCB(p);
    LeerPCBDe(p, []);
    LeerPCBMas(a, b);
    LeerPCBMas(a, r);
  }

  /** Blocks sent one after another. */
  function DePCBs(ps: seq<PCB>): seq<Byte>
    requires forall k :: 0 <= k < |ps| ==> PCBValido(ps[k])
  {
    if ps == [] then [] else DePCB(ps[0]) + DePCBs(ps[1..])
  }

  function LeerPCBs(s: seq<Byte>, n: nat): Lectura<seq<PCB>>
    decreases n
  {
    if n == 0 then Leido([], s) else
      var (p, s) :- LeerPCB(s);
      var (ps, s) :- LeerPCBs(s, n - 1);
      Leido([p] + ps, s)
  }

  /** A conversation of blocks is read back in order, none of them eating into the next. */
  lemma {:induction false} LeerPCBsDe(ps: seq<PCB>, r: seq<Byte>)
    requires forall k :: 0 <= k < |ps| ==> PCBValido(ps[k])
    ensures LeerPCBs(DePCBs(ps) + r, |ps|) == Leido(ps, r)
  {
    hide LeerPCB, DePCB;
    if ps == [] {
      assert [] + r == r;
    } else {
      ConcatAsocia(DePCB(ps[0]), DePCBs(ps[1..]), r);
      LeerPCBDe(ps[0], DePCBs(ps[1..]) + r);
      LeerPCBsDe(ps[1..], r);
      assert [ps[0]] + ps[1..] == ps;
    }
  }
}
