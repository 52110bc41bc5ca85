/** The serializer's shared buffers, and the receiver that takes a block off a connection. */
module Serializacion {
  import opened Bytes
  import opened Pcb

  /** One `memcpy` right after the bytes already written. */
  method Poner(a: array<Byte>, pos: nat, d: seq<Byte>)
    requires pos + |d| <= a.Length
    modifies a
    ensures a[..pos + |d|] == old(a[..pos]) + d
  {
    ghost var antes := a[..];
    Copiar(a, pos, d);
    EmpalmeIndices(antes, pos, d);
    hide Empalme;
    assert forall k :: 0 <= k < pos ==> a[..][k] == antes[k];
  }

  lemma {:induction false} VariablesMas(vs: seq<Variable>, k: nat)
    requires k < |vs|
    ensures DeVariables(vs[..k + 1]) == DeVariables(vs[..k]) + DeVariable(vs[k])
    decreases k
  {
    hide DeVariable;
    var a := vs[..k + 1];
    if k == 0 {
      assert a == [vs[0]] && a[1..] == [] && vs[..0] == [];
      assert DeVariable(vs[0]) + [] == [] + DeVariable(vs[0]);
    } else {
      VariablesMas(vs[1..], k - 1);
      assert a[1..] == vs[1..][..k] && vs[..k][1..] == vs[1..][..k - 1];
      ConcatAsocia(DeVariable(vs[0]), DeVariables(vs[1..][..k - 1]), DeVariable(vs[k]));
    }
  }

  lemma {:induction false} StackMas(rs: seq<RegistroStack>, k: nat)
    requires k < |rs| && forall i :: 0 <= i < |rs| ==> RegistroValido(rs[i])
    ensures DeStack(rs[..k + 1]) == DeStack(rs[..k]) + DeRegistro(rs[k])
    ensures TamanioStack(rs[..k + 1]) == TamanioStack(rs[..k]) + TamanioRegistro(rs[k])
    decreases k
  {
    hide DeRegistro;
    var a := rs[..k + 1];
    if k == 0 {
      assert a == [rs[0]] && a[1..] == [] && rs[..0] == [];
      assert DeRegistro(rs[0]) + [] == [] + DeRegistro(rs[0]);
    } else {
      StackMas(rs[1..], k - 1);
      assert a[1..] == rs[1..][..k] && rs[..k][1..] == rs[1..][..k - 1];
      ConcatAsocia(DeRegistro(rs[0]), DeStack(rs[1..][..k - 1]), DeRegistro(rs[k]));
    }
  }

  /** No prefix of the stack is larger than the whole. */
  lemma {:induction false} TamanioPrefijo(rs: seq<RegistroStack>, k: nat)
    requires k <= |rs|
    ensures TamanioStack(rs[..k]) <= TamanioStack(rs)
    decreases |rs|
  {
    if k > 0 {
      TamanioPrefijo(rs[1..], k - 1);
      assert rs[..k][1..] == rs[1..][..k - 1];
    }
  }

  class Serializador {
    var sendbuf: array<Byte>
    var stackbuf: array<Byte>
    var corrimiento: nat
    var tamanioStack: nat

    constructor ()
    {
      sendbuf, stackbuf := new Byte[0], new Byte[0];
      corrimiento, tamanioStack := 0, 0;
    }

    /** Appends to the stack buffer and moves the cursor. */
    method Apilar(d: seq<Byte>)
      requires corrimiento + |d| <= stackbuf.Length
      modifies this`corrimiento, stackbuf
      ensures corrimiento == old(corrimiento) + |d|
      ensures stackbuf[..corrimiento] == old(stackbuf[..corrimiento]) + d
    {
      Poner(stackbuf, corrimiento, d);
      corrimiento := corrimiento + |d|;
    }

    method SerializarVariables(v: Variable)
      requires corrimiento + 13 <= stackbuf.Length
      modifies this`corrimiento, stackbuf
      ensures corrimiento == old(corrimiento) + 13
      ensures stackbuf[..corrimiento] == old(stackbuf[..corrimiento]) + DeVariable(v)
    {
      hide U32;
      ghost var antes := stackbuf[..corrimiento];
      VariableEs(v, antes);
      Apilar([v.id]);
      Apilar(U32(v.offset));
      Apilar(U32(v.page));
      Apilar(U32(v.size));
    }

    /** `list_iterate` over the variables of a record. */
    method SerializarLista(vs: seq<Variable>)
      requires corrimiento + 13 * |vs| <= stackbuf.Length
      modifies this`corrimiento, stackbuf
      ensures corrimiento == old(corrimiento) + 13 * |vs|
      ensures stackbuf[..corrimiento] == old(stackbuf[..corrimiento]) + DeVariables(vs)
    {
      hide DeVariable, DeVariables;
      ghost var antes := stackbuf[..corrimiento];
      for i := 0 to |vs|
        invariant corrimiento == old(corrimiento) + 13 * i && stackbuf == old(stackbuf)
        invariant stackbuf[..corrimiento] == antes + DeVariables(vs[..i])
      {
        VariablesMas(vs, i);
        ConcatAsocia(antes, DeVariables(vs[..i]), DeVariable(vs[i]));
        SerializarVariables(vs[i]);
      }
      assert vs[..|vs|] == vs;
    }

    method SerializarElestac(registro: RegistroStack)
      requires RegistroValido(registro) && corrimiento + TamanioRegistro(registro) <= stackbuf.Length
      modifies this`corrimiento, stackbuf
      ensures corrimiento == old(corrimiento) + TamanioRegistro(registro)
      ensures stackbuf[..corrimiento] == old(stackbuf[..corrimiento]) + DeRegistro(registro)
    {
      hide U32, DeVariables;
      RegistroEs(registro, stackbuf[..corrimiento]);
      hide DeRegistro;
      Apilar(U32(|registro.args|));
      SerializarLista(registro.args);
      Apilar(U32(|registro.vars|));
      SerializarLista(registro.vars);
      Apilar(U32(registro.retPos));
      Apilar(U32(registro.retVar.offset));
      Apilar(U32(registro.retVar.page));
      Apilar(U32(registro.retVar.size));
    }

    /** The size pass, in the 32-bit word the original keeps it in. */
    method SumarTamanioRegistro(registro: RegistroStack)
      modifies this`tamanioStack
      ensures tamanioStack == (old(tamanioStack) + TamanioRegistro(registro)) % TOPE32
    {
      var tamanioArgumentos := 13 * |registro.args|;
      var tamanioVariables := 13 * |registro.vars|;
      var tamanioResto := 12 + 4;
      var cantVarsYArgs := 4 * 2;
      tamanioStack := (tamanioStack + tamanioArgumentos + tamanioVariables + tamanioResto + cantVarsYArgs) % TOPE32;
    }

    /** Sizes the stack before any byte is written. */
    method MedirStack(rs: seq<RegistroStack>)
      requires TamanioStack(rs) < TOPE32
      modifies this`tamanioStack
      ensures tamanioStack == TamanioStack(rs)
    {
      tamanioStack := 0;
      assert rs[..0] == [];
      for i := 0 to |rs|
        invariant tamanioStack == TamanioStack(rs[..i])
      {
        TamanioMas(rs, i);
        TamanioPrefijo(rs, i + 1);
        SumarTamanioRegistro(rs[i]);
      }
      assert rs[..|rs|] == rs;
    }

    /** Fills the stack buffer, which is exactly as long as the size pass said. */
    method SerializarStack(rs: seq<RegistroStack>)
      requires forall k :: 0 <= k < |rs| ==> RegistroValido(rs[k])
      requires corrimiento == 0 && stackbuf.Length == TamanioStack(rs)
      modifies this`corrimiento, stackbuf
      ensures stackbuf[..] == DeStack(rs) && corrimiento == stackbuf.Length
    {
      hide DeRegistro;
      assert rs[..0] == [];
      for i := 0 to |rs|
        invariant stackbuf == old(stackbuf) && corrimiento == TamanioStack(rs[..i]) <= stackbuf.Length
        invariant stackbuf[..corrimiento] == DeStack(rs[..i])
      {
        StackMas(rs, i);
        TamanioPrefijo(rs, i + 1);
        SerializarElestac(rs[i]);
      }
      assert rs[..|rs|] == rs;
      assert stackbuf[..corrimiento] == stackbuf[..];
    }

    /** A buffer of exactly the computed size, filled to its last byte with the block's bytes. */
    method PCBCereal(pcb: PCB)
      requires PCBValido(pcb) && TamanioStack(pcb.stackIndex) < TOPE32
      modifies this
      ensures fresh(sendbuf) && fresh(stackbuf)
      ensures tamanioStack == TamanioStack(pcb.stackIndex) && sendbuf.Length == TamanioPCB(pcb)
      ensures sendbuf[..] == DePCB(pcb)
    {
      hide U32, DeIndice, DeStack;
      var tamanioIndice := pcb.cantidadDeInstrucciones * 8;
      var tamanioEtiquetas := |pcb.listaDeEtiquetas|;
      var cantRegistros := |pcb.stackIndex|;
      var tamanioEstado := |pcb.estado| + 1;
      tamanioStack := 0;
      if cantRegistros > 0 {
        MedirStack(pcb.stackIndex);
      }
      sendbuf := new Byte[4 * 9 + 4 + 4 + tamanioIndice + tamanioEtiquetas + 4 + tamanioEstado + 4 + tamanioStack];
      stackbuf := new Byte[tamanioStack];
      corrimiento := 0;
      if cantRegistros > 0 {
        SerializarStack(pcb.stackIndex);
      }
      assert stackbuf[..] == DeStack(pcb.stackIndex);
      VolcarCampos(sendbuf, pcb, stackbuf[..]);
    }
  }

  lemma {:induction false} TamanioMas(rs: seq<RegistroStack>, k: nat)
    requires k < |rs|
    ensures TamanioStack(rs[..k + 1]) == TamanioStack(rs[..k]) + TamanioRegistro(rs[k])
    decreases k
  {
    var a := rs[..k + 1];
    if k == 0 {
      assert a[1..] == [] && rs[..0] == [];
    } else {
      TamanioMas(rs[1..], k - 1);
      assert a[1..] == rs[1..][..k] && rs[..k][1..] == rs[1..][..k - 1];
    }
  }

  /** Words written one after another are the words' bytes. */
  lemma {:induction false} PalabrasMas(ws: seq<Palabra>, w: Palabra)
    ensures Palabras(ws + [w]) == Palabras(ws) + U32(w)
  {
    hide U32;
    if ws == [] {
      assert ws + [w] == [w];
      assert [] + U32(w) == U32(w);
    } else {
      assert (ws + [w])[1..] == ws[1..] + [w];
      PalabrasMas(ws[1..], w);
      ConcatAsocia(U32(ws[0]), Palabras(ws[1..]), U32(w));
    }
  }

  lemma VariableEs(v: Variable, antes: seq<Byte>)
    ensures antes + [v.id] + U32(v.offset) + U32(v.page) + U32(v.size) == antes + DeVariable(v)
  {
    hide U32;
    PalabrasMas([v.offset], v.page);
    PalabrasMas([v.offset, v.page], v.size);
    assert [v.offset, v.page] + [v.size] == [v.offset, v.page, v.size];
    hide Palabras;
    var a, b, c := U32(v.offset), U32(v.page), U32(v.size);
  }

  lemma RegistroEs(r: RegistroStack, antes: seq<Byte>)
    requires RegistroValido(r)
    ensures antes + U32(|r.args|) + DeVariables(r.args) + U32(|r.vars|) + DeVariables(r.vars)
          + U32(r.retPos) + U32(r.retVar.offset) + U32(r.retVar.page) + U32(r.retVar.size)
         == antes + DeRegistro(r)
  {
    hide U32, DeVariables;
    var a, b, c, d := U32(|r.args|), DeVariables(r.args), U32(|r.vars|), DeVariables(r.vars);
    var ws := [r.retPos, r.retVar.offset, r.retVar.page, r.retVar.size];
    PalabrasMas([r.retPos], r.retVar.offset);
    PalabrasMas([r.retPos, r.retVar.offset], r.retVar.page);
    PalabrasMas([r.retPos, r.retVar.offset, r.retVar.page], r.retVar.size);
    assert [r.retPos] + [r.retVar.offset] == [r.retPos, r.retVar.offset];
    assert [r.retPos, r.retVar.offset] + [r.retVar.page] == [r.retPos, r.retVar.offset, r.retVar.page];
    assert [r.retPos, r.retVar.offset, r.retVar.page] + [r.retVar.size] == ws;
    hide Palabras;
  }

  /** One word after a run of words. */
  method PonerPalabra(a: array<Byte>, pos: nat, ghost base: seq<Byte>, ghost ws: seq<Palabra>, ghost k: nat, w: Palabra)
    requires pos + 4 <= a.Length && k < |ws| && ws[k] == w
    requires a[..pos] == base + Palabras(ws[..k])
    modifies a
    ensures a[..pos + 4] == base + Palabras(ws[..k + 1])
  {
    hide U32, Palabras;
    PalabrasMas(ws[..k], w);
    assert ws[..k] + [w] == ws[..k + 1];
    ConcatAsocia(base, Palabras(ws[..k]), U32(w));
    Poner(a, pos, U32(w));
  }

  /** The six leading words. */
  method VolcarCabeza(sendbuf: array<Byte>, pcb: PCB)
    requires PCBValido(pcb) && 4 * 6 <= sendbuf.Length
    modifies sendbuf
    ensures sendbuf[..4 * 6] == Palabras(Cabeza(pcb))
  {
    hide U32, Palabras;
    ghost var cs := Cabeza(pcb);
    PonerPalabra(sendbuf, 0, [], cs, 0, pcb.pid);
    PonerPalabra(sendbuf, 4, [], cs, 1, pcb.pageCounter);
    PonerPalabra(sendbuf, 4 * 2, [], cs, 2, pcb.direccionInicioCodigo);
    PonerPalabra(sendbuf, 4 * 3, [], cs, 3, pcb.programCounter);
    PonerPalabra(sendbuf, 4 * 4, [], cs, 4, pcb.cantidadDeInstrucciones);
    PonerPalabra(sendbuf, 4 * 5, [], cs, 5, 8 * pcb.cantidadDeInstrucciones);
    assert cs[..6] == cs && [] + Palabras(cs) == Palabras(cs);
  }

  /** The words between the state name and the stack; `p` is the length of the variable parts. */
  method VolcarCola(sendbuf: array<Byte>, pcb: PCB, p: nat)
    requires PCBValido(pcb) && 4 * 13 + p <= sendbuf.Length
    modifies sendbuf
    ensures sendbuf[..4 * 13 + p] == old(sendbuf[..4 * 8 + p]) + Palabras(Cola(pcb))
  {
    hide U32, Palabras;
    ghost var ls, base := Cola(pcb), sendbuf[..4 * 8 + p];
    PonerPalabra(sendbuf, 4 * 8 + p, base, ls, 0, pcb.exitCode);
    PonerPalabra(sendbuf, 4 * 9 + p, base, ls, 1, pcb.primerPaginaStack);
    PonerPalabra(sendbuf, 4 * 10 + p, base, ls, 2, pcb.stackPointer);
    PonerPalabra(sendbuf, 4 * 11 + p, base, ls, 3, pcb.tamanioStack);
    PonerPalabra(sendbuf, 4 * 12 + p, base, ls, 4, |pcb.stackIndex|);
    assert ls[..5] == ls;
  }

  /** `Poner` after bytes already known. */
  method PonerTras(a: array<Byte>, pos: nat, ghost base: seq<Byte>, d: seq<Byte>)
    requires pos + |d| <= a.Length && a[..pos] == base
    modifies a
    ensures a[..pos + |d|] == base + d
  {
    Poner(a, pos, d);
  }

  /** The three variable parts, each after its size; the fields between the leading words and the exit code. */
  method VolcarPartes(sendbuf: array<Byte>, ind: seq<Byte>, etq: seq<Byte>, est: seq<Byte>)
    requires |ind| < TOPE32 && |etq| < TOPE32 && |est| < TOPE32
    requires 4 * 8 + |ind| + |etq| + |est| <= sendbuf.Length
    modifies sendbuf
    ensures sendbuf[..4 * 8 + |ind| + |etq| + |est|]
         == old(sendbuf[..4 * 6]) + ind + U32(|etq|) + etq + U32(|est|) + est
  {
    hide U32;
    ghost var b0 := sendbuf[..4 * 6];
    PonerTras(sendbuf, 4 * 6, b0, ind);
    ghost var b1 := b0 + ind;
    PonerTras(sendbuf, 4 * 6 + |ind|, b1, U32(|etq|));
    ghost var b2 := b1 + U32(|etq|);
    PonerTras(sendbuf, 4 * 7 + |ind|, b2, etq);
    ghost var b3 := b2 + etq;
    PonerTras(sendbuf, 4 * 7 + |ind| + |etq|, b3, U32(|est|));
    ghost var b4 := b3 + U32(|est|);
    PonerTras(sendbuf, 4 * 8 + |ind| + |etq|, b4, est);
  }

  /** Every field at its own offset, each right after the previous one. */
  method VolcarCampos(sendbuf: array<Byte>, pcb: PCB, stack: seq<Byte>)
    requires PCBValido(pcb) && stack == DeStack(pcb.stackIndex) && sendbuf.Length == TamanioPCB(pcb)
    modifies sendbuf
    ensures sendbuf[..] == DePCB(pcb)
  {
    hide U32, DeIndice, DeStack, Palabras, Cabeza, Cola;
    var ind := DeIndice(pcb.indiceDeCodigo);
    var est := pcb.estado + [0];
    var p := |ind| + |pcb.listaDeEtiquetas| + |est|;
    VolcarCabeza(sendbuf, pcb);
    VolcarPartes(sendbuf, ind, pcb.listaDeEtiquetas, est);
    VolcarCola(sendbuf, pcb, p);
    Poner(sendbuf, 4 * 13 + p, stack);
    assert sendbuf[..] == sendbuf[..4 * 13 + p + |stack|];
  }

  /** The message a block travels in: a code and as many of the block's bytes as a 32-bit total counts. */
  method SendPCB(s: Serializador, pcb: PCB, codigo: int) returns (ultimateBuffer: array<Byte>)
    requires PCBValido(pcb) && TamanioStack(pcb.stackIndex) < TOPE32 && -TOPE31 <= codigo < TOPE31
    modifies s
    ensures ultimateBuffer[..] == I32(codigo) + DePCB(pcb)[..TamanioPCB(pcb) % TOPE32]
    ensures ultimateBuffer[..] == I32(codigo) + DePCB(pcb) <==> TamanioPCB(pcb) < TOPE32
  {
    hide DePCB, I32;
    var tamanioIndice := pcb.cantidadDeInstrucciones * 8;
    var tamanioEtiquetas := |pcb.listaDeEtiquetas|;
    var tamanioEstado := |pcb.estado| + 1;
    s.PCBCereal(pcb);
    var tamanioTotal := (4 * 9 + 4 + 4 + tamanioIndice + tamanioEtiquetas + 4 + tamanioEstado + 4 + s.tamanioStack)
                        % TOPE32;
    ultimateBuffer := new Byte[tamanioTotal + 4];
    Poner(ultimateBuffer, 0, I32(codigo));
    Poner(ultimateBuffer, 4, s.sendbuf[..tamanioTotal]);
    assert s.sendbuf[..tamanioTotal] == s.sendbuf[..][..tamanioTotal] && [] + I32(codigo) == I32(codigo);
    assert ultimateBuffer[..] == ultimateBuffer[..4 + tamanioTotal];
    if TamanioPCB(pcb) < TOPE32 {
      assert DePCB(pcb)[..TamanioPCB(pcb)] == DePCB(pcb);
    }
  }

  // ---------------------------------------------------------------- the receiver

  /** A connection: the bytes that have been sent and not yet taken. */
  class Conexion {
    var pendiente: seq<Byte>

    constructor (bytes: seq<Byte>)
      ensures pendiente == bytes
    {
      pendiente := bytes;
    }

    /** Waits for `n` bytes; fails when the other end closed before sending them. */
    method Recv(n: nat) returns (r: Lectura<seq<Byte>>)
      modifies this
      ensures r == LeerBytes(old(pendiente), n) && (r.Leido? ==> pendiente == r.resto)
    {
      if |pendiente| < n {
        return Corto;
      }
      var b := pendiente[..n];
      pendiente := pendiente[n..];
      r := Leido(b, pendiente);
    }

    method RecvU32() returns (r: Lectura<Palabra>)
      modifies this
      ensures r == LeerU32(old(pendiente)) && (r.Leido? ==> pendiente == r.resto)
    {
      var b :- Recv(4);
      r := Leido(De32(b.0), pendiente);
    }

    method RecvVariable() returns (r: Lectura<Variable>)
      modifies this
      ensures r == LeerVariable(old(pendiente)) && (r.Leido? ==> pendiente == r.resto)
    {
      hide LeerU32;
      var id :- Recv(1);
      var offset :- RecvU32();
      var page :- RecvU32();
      var size :- RecvU32();
      r := Leido(Variable(id.0[0], page.0, offset.0, size.0), pendiente);
    }

    method RecvVariables(cuantas: nat) returns (r: Lectura<seq<Variable>>)
      modifies this
      ensures r == LeerVariables(old(pendiente), cuantas) && (r.Leido? ==> pendiente == r.resto)
    {
      hide LeerVariable;
      var lista: seq<Variable> := [];
      AnteponerNada(LeerVariables(pendiente, cuantas));
      var agregadas := 0;
      while agregadas < cuantas
        invariant 0 <= agregadas <= cuantas
        invariant Anteponer(lista, LeerVariables(pendiente, cuantas - agregadas))
            == LeerVariables(old(pendiente), cuantas)
      {
        ghost var resto, antes := pendiente, lista;
        var v :- RecvVariable();
        lista := lista + [v.0];
        agregadas := agregadas + 1;
        AnteponerUno(antes, v.0, LeerVariables(pendiente, cuantas - agregadas));
      }
      assert lista + [] == lista;
      r := Leido(lista, pendiente);
    }

    method RecvRegistro() returns (r: Lectura<RegistroStack>)
      modifies this
      ensures r == LeerRegistro(old(pendiente)) && (r.Leido? ==> pendiente == r.resto)
    {
      hide LeerU32, LeerVariables;
      var cantArgumentos :- RecvU32();
      var args :- RecvVariables(Cuantos(cantArgumentos.0));
      var cantVariables :- RecvU32();
      var vars :- RecvVariables(Cuantos(cantVariables.0));
      var retPos :- RecvU32();
      var offset :- RecvU32();
      var page :- RecvU32();
      var size :- RecvU32();
      r := Leido(RegistroStack(args.0, vars.0, retPos.0, PagOffSize(page.0, offset.0, size.0)), pendiente);
    }

    method RecvRegistros(cantRegistros: nat) returns (r: Lectura<seq<RegistroStack>>)
      modifies this
      ensures r == LeerRegistros(old(pendiente), cantRegistros) && (r.Leido? ==> pendiente == r.resto)
    {
      hide LeerRegistro;
      var lista: seq<RegistroStack> := [];
      AnteponerNada(LeerRegistros(pendiente, cantRegistros));
      var registrosAgregados := 0;
      while registrosAgregados < cantRegistros
        invariant 0 <= registrosAgregados <= cantRegistros
        invariant Anteponer(lista, LeerRegistros(pendiente, cantRegistros - registrosAgregados))
               == LeerRegistros(old(pendiente), cantRegistros)
      {
        ghost var antes := lista;
        var g :- RecvRegistro();
        lista := lista + [g.0];
        registrosAgregados := registrosAgregados + 1;
        AnteponerUno(antes, g.0, LeerRegistros(pendiente, cantRegistros - registrosAgregados));
      }
      assert lista + [] == lista;
      r := Leido(lista, pendiente);
    }

    /** Takes one block off the connection; the block the original fills in but does not return. */
    method RecibirPCB() returns (r: Lectura<PCB>)
      modifies this
      ensures r == LeerPCB(old(pendiente)) && (r.Leido? ==> pendiente == r.resto)
    {
      hide LeerU32, LeerBytes, LeerRegistros, ComoIndice, ComoTexto;
      var pid :- RecvU32();
      var pageCounter :- RecvU32();
      var direccion :- RecvU32();
      var programCounter :- RecvU32();
      var cantidad :- RecvU32();
      var tamanioIndice :- RecvU32();
      var indice :- Recv(tamanioIndice.0);
      var tamanioEtiquetas :- RecvU32();
      var etiquetas :- Recv(tamanioEtiquetas.0);
      var tamanioEstado :- RecvU32();
      var estado :- Recv(tamanioEstado.0);
      var exitCode :- RecvU32();
      var primerPagina :- RecvU32();
      var stackPointer :- RecvU32();
      var stackSize :- RecvU32();
      var cantRegistros :- RecvU32();
      var stack :- RecvRegistros(cantRegistros.0);
      r := Leido(PCB(pid.0, pageCounter.0, direccion.0, programCounter.0, cantidad.0, ComoIndice(indice.0), etiquetas.0,
                     exitCode.0, ComoTexto(estado.0), stack.0, primerPagina.0, stackPointer.0, stackSize.0), pendiente);
    }
  }

  /** The elements read so far in front of those still to come. */
  function Anteponer<T>(a: seq<T>, l: Lectura<seq<T>>): Lectura<seq<T>> {
    match l
    case Corto => Corto
    case Leido(v, r) => Leido(a + v, r)
  }

  lemma AnteponerNada<T>(l: Lectura<seq<T>>)
    ensures Anteponer([], l) == l
  {
    if l.Leido? {
      assert [] + l.valor == l.valor;
    }
  }

  lemma AnteponerUno<T>(a: seq<T>, x: T, l: Lectura<seq<T>>)
    ensures Anteponer(a + [x], l) == Anteponer(a, Anteponer([x], l))
  {
    if l.Leido? {
      ConcatAsocia(a, [x], l.valor);
    }
  }

  /**
   * What is sent is what is received, code, block and nothing of the message that follows, exactly when the block's
   * size fits 32 bits; a larger block with nothing after it is never received.
   */
  method EnviarYRecibir(pcb: PCB, codigo: int, siguiente: seq<Byte>)
    returns (c: Conexion, cod: Lectura<seq<Byte>>, r: Lectura<PCB>)
    requires PCBValido(pcb) && TamanioStack(pcb.stackIndex) < TOPE32 && -TOPE31 <= codigo < TOPE31
    ensures cod.Leido? && |cod.valor| == 4 && DeI32(cod.valor) == codigo
    ensures r == Leido(pcb, siguiente) && c.pendiente == siguiente <==> TamanioPCB(pcb) < TOPE32
    ensures TamanioPCB(pcb) >= TOPE32 && siguiente == [] ==> r.Corto?
  {
    hide DePCB, LeerPCB, I32;
    var s := new Serializador();
    var mensaje := SendPCB(s, pcb, codigo);
    c := new Conexion(mensaje[..] + siguiente);
    ghost var k := TamanioPCB(pcb) % TOPE32;
    ghost var b := DePCB(pcb)[..k];
    ConcatAsocia(I32(codigo), b, siguiente);
    LeerBytesDe(I32(codigo), b + siguiente);
    cod := c.Recv(4);
    if TamanioPCB(pcb) < TOPE32 {
      assert b == DePCB(pcb);
      LeerPCBDe(pcb, siguiente);
    } else {
      BloqueCortado(pcb, k, siguiente);
    }
    r := c.RecibirPCB();
  }
}
