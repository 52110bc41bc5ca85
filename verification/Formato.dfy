/** Where every field lies in its bytes: words, the page table, the control block, and the text of a list of blocks. */
module Formato {
  import opened Bytes
  import opened Pcb
  import Decimal
  import Disposicion
  import Metadatos

  // ---- words ----

  /** The least significant byte goes first. */
  lemma PalabraPequenia(v: nat)
    requires v < TOPE32
    ensures var b := U32(v);
      v == b[0] as int + 0x100 * b[1] as int + 0x1_0000 * b[2] as int + 0x100_0000 * b[3] as int
  {
  }

  /** A negative number is the word of its distance to 2^32. */
  lemma EnteroEnPalabra(v: int)
    requires -TOPE31 <= v < TOPE31
    ensures v >= 0 ==> I32(v) == U32(v)
    ensures v < 0 ==> De32(I32(v)) + -v == TOPE32
  {
  }

  lemma {:induction false} PalabraEn(ws: seq<Palabra>, k: nat)
    requires k < |ws|
    ensures Palabras(ws)[4 * k..4 * k + 4] == U32(ws[k]) && De32(Palabras(ws)[4 * k..4 * k + 4]) == ws[k]
  {
    hide U32, De32;
    var b := U32(ws[0]) + Palabras(ws[1..]);
    if k == 0 {
      assert b[..4] == U32(ws[0]);
    } else {
      PalabraEn(ws[1..], k - 1);
      assert b[4..][4 * (k - 1)..4 * (k - 1) + 4] == b[4 * k..4 * k + 4];
    }
  }

  // ---- the page table ----

  /** Entry `f` takes twelve bytes: its frame, its process and its page, four bytes each. */
  lemma FilaEnBytes(mem: seq<Byte>, n: nat, f: nat)
    requires 12 * n <= |mem| && f < n
    ensures var e, a := Disposicion.TablaDe(mem, n)[f], 12 * f;
      && e.frame == DeI32(mem[a..a + 4]) && e.pid == DeI32(mem[a + 4..a + 8]) && e.pagina == DeI32(mem[a + 8..a + 12])
  {
    hide DeI32;
  }

  // ---- the control block ----

  /** A variable: its name, then offset, page and size. */
  lemma VariableEnBytes(v: Variable)
    ensures var b := DeVariable(v);
      b[0] == v.id && De32(b[1..5]) == v.offset && De32(b[5..9]) == v.page && De32(b[9..13]) == v.size
  {
    var ws := [v.offset, v.page, v.size];
    PalabraEn(ws, 0);
    PalabraEn(ws, 1);
    PalabraEn(ws, 2);
    hide U32, De32, Palabras;
    var b := DeVariable(v);
    assert b[1..] == Palabras(ws);
    assert b[1..][0..4] == b[1..5] && b[1..][4..8] == b[5..9] && b[1..][8..12] == b[9..13];
  }

  /** Variable `k` of a list lies thirteen bytes after the one before it. */
  lemma {:induction false} VariablesEnBytes(vs: seq<Variable>, k: nat)
    requires k < |vs|
    ensures DeVariables(vs)[13 * k..13 * k + 13] == DeVariable(vs[k])
  {
    hide DeVariable;
    var b := DeVariable(vs[0]) + DeVariables(vs[1..]);
    if k == 0 {
      assert b[..13] == DeVariable(vs[0]);
    } else {
      VariablesEnBytes(vs[1..], k - 1);
      assert b[13..][13 * (k - 1)..13 * (k - 1) + 13] == b[13 * k..13 * k + 13];
    }
  }

  /** The bytes `x` lie in the buffer from offset `o` on. */
  predicate Tramo(b: seq<Byte>, o: nat, x: seq<Byte>) {
    o + |x| <= |b| && b[o..o + |x|] == x
  }

  /** The word at offset `o`. */
  predicate Campo(b: seq<Byte>, o: nat, w: nat) {
    o + 4 <= |b| && De32(b[o..o + 4]) == w
  }

  lemma TramoSigue(b: seq<Byte>, o: nat, x: seq<Byte>, y: seq<Byte>)
    requires Tramo(b, o, x + y)
    ensures Tramo(b, o, x) && Tramo(b, o + |x|, y)
  {
    assert b[o..o + |x + y|][..|x|] == b[o..o + |x|];
    assert b[o..o + |x + y|][|x|..] == b[o + |x|..o + |x + y|];
  }

  lemma CampoDentro(b: seq<Byte>, o: nat, x: seq<Byte>, k: nat, w: nat)
    requires Tramo(b, o, x) && k + 4 <= |x| && De32(x[k..k + 4]) == w
    ensures Campo(b, o + k, w)
  {
    hide De32;
    TramoDeTramo(b, o, |x|, k, 4);
  }

  lemma CampoDePalabras(b: seq<Byte>, o: nat, ws: seq<Palabra>, k: nat)
    requires Tramo(b, o, Palabras(ws)) && k < |ws|
    ensures Campo(b, o + 4 * k, ws[k])
  {
    hide De32, Palabras, Tramo, U32, Campo;
    PalabraEn(ws, k);
    CampoDentro(b, o, Palabras(ws), 4 * k, ws[k]);
  }

  lemma CampoDeU32(b: seq<Byte>, o: nat, w: nat)
    requires w < TOPE32 && Tramo(b, o, U32(w))
    ensures Campo(b, o, w)
  {
    hide U32, De32;
  }

  /** A record: a counter and its arguments, a counter and its variables, and where and what to return to. */
  lemma RegistroEnBytes(r: RegistroStack)
    requires RegistroValido(r)
    ensures var b, i, j := DeRegistro(r), 13 * |r.args|, 13 * |r.vars|;
      && Campo(b, 0, |r.args|) && Tramo(b, 4, DeVariables(r.args))
      && Campo(b, 4 + i, |r.vars|) && Tramo(b, 8 + i, DeVariables(r.vars))
      && Campo(b, 8 + i + j, r.retPos) && Campo(b, 12 + i + j, r.retVar.offset)
      && Campo(b, 16 + i + j, r.retVar.page) && Campo(b, 20 + i + j, r.retVar.size) && |b| == 24 + i + j
  {
    hide U32, Palabras, DeVariables, Campo, Tramo;
    var a, b, c, d := U32(|r.args|), DeVariables(r.args), U32(|r.vars|), DeVariables(r.vars);
    var ws := [r.retPos, r.retVar.offset, r.retVar.page, r.retVar.size];
    var e, t := Palabras(ws), DeRegistro(r);
    Asocia5(a, b, c, d, e, []);
    Entero(t, e, a + (b + (c + (d + (e + [])))), a + (b + (c + (d + e))));
    hide DeRegistro;
    CincoTramos(t, a, b, c, d, e);
    CampoDeU32(t, 0, |r.args|);
    CampoDeU32(t, 4 + |b|, |r.vars|);
    var o := 8 + |b| + |d|;
    CampoDePalabras(t, o, ws, 0);
    CampoDePalabras(t, o, ws, 1);
    CampoDePalabras(t, o, ws, 2);
    CampoDePalabras(t, o, ws, 3);
  }

  /** A buffer is a stretch of itself. */
  lemma Entero(t: seq<Byte>, e: seq<Byte>, x: seq<Byte>, y: seq<Byte>)
    requires t + [] == x && (e + [] == e ==> x == y)
    ensures Tramo(t, 0, y)
  {
    assert t + [] == t && e + [] == e;
  }

  /** Five sections one after another. */
  lemma CincoTramos(t: seq<Byte>, a: seq<Byte>, b: seq<Byte>, c: seq<Byte>, d: seq<Byte>, e: seq<Byte>)
    requires Tramo(t, 0, a + (b + (c + (d + e))))
    ensures Tramo(t, 0, a) && Tramo(t, |a|, b) && Tramo(t, |a| + |b|, c) && Tramo(t, |a| + |b| + |c|, d)
    ensures Tramo(t, |a| + |b| + |c| + |d|, e)
  {
    hide Tramo;
    var de := d + e;
    var cde := c + de;
    var bcde := b + cde;
    TramoSigue(t, 0, a, bcde);
    TramoSigue(t, |a|, b, cde);
    TramoSigue(t, |a| + |b|, c, de);
    TramoSigue(t, |a| + |b| + |c|, d, e);
  }

  /** Where each variable part of a block ends: the code index, the labels and the state name. */
  function Indice(p: PCB): nat { 8 * p.cantidadDeInstrucciones }

  function Etiquetas(p: PCB): nat { Indice(p) + |p.listaDeEtiquetas| }

  function Nombre(p: PCB): nat { Etiquetas(p) + |p.estado| + 1 }

  /** The sections of a block, by the offsets at which the sender copies them. */
  lemma SeccionesDePCB(p: PCB)
    requires PCBValido(p)
    ensures var b, i, t, s := DePCB(p), Indice(p), Etiquetas(p), Nombre(p);
      && Tramo(b, 0, Palabras(Cabeza(p))) && Tramo(b, 24, DeIndice(p.indiceDeCodigo))
      && Tramo(b, 24 + i, U32(|p.listaDeEtiquetas|)) && Tramo(b, 28 + i, p.listaDeEtiquetas)
      && Tramo(b, 28 + t, U32(|p.estado| + 1)) && Tramo(b, 32 + t, p.estado + [0])
      && Tramo(b, 32 + s, Palabras(Cola(p))) && Tramo(b, 52 + s, DeStack(p.stackIndex))
  {
    hide Palabras, DeIndice, U32, DeStack, Tramo;
    var a, b, c, d := Palabras(Cabeza(p)), DeIndice(p.indiceDeCodigo), U32(|p.listaDeEtiquetas|), p.listaDeEtiquetas;
    var f, g, h := p.estado + [0], Palabras(Cola(p)), DeStack(p.stackIndex);
    var e, t := U32(|f|), DePCB(p);
    FormaPCB(p, []);
    Entero(t, h, a + (b + (c + (d + (e + (f + (g + (h + []))))))), a + (b + (c + (d + (e + (f + (g + h)))))));
    hide DePCB;
    var z := e + (f + (g + h));
    CincoTramos(t, a, b, c, d, z);
    CuatroTramos(t, |a| + |b| + |c| + |d|, e, f, g, h);
  }

  /** Four sections one after another, from offset `o` on. */
  lemma CuatroTramos(t: seq<Byte>, o: nat, a: seq<Byte>, b: seq<Byte>, c: seq<Byte>, d: seq<Byte>)
    requires Tramo(t, o, a + (b + (c + d)))
    ensures Tramo(t, o, a) && Tramo(t, o + |a|, b) && Tramo(t, o + |a| + |b|, c) && Tramo(t, o + |a| + |b| + |c|, d)
  {
    hide Tramo;
    var cd := c + d;
    var bcd := b + cd;
    TramoSigue(t, o, a, bcd);
    TramoSigue(t, o + |a|, b, cd);
    TramoSigue(t, o + |a| + |b|, c, d);
  }

  /** Every word of a block outside its variable parts. */
  lemma CamposDePCB(p: PCB)
    requires PCBValido(p)
    ensures var b, i, t, s := DePCB(p), Indice(p), Etiquetas(p), Nombre(p);
      && Campo(b, 0, p.pid) && Campo(b, 4, p.pageCounter) && Campo(b, 8, p.direccionInicioCodigo)
      && Campo(b, 12, p.programCounter) && Campo(b, 16, p.cantidadDeInstrucciones) && Campo(b, 20, i)
      && Campo(b, 24 + i, |p.listaDeEtiquetas|) && Campo(b, 28 + t, |p.estado| + 1)
      && Campo(b, 32 + s, p.exitCode) && Campo(b, 36 + s, p.primerPaginaStack) && Campo(b, 40 + s, p.stackPointer)
      && Campo(b, 44 + s, p.tamanioStack) && Campo(b, 48 + s, |p.stackIndex|)
  {
    hide U32, Palabras, DePCB, DeIndice, DeStack, Campo, Tramo, Indice, Etiquetas, Nombre;
    var b, cs, ls, o := DePCB(p), Cabeza(p), Cola(p), 32 + Nombre(p);
    SeccionesDePCB(p);
    CampoDeU32(b, 24 + Indice(p), |p.listaDeEtiquetas|);
    CampoDeU32(b, 28 + Etiquetas(p), |p.estado| + 1);
    CampoDePalabras(b, 0, cs, 0);
    CampoDePalabras(b, 0, cs, 1);
    CampoDePalabras(b, 0, cs, 2);
    CampoDePalabras(b, 0, cs, 3);
    CampoDePalabras(b, 0, cs, 4);
    CampoDePalabras(b, 0, cs, 5);
    CampoDePalabras(b, o, ls, 0);
    CampoDePalabras(b, o, ls, 1);
    CampoDePalabras(b, o, ls, 2);
    CampoDePalabras(b, o, ls, 3);
    CampoDePalabras(b, o, ls, 4);
    IndiceMide(p);
  }

  lemma IndiceMide(p: PCB)
    requires PCBValido(p)
    ensures Cabeza(p)[5] == Indice(p)
  {
  }

  // ---- the list of blocks ----

  /** One block is its numeral in brackets; one more in front puts its numeral and a comma after the bracket. */
  lemma TextoDeLaLista(b: nat, bs: seq<nat>)
    ensures Metadatos.Lista(Metadatos.Textos([b])) == "[" + Decimal.Dec(b) + "]"
    ensures bs != [] ==>
      Metadatos.Lista(Metadatos.Textos([b] + bs))
      == "[" + Decimal.Dec(b) + "," + Metadatos.Lista(Metadatos.Textos(bs))[1..]
  {
    hide Decimal.Dec;
    var u, t := Metadatos.Textos([b] + bs), Metadatos.Textos(bs);
    assert Metadatos.Textos([b]) == [Decimal.Dec(b)];
    assert u == [Decimal.Dec(b)] + t;
    assert u[1..] == t;
    if bs != [] {
      assert Metadatos.Lista(t)[1..] == Metadatos.Unir(t) + "]";
      assert Metadatos.Unir(u) == Decimal.Dec(b) + "," + Metadatos.Unir(t);
    }
  }
}
