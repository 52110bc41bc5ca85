/** The heap inside one page: blocks, each with a five-byte header in front of its payload. */
module Heap {
  import opened Bytes

  datatype Opcion<T> = Nada | Algo(valor: T)

  datatype Bloque = Bloque(libre: bool, datos: seq<Byte>)

  const CAB := 5

  /** `heapMetadata`, packed: a `uint32_t` size and a `_Bool`. */
  function Cabecera(tam: nat, libre: bool): (b: seq<Byte>)
    ensures |b| == CAB
    ensures tam < TOPE32 ==> De32(b[..4]) == tam
    ensures b[4] == if libre then 1 else 0
  {
    var w := U32(tam % TOPE32);
    var b := w + [if libre then 1 else 0];
    assert b[..4] == w;
    b
  }

  function Imagen(b: Bloque): (s: seq<Byte>)
    ensures |s| == CAB + |b.datos|
  {
    Cabecera(|b.datos|, b.libre) + b.datos
  }

  /** The bytes of a page holding these blocks, one after the other. */
  function Codificar(bs: seq<Bloque>): (s: seq<Byte>)
    ensures |s| >= CAB * |bs|
  {
    if bs == [] then [] else Imagen(bs[0]) + Codificar(bs[1..])
  }

  lemma {:induction false} CodificarConcat(a: seq<Bloque>, b: seq<Bloque>)
    ensures Codificar(a + b) == Codificar(a) + Codificar(b)
  {
    if a == [] {
      assert a + b == b;
    } else {
      assert (a + b)[1..] == a[1..] + b;
      CodificarConcat(a[1..], b);
    }
  }

  /** Walks the headers of a page; fails when they do not tile it exactly. */
  function Parsear(pg: seq<Byte>): (r: Opcion<seq<Bloque>>)
    ensures r.Algo? && |pg| < TOPE32 ==> Codificar(r.valor) == pg
    decreases |pg|
  {
    if pg == [] then Algo([])
    else if |pg| < CAB then Nada
    else
      var tam := De32(pg[..4]);
      if pg[4] > 1 || CAB + tam > |pg| then Nada
      else
        var b := Bloque(pg[4] == 1, pg[CAB..CAB + tam]);
        var resto := Parsear(pg[CAB + tam..]);
        if resto.Nada? then Nada
        else
          BloqueLeido(pg, resto.valor);
          Algo([b] + resto.valor)
  }

  lemma BloqueLeido(pg: seq<Byte>, resto: seq<Bloque>)
    requires |pg| >= CAB && pg[4] <= 1 && CAB + De32(pg[..4]) <= |pg|
    requires |pg| < TOPE32 ==> Codificar(resto) == pg[CAB + De32(pg[..4])..]
    ensures var tam := De32(pg[..4]);
      |pg| < TOPE32 ==> Codificar([Bloque(pg[4] == 1, pg[CAB..CAB + tam])] + resto) == pg
  {
    if |pg| < TOPE32 {
      var tam := De32(pg[..4]);
      var b := Bloque(pg[4] == 1, pg[CAB..CAB + tam]);
      De32Inverso(pg[..4]);
      hide De32;
      assert ([b] + resto)[1..] == resto;
      assert Codificar([b] + resto) == Imagen(b) + Codificar(resto);
      hide Codificar, U32;
      assert Cabecera(tam, b.libre) == pg[..4] + [pg[4]];
      PartesDePagina(pg, tam);
    }
  }

  lemma PartesDePagina(pg: seq<Byte>, tam: nat)
    requires CAB + tam <= |pg|
    ensures pg == pg[..4] + [pg[4]] + pg[CAB..CAB + tam] + pg[CAB + tam..]
  {
  }

  /** The headers of a page determine its blocks. */
  lemma {:induction false} ParsearCodificar(bs: seq<Bloque>)
    requires |Codificar(bs)| < TOPE32
    ensures Parsear(Codificar(bs)) == Algo(bs)
    decreases |bs|
  {
    if bs != [] {
      var pg, resto := Codificar(bs), Codificar(bs[1..]);
      var d, h := bs[0].datos, Cabecera(|bs[0].datos|, bs[0].libre);
      assert pg == h + (d + resto);
      ParsearCodificar(bs[1..]);
      assert [bs[0]] + bs[1..] == bs;
      assert bs[0] == Bloque(bs[0].libre, d);
    }
  }

  // ---- positions ----

  /** Offset of the header of block `k`. */
  function Lugar(bs: seq<Bloque>, k: nat): (o: nat)
    requires k <= |bs|
  {
    |Codificar(bs[..k])|
  }

  lemma LugarSiguiente(bs: seq<Bloque>, k: nat)
    requires k < |bs|
    ensures Lugar(bs, k + 1) == Lugar(bs, k) + CAB + |bs[k].datos| <= |Codificar(bs)|
    ensures Codificar(bs) == Codificar(bs[..k]) + Imagen(bs[k]) + Codificar(bs[k + 1..])
  {
    assert bs == bs[..k] + [bs[k]] + bs[k + 1..];
    assert bs[..k + 1] == bs[..k] + [bs[k]];
    CodificarMedio(bs[..k], [bs[k]], bs[k + 1..]);
    CodificarConcat(bs[..k], [bs[k]]);
    CodificarUno(bs[k]);
  }

  lemma CodificarPaso(bs: seq<Bloque>)
    requires bs != []
    ensures Codificar(bs) == Cabecera(|bs[0].datos|, bs[0].libre) + (bs[0].datos + Codificar(bs[1..]))
  {
  }

  /** What the header walk reads at block `k`. */
  lemma CabeceraEn(bs: seq<Bloque>, k: nat)
    requires k < |bs| && |Codificar(bs)| < TOPE32
    ensures Lugar(bs, k) + CAB + |bs[k].datos| <= |Codificar(bs)|
    ensures var o, pg := Lugar(bs, k), Codificar(bs);
            && De32(pg[o..o + 4]) == |bs[k].datos|
            && (pg[o + 4] == 1 <==> bs[k].libre)
            && pg[o + CAB..o + CAB + |bs[k].datos|] == bs[k].datos
  {
    LugarSiguiente(bs, k);
    var a, h, d, c := Codificar(bs[..k]), Cabecera(|bs[k].datos|, bs[k].libre), bs[k].datos, Codificar(bs[k + 1..]);
    hide Codificar, Cabecera, De32, Lugar;
    CamposEn(a, h, d, c);
  }

  lemma CamposEn(a: seq<Byte>, h: seq<Byte>, d: seq<Byte>, c: seq<Byte>)
    requires |h| == CAB
    ensures var pg, o := a + (h + d) + c, |a|;
      pg[o..o + 4] == h[..4] && pg[o + 4] == h[4] && pg[o + CAB..o + CAB + |d|] == d
  {
    TramoMedio(a, h[..4], h[4..] + d, c);
    TramoMedio(a, h, d, c);
    assert h[..4] + (h[4..] + d) == h + d;
  }

  /** What stands after `a`, in two parts. */
  lemma TramoMedio(a: seq<Byte>, x: seq<Byte>, y: seq<Byte>, c: seq<Byte>)
    ensures var pg, o := a + (x + y) + c, |a|;
      pg[o..o + |x|] == x && pg[o + |x|..o + |x| + |y|] == y
  {
  }

  // ---- first fit ----

  predicate Cabe(b: Bloque, espacio: nat) {
    b.libre && |b.datos| >= espacio + CAB
  }

  function PrimerAjuste(bs: seq<Bloque>, espacio: nat): (k: nat)
    ensures k <= |bs|
    ensures k < |bs| ==> Cabe(bs[k], espacio)
    ensures forall j :: 0 <= j < k ==> !Cabe(bs[j], espacio)
  {
    if bs == [] || Cabe(bs[0], espacio) then 0 else PrimerAjuste(bs[1..], espacio) + 1
  }

  lemma LugarCero(bs: seq<Bloque>)
    ensures Lugar(bs, 0) == 0
  {
  }

  lemma LugarFinal(bs: seq<Bloque>, k: nat)
    requires k <= |bs| && Lugar(bs, k) >= |Codificar(bs)|
    ensures k == |bs|
  {
    if k < |bs| {
      LugarSiguiente(bs, k);
    }
  }

  /** Splits free block `k` into an occupied block of `espacio` bytes and a free rest. */
  function Partir(bs: seq<Bloque>, k: nat, espacio: nat): (r: seq<Bloque>)
    requires k < |bs| && Cabe(bs[k], espacio)
  {
    bs[..k] + [Bloque(false, bs[k].datos[..espacio]), Bloque(true, bs[k].datos[espacio + CAB..])] + bs[k + 1..]
  }

  /** The page after a first-fit request; unchanged when nothing fits. */
  function Reservar(bs: seq<Bloque>, espacio: nat): (r: seq<Bloque>)
  {
    var k := PrimerAjuste(bs, espacio);
    if k < |bs| then Partir(bs, k, espacio) else bs
  }

  /** Address in the page handed to the caller, or -1. */
  function Direccion(bs: seq<Bloque>, espacio: nat): (d: int)
    ensures d == -1 || d >= CAB
  {
    var k := PrimerAjuste(bs, espacio);
    if k < |bs| then Lugar(bs, k) + CAB else -1
  }

  /** What the first-fit walk finds at block `k`, and where it goes next. */
  lemma PasoBusca(bs: seq<Bloque>, k: nat)
    requires k <= |bs| && Lugar(bs, k) < |Codificar(bs)| < TOPE32
    ensures k < |bs|
    ensures var o, pg := Lugar(bs, k), Codificar(bs);
            && o + CAB + |bs[k].datos| <= |pg| && Lugar(bs, k + 1) == o + CAB + |bs[k].datos|
            && De32(pg[o..o + 4]) == |bs[k].datos| && (pg[o + 4] == 1 <==> bs[k].libre)
  {
    hide Codificar;
    assert bs[..|bs|] == bs;
    CabeceraEn(bs, k);
    LugarSiguiente(bs, k);
  }

  lemma ReservarEs(bs: seq<Bloque>, espacio: nat, k: nat)
    requires k <= |bs| && (k < |bs| ==> Cabe(bs[k], espacio))
    requires forall j :: 0 <= j < k ==> !Cabe(bs[j], espacio)
    ensures Direccion(bs, espacio) == if k < |bs| then Lugar(bs, k) + CAB else -1
    ensures Reservar(bs, espacio) == if k < |bs| then Partir(bs, k, espacio) else bs
  {
  }

  /** Splitting a block is two header writes. */
  lemma PartirBytes(bs: seq<Bloque>, k: nat, espacio: nat)
    requires k < |bs| && Cabe(bs[k], espacio)
    ensures Lugar(bs, k) + CAB + |bs[k].datos| <= |Codificar(bs)|
    ensures var o := Lugar(bs, k);
            Codificar(Partir(bs, k, espacio)) ==
            Empalme(Empalme(Codificar(bs), o, Cabecera(espacio, false)),
                    o + CAB + espacio, Cabecera(|bs[k].datos| - espacio - CAB, true))
  {
    hide Empalme, Codificar, Imagen;
    LugarSiguiente(bs, k);
    var b := bs[k];
    CodificarMedio(bs[..k], [Bloque(false, b.datos[..espacio]), Bloque(true, b.datos[espacio + CAB..])], bs[k + 1..]);
    CodificarDos(Bloque(false, b.datos[..espacio]), Bloque(true, b.datos[espacio + CAB..]));
    PartirImagen(Codificar(bs[..k]), b, espacio, Codificar(bs[k + 1..]));
  }

  lemma PartirImagen(a: seq<Byte>, b: Bloque, espacio: nat, c: seq<Byte>)
    requires Cabe(b, espacio)
    ensures a + (Imagen(Bloque(false, b.datos[..espacio])) + Imagen(Bloque(true, b.datos[espacio + CAB..]))) + c ==
            Empalme(Empalme(a + Imagen(b) + c, |a|, Cabecera(espacio, false)),
                    |a| + CAB + espacio, Cabecera(|b.datos| - espacio - CAB, true))
  {
    hide Empalme, Cabecera;
    var d1, x, d2 := b.datos[..espacio], b.datos[espacio..espacio + CAB], b.datos[espacio + CAB..];
    assert b.datos == d1 + x + d2;
    DosCabeceras(a, Cabecera(|b.datos|, true), d1, x, d2, c, Cabecera(espacio, false),
        Cabecera(|b.datos| - espacio - CAB, true));
  }

  lemma CodificarMedio(a: seq<Bloque>, m: seq<Bloque>, c: seq<Bloque>)
    ensures Codificar(a + m + c) == Codificar(a) + Codificar(m) + Codificar(c)
  {
    CodificarConcat(a + m, c);
    CodificarConcat(a, m);
  }

  lemma CodificarUno(b: Bloque)
    ensures Codificar([b]) == Imagen(b)
  {
  }

  lemma CodificarDos(b: Bloque, c: Bloque)
    ensures Codificar([b, c]) == Imagen(b) + Imagen(c)
  {
    CodificarUno(c);
    assert [b, c][1..] == [c];
  }

  lemma DosCabeceras(a: seq<Byte>, h: seq<Byte>, d1: seq<Byte>, x: seq<Byte>, d2: seq<Byte>, c: seq<Byte>,
                     h1: seq<Byte>, h2: seq<Byte>)
    requires |h| == |x| == |h1| == |h2| == CAB
    ensures |a + (h + (d1 + x + d2)) + c| >= |a| + 2 * CAB + |d1|
    ensures a + ((h1 + d1) + (h2 + d2)) + c ==
            Empalme(Empalme(a + (h + (d1 + x + d2)) + c, |a|, h1), |a| + CAB + |d1|, h2)
  {
  }

  // ---- freeing ----

  function Soltar(bs: seq<Bloque>, k: nat): (r: seq<Bloque>)
    requires k < |bs|
  {
    bs[k := bs[k].(libre := true)]
  }

  lemma SoltarBytes(bs: seq<Bloque>, k: nat)
    requires k < |bs|
    ensures Lugar(bs, k) + CAB <= |Codificar(bs)|
    ensures Codificar(Soltar(bs, k)) == Empalme(Codificar(bs), Lugar(bs, k) + 4, [1])
  {
    hide Empalme, Codificar, Imagen;
    LugarSiguiente(bs, k);
    LugarSiguiente(Soltar(bs, k), k);
    assert Soltar(bs, k)[..k] == bs[..k] && Soltar(bs, k)[k + 1..] == bs[k + 1..];
    SoltarImagen(Codificar(bs[..k]), bs[k], Codificar(bs[k + 1..]));
  }

  lemma SoltarImagen(a: seq<Byte>, b: Bloque, c: seq<Byte>)
    ensures Empalme(a + Imagen(b) + c, |a| + 4, [1]) == a + Imagen(b.(libre := true)) + c
  {
  }

  /** Two free neighbours as one: the second header becomes payload. */
  function Fundir(a: Bloque, b: Bloque): (r: Bloque)
    ensures |r.datos| == |a.datos| + CAB + |b.datos|
  {
    Bloque(true, a.datos + Imagen(b))
  }

  predicate Fundibles(bs: seq<Bloque>) {
    |bs| >= 2 && bs[0].libre && bs[1].libre
  }

  /** Merging rewrites the size of the first header and nothing else. */
  lemma FundirBytes(a: seq<Bloque>, bs: seq<Bloque>)
    requires Fundibles(bs)
    ensures |Codificar(a)| + 4 <= |Codificar(a + bs)|
    ensures Codificar(a + [Fundir(bs[0], bs[1])] + bs[2..]) ==
            Empalme(Codificar(a + bs), |Codificar(a)|, U32(|Fundir(bs[0], bs[1]).datos| % TOPE32))
  {
    var f := Fundir(bs[0], bs[1]);
    CodificarConcat(a, bs);
    CodificarConcat(a, [f] + bs[2..]);
    assert a + [f] + bs[2..] == a + ([f] + bs[2..]);
    assert ([f] + bs[2..])[1..] == bs[2..];
    assert bs[1..][0] == bs[1] && bs[1..][1..] == bs[2..];
    var p, d, i, c := Codificar(a), bs[0].datos, Imagen(bs[1]), Codificar(bs[2..]);
    assert Codificar(bs) == Imagen(bs[0]) + (i + c);
    assert Codificar([f] + bs[2..]) == Imagen(f) + c;
    var x := U32(|f.datos| % TOPE32);
    PrimerCampo(p, U32(|d| % TOPE32), d, i, c, x);
  }

  lemma PrimerCampo(p: seq<Byte>, w: seq<Byte>, d: seq<Byte>, i: seq<Byte>, c: seq<Byte>, x: seq<Byte>)
    requires |w| == |x| == 4
    ensures |p| + 4 <= |p + (((w + [1]) + d) + (i + c))|
    ensures Empalme(p + (((w + [1]) + d) + (i + c)), |p|, x) == p + (((x + [1]) + (d + i)) + c)
  {
  }

  /** `clean_heap`: merges every run of free neighbours, left to right. */
  function Compactar(bs: seq<Bloque>): (r: seq<Bloque>)
    ensures bs != [] ==> r != [] && r[0].libre == bs[0].libre
    decreases |bs|
  {
    if bs == [] then []
    else if Fundibles(bs) then Compactar([Fundir(bs[0], bs[1])] + bs[2..])
    else [bs[0]] + Compactar(bs[1..])
  }

  // The steps of the header walk of `clean_heap`, with `hechos` behind it and `resto` ahead.

  lemma PasoInicial(bs: seq<Bloque>)
    ensures Codificar([]) == [] && [] + bs == bs && [] + Compactar(bs) == Compactar(bs)
  {
  }

  /** What the walk reads at its position. */
  lemma PasoLee(hechos: seq<Bloque>, resto: seq<Bloque>)
    requires |Codificar(hechos)| < |Codificar(hechos + resto)| < TOPE32
    ensures resto != []
    ensures var pg, o, n := Codificar(hechos + resto), |Codificar(hechos)|, |resto[0].datos|;
            && o + CAB + n <= |pg| && o + CAB + n == |Codificar(hechos + [resto[0]])|
            && De32(pg[o..o + 4]) == n && (pg[o + 4] == 1 <==> resto[0].libre)
            && (o + CAB + n < |pg| <==> |resto| > 1)
  {
    hide Codificar, Cabecera, Imagen;
    var bs, k := hechos + resto, |hechos|;
    assert resto == [] ==> bs == hechos;
    assert bs[..k] == hechos && bs[k] == resto[0];
    CabeceraEn(bs, k);
    LugarSiguiente(bs, k);
    assert bs[..k + 1] == hechos + [resto[0]];
    if |resto| > 1 {
      LugarSiguiente(bs, k + 1);
    } else {
      assert bs[..k + 1] == bs;
    }
  }

  /** What the walk reads at the header after its position. */
  lemma PasoMira(hechos: seq<Bloque>, resto: seq<Bloque>)
    requires |Codificar(hechos)| < |Codificar(hechos + resto)| < TOPE32 && |resto| > 1
    ensures var pg, o2 := Codificar(hechos + resto), |Codificar(hechos)| + CAB + |resto[0].datos|;
            && o2 + CAB + |resto[1].datos| <= |pg|
            && De32(pg[o2..o2 + 4]) == |resto[1].datos| && (pg[o2 + 4] == 1 <==> resto[1].libre)
  {
    hide Codificar, Cabecera, Imagen;
    PasoLee(hechos, resto);
    var bs, k := hechos + resto, |hechos|;
    assert bs[..k + 1] == hechos + [resto[0]] && bs[k + 1] == resto[1];
    CabeceraEn(bs, k + 1);
  }

  lemma PasoFunde(hechos: seq<Bloque>, resto: seq<Bloque>)
    requires Fundibles(resto)
    ensures var sig := [Fundir(resto[0], resto[1])] + resto[2..];
            && |Codificar(hechos)| + 4 <= |Codificar(hechos + resto)| == |Codificar(hechos + sig)|
            && Codificar(hechos + sig) ==
               Empalme(Codificar(hechos + resto), |Codificar(hechos)|,
                   U32((|resto[0].datos| + |resto[1].datos| + CAB) % TOPE32))
            && Compactar(resto) == Compactar(sig)
  {
    hide Codificar, Empalme;
    FundirBytes(hechos, resto);
    ConcatAsocia(hechos, [Fundir(resto[0], resto[1])], resto[2..]);
  }

  lemma PasoAvanza(hechos: seq<Bloque>, resto: seq<Bloque>)
    requires resto != [] && !Fundibles(resto)
    ensures (hechos + [resto[0]]) + resto[1..] == hechos + resto
    ensures (hechos + [resto[0]]) + Compactar(resto[1..]) == hechos + Compactar(resto)
  {
    assert Compactar(resto) == [resto[0]] + Compactar(resto[1..]);
    hide Compactar;
    ConcatAsocia(hechos, [resto[0]], resto[1..]);
    assert [resto[0]] + resto[1..] == resto;
    ConcatAsocia(hechos, [resto[0]], Compactar(resto[1..]));
  }

  lemma PasoFinal(hechos: seq<Bloque>, resto: seq<Bloque>)
    requires |Codificar(hechos)| >= |Codificar(hechos + resto)|
    ensures resto == [] && hechos + resto == hechos + Compactar(resto)
  {
    CodificarConcat(hechos, resto);
  }

  predicate SinVecinosLibres(bs: seq<Bloque>) {
    forall i :: 0 <= i < |bs| - 1 ==> !(bs[i].libre && bs[i + 1].libre)
  }

  lemma {:induction false} CompactarSinVecinos(bs: seq<Bloque>)
    ensures SinVecinosLibres(Compactar(bs))
    decreases |bs|
  {
    if Fundibles(bs) {
      CompactarSinVecinos([Fundir(bs[0], bs[1])] + bs[2..]);
    } else if bs != [] {
      CompactarSinVecinos(bs[1..]);
      var r := Compactar(bs[1..]);
      forall i | 0 <= i < |r|
        ensures !(([bs[0]] + r)[i].libre && r[i].libre)
      {
        if i > 0 {
          assert !(r[i - 1].libre && r[i - 1 + 1].libre);
        }
      }
    }
  }

  lemma {:induction false} CompactarLargo(bs: seq<Bloque>)
    ensures |Codificar(Compactar(bs))| == |Codificar(bs)|
    decreases |bs|
  {
    if Fundibles(bs) {
      FundirBytes([], bs);
      assert [] + bs == bs && [] + [Fundir(bs[0], bs[1])] + bs[2..] == [Fundir(bs[0], bs[1])] + bs[2..];
      CompactarLargo([Fundir(bs[0], bs[1])] + bs[2..]);
    } else if bs != [] {
      CompactarLargo(bs[1..]);
    }
  }

  function BytesLibres(bs: seq<Bloque>): (n: nat) {
    if bs == [] then 0 else (if bs[0].libre then |bs[0].datos| else 0) + BytesLibres(bs[1..])
  }

  /** Each merge turns one header into free space, and nothing else is gained or lost. */
  lemma {:induction false} CompactarConservaLibres(bs: seq<Bloque>)
    ensures |Compactar(bs)| <= |bs|
    ensures BytesLibres(Compactar(bs)) == BytesLibres(bs) + CAB * (|bs| - |Compactar(bs)|)
    decreases |bs|
  {
    if Fundibles(bs) {
      var cs := [Fundir(bs[0], bs[1])] + bs[2..];
      assert cs[1..] == bs[2..] && bs[1..][1..] == bs[2..];
      CompactarConservaLibres(cs);
    } else if bs != [] {
      CompactarConservaLibres(bs[1..]);
      assert ([bs[0]] + Compactar(bs[1..]))[1..] == Compactar(bs[1..]);
    }
  }

  // ---- the occupied blocks ----

  /** Address and payload of every occupied block, in page order; `base` is where the first header lies. */
  function Vivos(bs: seq<Bloque>, base: nat): (v: seq<(int, seq<Byte>)>) {
    if bs == [] then []
    else (if bs[0].libre then [] else [(base + CAB, bs[0].datos)]) + Vivos(bs[1..], base + CAB + |bs[0].datos|)
  }

  lemma {:induction false} VivosConcat(a: seq<Bloque>, b: seq<Bloque>, base: nat)
    ensures Vivos(a + b, base) == Vivos(a, base) + Vivos(b, base + |Codificar(a)|)
  {
    if a == [] {
      assert a + b == b;
    } else {
      assert (a + b)[1..] == a[1..] + b;
      VivosConcat(a[1..], b, base + CAB + |a[0].datos|);
    }
  }

  lemma VivosFundidos(bs: seq<Bloque>, base: nat)
    requires Fundibles(bs)
    ensures Vivos([Fundir(bs[0], bs[1])] + bs[2..], base) == Vivos(bs, base)
  {
    var cs := [Fundir(bs[0], bs[1])] + bs[2..];
    assert cs[1..] == bs[2..] && bs[1..][1..] == bs[2..] && bs[1..][0] == bs[1];
  }

  /** Compaction moves no occupied block and changes no payload. */
  lemma {:induction false} CompactarVivos(bs: seq<Bloque>, base: nat)
    ensures Vivos(Compactar(bs), base) == Vivos(bs, base)
    decreases |bs|
  {
    if Fundibles(bs) {
      VivosFundidos(bs, base);
      CompactarVivos([Fundir(bs[0], bs[1])] + bs[2..], base);
      hide Vivos;
    } else if bs != [] {
      CompactarVivos(bs[1..], base + CAB + |bs[0].datos|);
      assert ([bs[0]] + Compactar(bs[1..]))[1..] == Compactar(bs[1..]);
    }
  }

  /** An occupied payload lies inside the page and holds its bytes. */
  lemma {:induction false} VivoEn(bs: seq<Bloque>, base: nat, i: nat)
    requires i < |Vivos(bs, base)|
    ensures var v := Vivos(bs, base)[i];
            && base + CAB <= v.0 && v.0 + |v.1| <= base + |Codificar(bs)|
            && Codificar(bs)[v.0 - base..v.0 - base + |v.1|] == v.1
  {
    hide Codificar, Imagen, Cabecera;
    var b2 := base + CAB + |bs[0].datos|;
    var h, d, resto := Cabecera(|bs[0].datos|, bs[0].libre), bs[0].datos, Codificar(bs[1..]);
    CodificarPaso(bs);
    if !bs[0].libre && i == 0 {
    } else {
      var j := if bs[0].libre then i else i - 1;
      VivoEn(bs[1..], b2, j);
      var v := Vivos(bs[1..], b2)[j];
    }
  }

  /** Occupied payloads lie one after the other, at least a header apart. */
  lemma {:induction false} VivosDisjuntos(bs: seq<Bloque>, base: nat, i: nat, j: nat)
    requires i < j < |Vivos(bs, base)|
    ensures Vivos(bs, base)[i].0 + |Vivos(bs, base)[i].1| + CAB <= Vivos(bs, base)[j].0
  {
    var b2 := base + CAB + |bs[0].datos|;
    var k := if bs[0].libre then 0 else 1;
    if i >= k {
      VivosDisjuntos(bs[1..], b2, i - k, j - k);
    } else {
      VivoEn(bs[1..], b2, j - 1);
    }
  }

  lemma SustituirVivos(a: seq<Bloque>, m: seq<Bloque>, n: seq<Bloque>, c: seq<Bloque>)
    requires |Codificar(m)| == |Codificar(n)|
    ensures var fin := Vivos(c, |Codificar(a)| + |Codificar(m)|);
            && Vivos(a + m + c, 0) == Vivos(a, 0) + Vivos(m, |Codificar(a)|) + fin
            && Vivos(a + n + c, 0) == Vivos(a, 0) + Vivos(n, |Codificar(a)|) + fin
  {
    VivosMedio(a, m, c);
    VivosMedio(a, n, c);
  }

  lemma PartirVivos(bs: seq<Bloque>, k: nat, espacio: nat)
    requires k < |bs| && Cabe(bs[k], espacio)
    ensures var antes, despues := Vivos(bs[..k], 0), Vivos(bs[k + 1..], Lugar(bs, k) + CAB + |bs[k].datos|);
            && Vivos(bs, 0) == antes + despues
            && Vivos(Partir(bs, k, espacio), 0) == antes + [(Lugar(bs, k) + CAB, bs[k].datos[..espacio])] + despues
  {
    hide Vivos, Codificar, Imagen;
    var a, b, c, o := bs[..k], bs[k], bs[k + 1..], Lugar(bs, k);
    var b1, b2 := Bloque(false, b.datos[..espacio]), Bloque(true, b.datos[espacio + CAB..]);
    assert bs == a + [b] + c;
    VivosUno(b, o);
    VivosDos(b1, b2, o);
    SustituirVivos(a, [b], [b1, b2], c);
    ConcatAsocia(Vivos(a, 0), [], Vivos(c, o + CAB + |b.datos|));
  }

  /** A request adds one occupied block at the address returned and leaves the others where they were. */
  lemma ReservarVivos(bs: seq<Bloque>, espacio: nat)
    requires Direccion(bs, espacio) != -1
    ensures var k := PrimerAjuste(bs, espacio);
            var antes, despues := Vivos(bs[..k], 0), Vivos(bs[k + 1..], Lugar(bs, k) + CAB + |bs[k].datos|);
            && Vivos(bs, 0) == antes + despues
            && Vivos(Reservar(bs, espacio), 0) == antes + [(Direccion(bs, espacio), bs[k].datos[..espacio])] + despues
  {
    hide Vivos, Codificar, PrimerAjuste, Cabe;
    PartirVivos(bs, PrimerAjuste(bs, espacio), espacio);
  }

  /** A middle stretch contributes its own occupied blocks and shifts the rest by its length. */
  lemma VivosMedio(a: seq<Bloque>, m: seq<Bloque>, c: seq<Bloque>)
    ensures Vivos(a + m + c, 0) == Vivos(a, 0) + Vivos(m, |Codificar(a)|) + Vivos(c, |Codificar(a)| + |Codificar(m)|)
  {
    VivosConcat(a + m, c, 0);
    VivosConcat(a, m, 0);
    CodificarConcat(a, m);
  }

  lemma VivosUno(b: Bloque, base: nat)
    ensures Vivos([b], base) == if b.libre then [] else [(base + CAB, b.datos)]
    ensures |Codificar([b])| == CAB + |b.datos|
  {
  }

  lemma VivosDos(b: Bloque, c: Bloque, base: nat)
    requires !b.libre && c.libre
    ensures Vivos([b, c], base) == [(base + CAB, b.datos)]
    ensures |Codificar([b, c])| == CAB + |b.datos| + CAB + |c.datos|
  {
    assert [b, c][1..] == [c];
    VivosUno(c, base + CAB + |b.datos|);
  }

  lemma SoltarVivos(bs: seq<Bloque>, k: nat)
    requires k < |bs| && !bs[k].libre
    ensures var antes, despues := Vivos(bs[..k], 0), Vivos(bs[k + 1..], Lugar(bs, k) + CAB + |bs[k].datos|);
            && Vivos(bs, 0) == antes + [(Lugar(bs, k) + CAB, bs[k].datos)] + despues
            && Vivos(Soltar(bs, k), 0) == antes + despues
  {
    hide Vivos, Codificar, Imagen;
    var a, b, c, o := bs[..k], bs[k], bs[k + 1..], Lugar(bs, k);
    assert bs == a + [b] + c;
    assert Soltar(bs, k) == a + [b.(libre := true)] + c;
    VivosUno(b, o);
    VivosUno(b.(libre := true), o);
    SustituirVivos(a, [b], [b.(libre := true)], c);
    ConcatAsocia(Vivos(a, 0), [], Vivos(c, o + CAB + |b.datos|));
  }

  /** Freeing an occupied block and compacting removes that block alone. */
  lemma LiberarVivos(bs: seq<Bloque>, k: nat)
    requires k < |bs| && !bs[k].libre
    ensures var antes, despues := Vivos(bs[..k], 0), Vivos(bs[k + 1..], Lugar(bs, k) + CAB + |bs[k].datos|);
            && Vivos(bs, 0) == antes + [(Lugar(bs, k) + CAB, bs[k].datos)] + despues
            && Vivos(Compactar(Soltar(bs, k)), 0) == antes + despues
  {
    hide Vivos, Compactar;
    SoltarVivos(bs, k);
    CompactarVivos(Soltar(bs, k), 0);
  }

  lemma EscrituraImagen(a: seq<Byte>, b: Bloque, off: nat, d: seq<Byte>, c: seq<Byte>)
    requires off + |d| <= |b.datos|
    ensures |a + Imagen(b) + c| >= |a| + CAB + off + |d|
    ensures Empalme(a + Imagen(b) + c, |a| + CAB + off, d) == a + Imagen(Bloque(b.libre, Empalme(b.datos, off, d))) + c
  {
  }

  /** A write inside an occupied payload leaves every header and every other payload alone. */
  lemma EscrituraEnBloque(bs: seq<Bloque>, k: nat, off: nat, d: seq<Byte>)
    requires k < |bs| && off + |d| <= |bs[k].datos|
    ensures Lugar(bs, k) + CAB + off + |d| <= |Codificar(bs)|
    ensures Empalme(Codificar(bs), Lugar(bs, k) + CAB + off, d) ==
            Codificar(bs[k := Bloque(bs[k].libre, Empalme(bs[k].datos, off, d))])
  {
    hide Empalme, Codificar, Imagen;
    var cs := bs[k := Bloque(bs[k].libre, Empalme(bs[k].datos, off, d))];
    LugarSiguiente(bs, k);
    LugarSiguiente(cs, k);
    assert cs[..k] == bs[..k] && cs[k + 1..] == bs[k + 1..];
    EscrituraImagen(Codificar(bs[..k]), bs[k], off, d, Codificar(bs[k + 1..]));
  }

  // ---- runs over one page ----

  datatype Paso = Pedir(espacio: nat) | Devolver(direccion: nat) | Anotar(direccion: nat, off: nat, d: seq<Byte>)

  /** The block whose payload starts at `direccion`; `|bs|` when there is none. */
  function BloqueEn(bs: seq<Bloque>, direccion: nat): (k: nat)
    ensures k <= |bs|
    ensures k < |bs| ==> Lugar(bs, k) + CAB == direccion
  {
    BloqueDesde(bs, 0, direccion)
  }

  function BloqueDesde(bs: seq<Bloque>, k: nat, direccion: nat): (r: nat)
    requires k <= |bs|
    ensures k <= r <= |bs|
    ensures r < |bs| ==> Lugar(bs, r) + CAB == direccion
    ensures forall j :: k <= j < r ==> Lugar(bs, j) + CAB != direccion
    decreases |bs| - k
  {
    if k == |bs| || Lugar(bs, k) + CAB == direccion then k else BloqueDesde(bs, k + 1, direccion)
  }

  /** A client frees and writes only blocks it holds. */
  predicate Admisible(bs: seq<Bloque>, p: Paso) {
    match p
    case Pedir(_) => true
    case Devolver(dir) => BloqueEn(bs, dir) < |bs| && !bs[BloqueEn(bs, dir)].libre
    case Anotar(dir, off, d) =>
      var k := BloqueEn(bs, dir);
      k < |bs| && !bs[k].libre && off + |d| <= |bs[k].datos|
  }

  function Dar(bs: seq<Bloque>, p: Paso): (r: seq<Bloque>)
    requires Admisible(bs, p)
  {
    match p
    case Pedir(e) => Reservar(bs, e)
    case Devolver(dir) => Compactar(Soltar(bs, BloqueEn(bs, dir)))
    case Anotar(dir, off, d) =>
      var k := BloqueEn(bs, dir);
      bs[k := Bloque(false, Empalme(bs[k].datos, off, d))]
  }

  ghost predicate Corrida(bs: seq<Bloque>, ps: seq<Paso>, cs: seq<Bloque>)
    decreases |ps|
  {
    if ps == [] then cs == bs
    else Admisible(bs, ps[0]) && Corrida(Dar(bs, ps[0]), ps[1..], cs)
  }

  lemma PartirSinVecinos(bs: seq<Bloque>, k: nat, espacio: nat)
    requires k < |bs| && Cabe(bs[k], espacio) && SinVecinosLibres(bs)
    ensures SinVecinosLibres(Partir(bs, k, espacio))
  {
  }

  lemma DarConserva(bs: seq<Bloque>, p: Paso)
    requires Admisible(bs, p) && SinVecinosLibres(bs)
    ensures SinVecinosLibres(Dar(bs, p))
    ensures |Codificar(Dar(bs, p))| == |Codificar(bs)|
  {
    hide Codificar, Partir, Compactar, Lugar, Empalme;
    match p
    case Pedir(e) =>
      var k := PrimerAjuste(bs, e);
      if k < |bs| {
        PartirBytes(bs, k, e);
        PartirSinVecinos(bs, k, e);
      }
    case Devolver(dir) =>
      var k := BloqueEn(bs, dir);
      SoltarBytes(bs, k);
      CompactarSinVecinos(Soltar(bs, k));
      CompactarLargo(Soltar(bs, k));
    case Anotar(dir, off, d) =>
      EscrituraEnBloque(bs, BloqueEn(bs, dir), off, d);
  }

  /** After any run on a new page the headers tile it exactly and no two free blocks touch;
      and once nothing is occupied, the page is one free block again. */
  lemma {:induction false} CorridaTesela(bs: seq<Bloque>, ps: seq<Paso>, cs: seq<Bloque>)
    requires SinVecinosLibres(bs) && Corrida(bs, ps, cs)
    ensures SinVecinosLibres(cs) && |Codificar(cs)| == |Codificar(bs)|
    ensures |Codificar(bs)| > 0 && Vivos(cs, 0) == [] ==>
              |cs| == 1 && cs[0].libre && |cs[0].datos| == |Codificar(bs)| - CAB
    decreases |ps|
  {
    if ps != [] {
      DarConserva(bs, ps[0]);
      CorridaTesela(Dar(bs, ps[0]), ps[1..], cs);
    } else if Vivos(cs, 0) == [] && cs != [] {
      SinVivosTodoLibre(cs, 0);
      if |cs| > 1 {
        assert false;
      }
      assert cs[1..] == [];
    }
  }

  lemma {:induction false} SinVivosTodoLibre(bs: seq<Bloque>, base: nat)
    requires Vivos(bs, base) == []
    ensures forall i :: 0 <= i < |bs| ==> bs[i].libre
  {
    if bs != [] {
      SinVivosTodoLibre(bs[1..], base + CAB + |bs[0].datos|);
      assert forall i :: 0 < i < |bs| ==> bs[i] == bs[1..][i - 1];
    }
  }

  // ---- a freshly formatted page ----

  /** Writing the first header over any bytes formats the page as one free block. */
  lemma PaginaNueva(pg: seq<Byte>)
    requires CAB <= |pg| < TOPE32
    ensures Empalme(pg, 0, Cabecera(|pg| - CAB, true)) == Codificar([Bloque(true, pg[CAB..])])
  {
  }
}
