/** The four requests of the file system, what every one of them keeps, and whole runs of them. */
module Operaciones {
  import opened Bytes
  import opened Listas
  import opened Archivos

  // ---------------------------------------------------------------- the invariant

  /** File `p` owns block `b`. */
  predicate Duenio(d: Disco, p: string, b: nat) {
    p in d.archivos && b in d.archivos[p].bloques
  }

  /** A file has at least one block, all on the disk, none twice, and enough of them for its size. */
  predicate ArchivoSano(d: Disco, a: Archivo) {
    && |a.bloques| >= 1 && SinRepetidos(a.bloques) && EnDisco(d.bloques, a.bloques)
    && a.tamanio <= |a.bloques| * d.sb
  }

  /** A bit is set exactly when one file owns its block. */
  ghost predicate Sano(d: Disco) {
    && Discos(d.bloques, d.sb) && |d.bitmap| == |d.bloques|
    && (forall p :: p in d.archivos ==> ArchivoSano(d, d.archivos[p]))
    && (forall p, b: nat :: Duenio(d, p, b) ==> b < |d.bitmap| && d.bitmap[b])
    && (forall b :: 0 <= b < |d.bitmap| && d.bitmap[b] ==> exists p :: Duenio(d, p, b))
    && (forall p, q, b: nat :: Duenio(d, p, b) && Duenio(d, q, b) ==> p == q)
  }

  /** The flat array of bytes of a file. */
  function Plano(d: Disco, p: string): (r: seq<Byte>)
    requires Discos(d.bloques, d.sb) && p in d.archivos && EnDisco(d.bloques, d.archivos[p].bloques)
    ensures |r| == |d.archivos[p].bloques| * d.sb
  {
    Contenido(d.bloques, d.sb, d.archivos[p].bloques)
  }

  // ---------------------------------------------------------------- the requests

  datatype Respuesta = Respuesta(codigo: int, datos: seq<Byte>)

  /** A file starts with one block and no bytes; creating fails when it exists or no block is left. */
  function CrearArchivo(d: Disco, path: string): (r: (bool, Disco))
    requires |d.bitmap| == |d.bloques|
  {
    var b := PrimerLibre(d.bitmap, 0);
    if path in d.archivos || b == -1 then (false, d)
    else (true, d.(archivos := d.archivos[path := Archivo(0, [b])], bitmap := d.bitmap[b := true]))
  }

  function BorrarArchivo(d: Disco, path: string): (r: (bool, Disco))
    requires |d.bitmap| == |d.bloques|
    requires path in d.archivos ==> EnDisco(d.bloques, d.archivos[path].bloques)
  {
    if path !in d.archivos then (false, d)
    else (true, d.(archivos := d.archivos - {path}, bitmap := Limpiar(d.bitmap, d.archivos[path].bloques)))
  }

  function ObtenerDatos(d: Disco, path: string, offset: int, size: int): (r: Respuesta)
    requires Discos(d.bloques, d.sb) && (path in d.archivos ==> ArchivoSano(d, d.archivos[path]))
  {
    if path !in d.archivos then Respuesta(-FNF, [])
    else if size < 1 then Respuesta(-14, [])
    else if offset < 0 then Respuesta(-15, [])
    else if d.archivos[path].tamanio - size - offset < 0 then Respuesta(-16, [])
    else Respuesta(1, Plano(d, path)[offset..offset + size])
  }

  /** How many blocks a file of `n` lacks to reach the last byte of a write. */
  function Faltan(sb: nat, n: nat, offset: nat, size: nat): (r: nat)
    requires sb > 0 && size > 0
    ensures Alcanza(sb, n + r, offset, size)
  {
    var ultimo := (offset + size - 1) / sb;
    if ultimo + 1 - n > 0 then
      ultimo + 1 - n
    else
      MasBloques(sb, ultimo + 1, n);
      0
  }

  lemma MasBloques(sb: nat, a: nat, b: nat)
    requires a <= b
    ensures a * sb <= b * sb
  {
  }

  /** Takes the missing blocks. */
  function Crecer(d: Disco, path: string, n: nat): (r: Disco)
    requires path in d.archivos && n <= Libres(d.bitmap)
    ensures r.sb == d.sb && r.bloques == d.bloques && path in r.archivos
  {
    var a := d.archivos[path];
    var nuevos := Asignar(d.bitmap, n);
    d.(archivos := d.archivos[path := Archivo(a.tamanio, a.bloques + nuevos.1)], bitmap := nuevos.0)
  }

  /** Copies the buffer to the file and raises its size to reach it. */
  function Volcar(d: Disco, path: string, offset: nat, buf: seq<Byte>): (r: Disco)
    requires Discos(d.bloques, d.sb) && path in d.archivos && EnDisco(d.bloques, d.archivos[path].bloques)
    requires Alcanza(d.sb, |d.archivos[path].bloques|, offset, |buf|)
  {
    var a := d.archivos[path];
    d.(archivos := d.archivos[path := Archivo(Mayor(a.tamanio, offset + |buf|), a.bloques)],
       bloques := Escribir(d.bloques, d.sb, a.bloques, offset, buf))
  }

  function Mayor(a: int, b: int): int {
    if a >= b then a else b
  }

  /** Which code a write answers with: 1 when it is done. */
  function CodigoGuardar(d: Disco, path: string, offset: int, size: int): int
    requires d.sb > 0
  {
    if path !in d.archivos then -FNF
    else if size < 1 then -14
    else if offset < 0 then -15
    else if Libres(d.bitmap) < Faltan(d.sb, |d.archivos[path].bloques|, offset, size) then -16
    else 1
  }

  /** A write: the missing blocks first, then the bytes; a refused one changes nothing. */
  function GuardarDatos(d: Disco, path: string, offset: int, buf: seq<Byte>): (r: Disco)
    requires Sano(d)
  {
    if CodigoGuardar(d, path, offset, |buf|) != 1 then d else
      var n := Faltan(d.sb, |d.archivos[path].bloques|, offset, |buf|);
      CrecerSano(d, path, n);
      CrecerLargo(d, path, n);
      Volcar(Crecer(d, path, n), path, offset, buf)
  }

  // ---------------------------------------------------------------- each request keeps the invariant

  lemma MultiploMayor(n: nat, m: nat, sb: nat, t: nat)
    requires t <= n * sb
    ensures t <= (n + m) * sb
  {
  }

  lemma CrecerLargo(d: Disco, path: string, n: nat)
    requires path in d.archivos && n <= Libres(d.bitmap)
    ensures |Crecer(d, path, n).archivos[path].bloques| == |d.archivos[path].bloques| + n
  {
    AsignarNuevos(d.bitmap, n);
  }

  lemma CrearSano(d: Disco, path: string)
    requires Sano(d)
    ensures Sano(CrearArchivo(d, path).1)
  {
    var (ok, r) := CrearArchivo(d, path);
    if ok {
      var b := PrimerLibre(d.bitmap, 0);
      assert forall c: nat :: Duenio(r, path, c) <==> c == b;
      assert forall p, c: nat :: p != path ==> (Duenio(r, p, c) <==> Duenio(d, p, c));
      assert forall p, c: nat :: Duenio(d, p, c) ==> p != path && c != b;
      forall c | 0 <= c < |r.bitmap| && r.bitmap[c]
        ensures exists p :: Duenio(r, p, c)
      {
        if c == b {
          assert Duenio(r, path, c);
        } else {
          var p :| Duenio(d, p, c);
          assert Duenio(r, p, c);
        }
      }
      assert ArchivoSano(r, r.archivos[path]);
      assert forall p :: p in r.archivos && p != path ==> ArchivoSano(d, d.archivos[p]);
    }
  }

  lemma BorrarSano(d: Disco, path: string)
    requires Sano(d)
    ensures Sano(BorrarArchivo(d, path).1)
  {
    var (ok, r) := BorrarArchivo(d, path);
    if ok {
      assert forall p, c: nat :: Duenio(r, p, c) <==> p != path && Duenio(d, p, c);
      forall c | 0 <= c < |r.bitmap| && r.bitmap[c]
        ensures exists p :: Duenio(r, p, c)
      {
        var p :| Duenio(d, p, c);
        assert !Duenio(d, path, c);
        assert Duenio(r, p, c);
      }
      forall p, c: nat | Duenio(r, p, c)
        ensures c < |r.bitmap| && r.bitmap[c]
      {
        assert !Duenio(d, path, c);
      }
      assert forall p :: p in r.archivos ==> ArchivoSano(d, d.archivos[p]);
    }
  }

  lemma CrecerSano(d: Disco, path: string, n: nat)
    requires Sano(d) && path in d.archivos && n <= Libres(d.bitmap)
    ensures Sano(Crecer(d, path, n))
  {
    hide Asignar, Libres, PrimerLibre;
    AsignarNuevos(d.bitmap, n);
    var r, a := Crecer(d, path, n), d.archivos[path];
    var nuevos := Asignar(d.bitmap, n).1;
    assert forall c: nat :: Duenio(r, path, c) <==> Duenio(d, path, c) || c in nuevos;
    assert forall p, c: nat :: p != path ==> (Duenio(r, p, c) <==> Duenio(d, p, c));
    forall c: nat | c in nuevos
      ensures c < |d.bitmap| && !d.bitmap[c] && forall p :: !Duenio(d, p, c)
    {
    }
    forall c | 0 <= c < |r.bitmap| && r.bitmap[c]
      ensures exists p :: Duenio(r, p, c)
    {
      if c in nuevos {
        assert Duenio(r, path, c);
      } else {
        var p :| Duenio(d, p, c);
        assert Duenio(r, p, c);
      }
    }
    forall i | 0 <= i < |a.bloques|
      ensures a.bloques[i] !in nuevos
    {
      assert Duenio(d, path, a.bloques[i]);
    }
    MultiploMayor(|a.bloques|, n, d.sb, a.tamanio);
    assert ArchivoSano(r, r.archivos[path]);
    assert forall p :: p in r.archivos && p != path ==> ArchivoSano(d, d.archivos[p]);
  }

  lemma VolcarSano(d: Disco, path: string, offset: nat, buf: seq<Byte>)
    requires Sano(d) && path in d.archivos
    requires Alcanza(d.sb, |d.archivos[path].bloques|, offset, |buf|)
    ensures Sano(Volcar(d, path, offset, buf))
  {
    hide Escribir;
    var r := Volcar(d, path, offset, buf);
    assert forall p, c: nat :: Duenio(r, p, c) <==> Duenio(d, p, c);
    forall p | p in r.archivos
      ensures ArchivoSano(r, r.archivos[p])
    {
      assert ArchivoSano(d, d.archivos[p]);
    }
    forall c | 0 <= c < |r.bitmap| && r.bitmap[c]
      ensures exists p :: Duenio(r, p, c)
    {
      var p :| Duenio(d, p, c);
      assert Duenio(r, p, c);
    }
  }

  /** A write keeps the invariant. */
  lemma GuardarSano(d: Disco, path: string, offset: int, buf: seq<Byte>)
    requires Sano(d)
    ensures Sano(GuardarDatos(d, path, offset, buf))
  {
    assert Discos(d.bloques, d.sb);
    hide Sano, Volcar, Crecer, Libres;
    if CodigoGuardar(d, path, offset, |buf|) == 1 {
      var n := Faltan(d.sb, |d.archivos[path].bloques|, offset, |buf|);
      CrecerSano(d, path, n);
      CrecerLargo(d, path, n);
      VolcarSano(Crecer(d, path, n), path, offset, buf);
    }
  }

  // ---------------------------------------------------------------- a file is a flat array of bytes

  lemma SegundaMitad(sb: nat, n: nat, p: nat, r: nat)
    requires sb > 0 && p == n * sb + r
    ensures p / sb == n + r / sb && p % sb == r % sb
  {
    var q := r / sb;
    assert (n + q) * sb == n * sb + q * sb;
    DivisionUnica(sb, p, n + q, r % sb);
  }

  lemma ByteConcat(bl: seq<seq<Byte>>, sb: nat, a: seq<nat>, b: seq<nat>, p: nat)
    requires Discos(bl, sb) && EnDisco(bl, a) && EnDisco(bl, b) && p / sb < |a|
    ensures ByteEn(bl, sb, a + b, p) == ByteEn(bl, sb, a, p)
  {
  }

  lemma ByteConcatDerecho(bl: seq<seq<Byte>>, sb: nat, a: seq<nat>, b: seq<nat>, p: nat, r: nat)
    requires Discos(bl, sb) && EnDisco(bl, a) && EnDisco(bl, b)
    requires p / sb == |a| + r / sb && p % sb == r % sb && r / sb < |b|
    ensures ByteEn(bl, sb, a + b, p) == ByteEn(bl, sb, b, r)
  {
  }

  lemma ContenidoConcat(bl: seq<seq<Byte>>, sb: nat, a: seq<nat>, b: seq<nat>)
    requires Discos(bl, sb) && EnDisco(bl, a) && EnDisco(bl, b)
    ensures Contenido(bl, sb, a + b) == Contenido(bl, sb, a) + Contenido(bl, sb, b)
  {
    hide ByteEn, Contenido;
    var n, m := |a| * sb, |b| * sb;
    assert |a + b| * sb == n + m;
    assert |Contenido(bl, sb, a)| == n;
    forall p | 0 <= p < n + m
      ensures Contenido(bl, sb, a + b)[p] == (Contenido(bl, sb, a) + Contenido(bl, sb, b))[p]
    {
      ContenidoEn(bl, sb, a + b, p);
      if p < n {
        ContenidoEn(bl, sb, a, p);
        ByteConcat(bl, sb, a, b, p);
      } else {
        ContenidoEn(bl, sb, b, p - n);
        SegundaMitad(sb, |a|, p, p - n);
        ByteConcatDerecho(bl, sb, a, b, p, p - n);
      }
    }
  }

  /** Taking blocks lengthens the file's array by what the new blocks happen to hold, and touches no other file. */
  lemma CrecerPlano(d: Disco, path: string, n: nat, q: string)
    requires Sano(d) && path in d.archivos && n <= Libres(d.bitmap) && q in d.archivos
    ensures EnDisco(d.bloques, Asignar(d.bitmap, n).1)
    ensures var r := Crecer(d, path, n);
      Sano(r)
      && Plano(r, q) == Plano(d, q) + if q == path then Contenido(d.bloques, d.sb, Asignar(d.bitmap, n).1) else []
  {
    CrecerSano(d, path, n);
    AsignarNuevos(d.bitmap, n);
    var nuevos := Asignar(d.bitmap, n).1;
    ContenidoConcat(d.bloques, d.sb, d.archivos[path].bloques, nuevos);
    hide Contenido;
    assert Plano(d, q) + [] == Plano(d, q);
  }

  /** Writing splices the file's array and touches no other file. */
  lemma VolcarPlano(d: Disco, path: string, offset: nat, buf: seq<Byte>, q: string)
    requires Sano(d) && path in d.archivos && q in d.archivos
    requires Alcanza(d.sb, |d.archivos[path].bloques|, offset, |buf|)
    ensures var r := Volcar(d, path, offset, buf);
      Sano(r) && Plano(r, q) == if q == path then Empalme(Plano(d, path), offset, buf) else Plano(d, q)
  {
    hide Escribir, Contenido, Empalme;
    VolcarSano(d, path, offset, buf);
    var ids := d.archivos[path].bloques;
    if q == path {
      EscribirContenido(d.bloques, d.sb, ids, offset, buf);
    } else {
      var otros := d.archivos[q].bloques;
      forall k | 0 <= k < |otros|
        ensures otros[k] !in ids
      {
        assert Duenio(d, q, otros[k]);
        assert !Duenio(d, path, otros[k]);
      }
      ContenidoAjeno(d.bloques, d.sb, ids, offset, buf, otros);
    }
  }

  /**
   * A write that answers 1 splices the buffer into the file's array, first lengthened by the stale bytes of the
   * blocks it took, and leaves the array of every other file alone.
   */
  lemma GuardarPlano(d: Disco, path: string, offset: int, buf: seq<Byte>, q: string)
    requires Sano(d) && q in d.archivos && CodigoGuardar(d, path, offset, |buf|) == 1
    ensures path in d.archivos && offset >= 0 && |buf| > 0
    ensures var r := GuardarDatos(d, path, offset, buf);
      var n := Faltan(d.sb, |d.archivos[path].bloques|, offset, |buf|);
      && Sano(r) && q in r.archivos && n <= Libres(d.bitmap)
      && EnDisco(d.bloques, Asignar(d.bitmap, n).1)
      && offset + |buf| <= |Plano(d, path) + Contenido(d.bloques, d.sb, Asignar(d.bitmap, n).1)|
      && Plano(r, q) == (if q == path
           then Empalme(Plano(d, path) + Contenido(d.bloques, d.sb, Asignar(d.bitmap, n).1), offset, buf)
           else Plano(d, q))
  {
    hide Plano, Empalme, Asignar, Contenido, Faltan, Libres, Escribir;
    GuardarSano(d, path, offset, buf);
    var n := Faltan(d.sb, |d.archivos[path].bloques|, offset, |buf|);
    CrecerPlano(d, path, n, q);
    CrecerPlano(d, path, n, path);
    CrecerLargo(d, path, n);
    hide Sano;
    var e := Crecer(d, path, n);
    VolcarPlano(e, path, offset, buf, q);
    hide Crecer, Volcar;
    assert Plano(d, q) + [] == Plano(d, q);
  }

  /** The whole state after a write. */
  lemma GuardarEs(d: Disco, path: string, offset: int, buf: seq<Byte>)
    requires Sano(d) && CodigoGuardar(d, path, offset, |buf|) == 1
    ensures path in d.archivos && offset >= 0 && |buf| > 0 && Discos(d.bloques, d.sb)
    ensures var n := Faltan(d.sb, |d.archivos[path].bloques|, offset, |buf|);
      && n <= Libres(d.bitmap)
      && EnDisco(d.bloques, d.archivos[path].bloques + Asignar(d.bitmap, n).1)
      && Alcanza(d.sb, |d.archivos[path].bloques + Asignar(d.bitmap, n).1|, offset, |buf|)
    ensures var a := d.archivos[path];
      var (bm, nuevos) := Asignar(d.bitmap, Faltan(d.sb, |a.bloques|, offset, |buf|));
      GuardarDatos(d, path, offset, buf)
      == Disco(d.sb, d.archivos[path := Archivo(Mayor(a.tamanio, offset + |buf|), a.bloques + nuevos)], bm,
               Escribir(d.bloques, d.sb, a.bloques + nuevos, offset, buf))
  {
    hide Sano, Escribir, Asignar, Libres, Faltan, SinRepetidos, EnDisco;
    SanoEn(d, path);
    var n := Faltan(d.sb, |d.archivos[path].bloques|, offset, |buf|);
    CrecerSano(d, path, n);
    CrecerLargo(d, path, n);
    SanoEn(Crecer(d, path, n), path);
  }

  lemma SanoEn(d: Disco, path: string)
    requires Sano(d)
    ensures Discos(d.bloques, d.sb) && (path in d.archivos ==> ArchivoSano(d, d.archivos[path]))
  {
  }

  /** Sizes and block lists after a write: the written file's grow, the others' stay; taken blocks leave the count. */
  lemma GuardarFicha(d: Disco, path: string, offset: int, buf: seq<Byte>, q: string)
    requires Sano(d) && q in d.archivos && CodigoGuardar(d, path, offset, |buf|) == 1
    ensures path in d.archivos && offset >= 0 && |buf| > 0
    ensures var r := GuardarDatos(d, path, offset, buf);
      var n := Faltan(d.sb, |d.archivos[path].bloques|, offset, |buf|);
      && r.archivos.Keys == d.archivos.Keys && n <= Libres(d.bitmap)
      && r.archivos[q].tamanio
          == (if q == path then Mayor(d.archivos[q].tamanio, offset + |buf|) else d.archivos[q].tamanio)
      && |r.archivos[q].bloques| == |d.archivos[q].bloques| + (if q == path then n else 0)
      && d.archivos[q].bloques <= r.archivos[q].bloques
      && Libres(r.bitmap) == Libres(d.bitmap) - n
  {
    assert Discos(d.bloques, d.sb);
    var n := Faltan(d.sb, |d.archivos[path].bloques|, offset, |buf|);
    AsignarNuevos(d.bitmap, n);
    CrecerLargo(d, path, n);
    hide Sano, Asignar, Contenido, Faltan, Libres, Escribir;
  }

  /** The blocks a write adds to its file are the lowest clear ones, after those it had and in increasing order. */
  lemma GuardarBloques(d: Disco, path: string, offset: int, buf: seq<Byte>)
    requires Sano(d) && CodigoGuardar(d, path, offset, |buf|) == 1
    ensures var r, n := GuardarDatos(d, path, offset, buf), |d.archivos[path].bloques|;
      && path in r.archivos && n <= |r.archivos[path].bloques| && |r.bitmap| == |d.bitmap|
      && var nuevos := r.archivos[path].bloques[n..];
        && MasBajos(nuevos, r.bitmap)
        && forall b :: 0 <= b < |d.bitmap| ==> (r.bitmap[b] <==> d.bitmap[b] || b in nuevos)
  {
    var n := Faltan(d.sb, |d.archivos[path].bloques|, offset, |buf|);
    AsignarNuevos(d.bitmap, n);
    AsignarMenores(d.bitmap, n);
    CrecerLargo(d, path, n);
    var nuevos := Asignar(d.bitmap, n);
    hide Sano, Asignar, Faltan, Libres, Escribir, MasBajos;
    assert GuardarDatos(d, path, offset, buf).archivos[path].bloques == d.archivos[path].bloques + nuevos.1;
  }

  /** A new file gets the lowest clear block, and no other bit changes. */
  lemma CrearMasBajo(d: Disco, path: string)
    requires Sano(d) && CrearArchivo(d, path).0
    ensures var r := CrearArchivo(d, path).1;
      && path in r.archivos && r.archivos[path].tamanio == 0 && |r.archivos[path].bloques| == 1
      && |r.bitmap| == |d.bitmap| && MasBajos(r.archivos[path].bloques, r.bitmap)
      && forall b :: 0 <= b < |d.bitmap| ==> (r.bitmap[b] <==> d.bitmap[b] || b in r.archivos[path].bloques)
  {
    hide Sano;
  }

  /** A refused write changes nothing, and it is refused for lack of room only when the blocks do not suffice. */
  lemma GuardarRechazado(d: Disco, path: string, offset: int, buf: seq<Byte>)
    requires Sano(d)
    ensures CodigoGuardar(d, path, offset, |buf|) != 1 ==> GuardarDatos(d, path, offset, buf) == d
    ensures path in d.archivos && |buf| >= 1 && offset >= 0 ==>
      (CodigoGuardar(d, path, offset, |buf|) == 1 <==>
       Alcanza(d.sb, |d.archivos[path].bloques| + Libres(d.bitmap), offset, |buf|))
  {
    assert Discos(d.bloques, d.sb);
    hide Sano;
    if path in d.archivos && |buf| >= 1 && offset >= 0 {
      FaltanMinimo(d.sb, |d.archivos[path].bloques|, offset, |buf|, Libres(d.bitmap));
    }
  }

  /** `Faltan` is the least number of extra blocks that reaches the end of the write. */
  lemma FaltanMinimo(sb: nat, n: nat, offset: nat, size: nat, m: nat)
    requires sb > 0 && size > 0
    ensures Alcanza(sb, n + m, offset, size) <==> Faltan(sb, n, offset, size) <= m
  {
    var f := Faltan(sb, n, offset, size);
    if f <= m {
      MasBloques(sb, n + f, n + m);
    } else {
      MasBloques(sb, n + m, n + f - 1);
      var x := offset + size - 1;
      assert n + f - 1 == x / sb;
      assert x / sb * sb <= x;
    }
  }

  /** A read after a write of the same range returns the buffer; reads of other files return what they did. */
  lemma LeerLoEscrito(d: Disco, path: string, offset: int, buf: seq<Byte>)
    requires Sano(d) && CodigoGuardar(d, path, offset, |buf|) == 1
    ensures Sano(GuardarDatos(d, path, offset, buf))
    ensures ObtenerDatos(GuardarDatos(d, path, offset, buf), path, offset, |buf|) == Respuesta(1, buf)
  {
    GuardarPlano(d, path, offset, buf, path);
    GuardarFicha(d, path, offset, buf, path);
    var r, n := GuardarDatos(d, path, offset, buf), Faltan(d.sb, |d.archivos[path].bloques|, offset, |buf|);
    EmpalmeLeido(Plano(d, path) + Contenido(d.bloques, d.sb, Asignar(d.bitmap, n).1), offset, buf);
    assert ArchivoSano(r, r.archivos[path]);
    hide Sano, Plano, Empalme, Asignar, Contenido, Faltan, GuardarDatos;
  }

  lemma LeerOtroArchivo(d: Disco, path: string, offset: int, buf: seq<Byte>, q: string, desde: int, size: int)
    requires Sano(d) && q != path
    ensures Sano(GuardarDatos(d, path, offset, buf))
    ensures ObtenerDatos(GuardarDatos(d, path, offset, buf), q, desde, size) == ObtenerDatos(d, q, desde, size)
  {
    GuardarSano(d, path, offset, buf);
    var r := GuardarDatos(d, path, offset, buf);
    if CodigoGuardar(d, path, offset, |buf|) == 1 {
      if q in d.archivos {
        GuardarPlano(d, path, offset, buf, q);
        GuardarFicha(d, path, offset, buf, q);
      }
      hide Sano, Plano, Empalme, Asignar, Contenido, Faltan;
    }
  }

  /** Deleting gives every block of the file back, and the file's bytes are all the disk loses. */
  lemma BorrarDevuelve(d: Disco, path: string)
    requires Sano(d) && path in d.archivos
    ensures Libres(BorrarArchivo(d, path).1.bitmap) == Libres(d.bitmap) + |d.archivos[path].bloques|
    ensures BorrarArchivo(d, path).1.bloques == d.bloques
  {
    var a := d.archivos[path];
    assert ArchivoSano(d, a);
    forall k | 0 <= k < |a.bloques|
      ensures d.bitmap[a.bloques[k]]
    {
      assert Duenio(d, path, a.bloques[k]);
    }
    LimpiarLibres(d.bitmap, a.bloques);
  }

  /** A file can be created exactly when it is new and a block is left; deleting it at once undoes it. */
  lemma CrearYBorrar(d: Disco, path: string)
    requires Sano(d)
    ensures CrearArchivo(d, path).0 <==> path !in d.archivos && Libres(d.bitmap) > 0
    ensures Sano(CrearArchivo(d, path).1)
    ensures CrearArchivo(d, path).0 ==>
      Libres(CrearArchivo(d, path).1.bitmap) == Libres(d.bitmap) - 1
          && BorrarArchivo(CrearArchivo(d, path).1, path) == (true, d)
  {
    LibresPositivo(d.bitmap);
    CrearSano(d, path);
    hide Sano, Libres;
    var b := PrimerLibre(d.bitmap, 0);
    if CrearArchivo(d, path).0 {
      LibresCambia(d.bitmap, b, true);
      var e := CrearArchivo(d, path).1;
      assert e.archivos - {path} == d.archivos;
      assert Limpiar(e.bitmap, [b]) == d.bitmap;
    }
  }

  // ---------------------------------------------------------------- writes that start beyond the end

  /** Byte `k` was in the file, or comes from a buffer of `n` bytes written at `offset`. */
  predicate Conocido(tamanio: nat, offset: nat, n: nat, k: nat) {
    k < tamanio || offset <= k < offset + n
  }

  lemma ConocidosTodos(tamanio: nat, offset: nat, n: nat)
    requires n > 0
    ensures (forall k: nat :: k < Mayor(tamanio, offset + n) ==> Conocido(tamanio, offset, n, k)) <==> offset <= tamanio
  {
    if offset > tamanio {
      assert !Conocido(tamanio, offset, n, tamanio);
    }
  }

  /**
   * After a write every byte of the file is an old one or comes from the buffer exactly when it starts inside the file.
   */
  lemma GuardarSinHueco(d: Disco, path: string, offset: int, buf: seq<Byte>)
    requires Sano(d) && CodigoGuardar(d, path, offset, |buf|) == 1
    ensures path in d.archivos && offset >= 0 && path in GuardarDatos(d, path, offset, buf).archivos
    ensures var t, r := d.archivos[path].tamanio, GuardarDatos(d, path, offset, buf);
      (forall k: nat :: k < r.archivos[path].tamanio ==> Conocido(t, offset, |buf|, k)) <==> offset <= t
  {
    GuardarFicha(d, path, offset, buf, path);
    hide GuardarDatos, Sano, Faltan, Libres, Conocido;
    ConocidosTodos(d.archivos[path].tamanio, offset, |buf|);
  }

  lemma EmpalmeHueco(s: seq<Byte>, pos: nat, buf: seq<Byte>, k: nat)
    requires pos + |buf| <= |s| && k < pos
    ensures Empalme(s, pos, buf)[k..k + 1] == [s[k]]
  {
  }

  /** A byte between the old end and the start of the write reads as what its block held before. */
  lemma ByteDelHueco(d: Disco, path: string, offset: int, buf: seq<Byte>, k: nat)
    requires Sano(d) && CodigoGuardar(d, path, offset, |buf|) == 1
    requires path in d.archivos && d.archivos[path].tamanio <= k < offset
    ensures var r := GuardarDatos(d, path, offset, buf);
      var n := Faltan(d.sb, |d.archivos[path].bloques|, offset, |buf|);
      var antes := d.archivos[path].bloques + Asignar(d.bitmap, n).1;
      && Sano(r) && k / d.sb < |antes| && EnDisco(d.bloques, antes)
      && ObtenerDatos(r, path, k, 1) == Respuesta(1, [ByteEn(d.bloques, d.sb, antes, k)])
  {
    GuardarPlano(d, path, offset, buf, path);
    GuardarFicha(d, path, offset, buf, path);
    GuardarEs(d, path, offset, buf);
    var n := Faltan(d.sb, |d.archivos[path].bloques|, offset, |buf|);
    var r, nuevos := GuardarDatos(d, path, offset, buf), Asignar(d.bitmap, n).1;
    var antes := d.archivos[path].bloques + nuevos;
    assert ArchivoSano(d, d.archivos[path]);
    ContenidoConcat(d.bloques, d.sb, d.archivos[path].bloques, nuevos);
    hide GuardarDatos, Sano, Faltan, Asignar, Libres, Contenido, ByteEn;
    ContenidoEn(d.bloques, d.sb, antes, k);
    var s := Plano(d, path) + Contenido(d.bloques, d.sb, nuevos);
    EmpalmeHueco(s, offset, buf, k);
    hide Empalme;
  }

  /** One byte written past the start of a new file shows the byte the block kept from before the file existed. */
  lemma ByteViejo(d: Disco, path: string, v: Byte)
    requires Sano(d) && d.sb >= 2 && CrearArchivo(d, path).0
    ensures var e := CrearArchivo(d, path).1;
      && Sano(e) && CodigoGuardar(e, path, 1, 1) == 1 && Sano(GuardarDatos(e, path, 1, [v]))
      && ObtenerDatos(GuardarDatos(e, path, 1, [v]), path, 0, 1)
         == Respuesta(1, [d.bloques[PrimerLibre(d.bitmap, 0)][0]])
  {
    CrearSano(d, path);
    var e := CrearArchivo(d, path).1;
    assert Faltan(e.sb, 1, 1, 1) == 0;
    assert CodigoGuardar(e, path, 1, 1) == 1;
    ByteDelHueco(e, path, 1, [v], 0);
  }

  /** An empty disk: no files and every bit clear. */
  function Vacio(sb: nat, bloques: seq<seq<Byte>>): (d: Disco)
    requires Discos(bloques, sb)
    ensures Sano(d)
  {
    Disco(sb, map[], seq(|bloques|, _ => false), bloques)
  }
}
