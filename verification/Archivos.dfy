/** The file system on values: files own blocks of a bitmap, and bytes move through pieces of blocks. */
module Archivos {
  import opened Bytes
  import opened Listas
  import opened Trozado

  /** What a file's metadata says. */
  datatype Archivo = Archivo(tamanio: nat, bloques: seq<nat>)

  /** `bloques[b]` is the content of the file that holds block `b`. */
  datatype Disco = Disco(sb: nat, archivos: map<string, Archivo>, bitmap: seq<bool>, bloques: seq<seq<Byte>>)

  const FNF := 20

  // ---------------------------------------------------------------- bitmap

  /** The first clear bit from `i` on, or -1. */
  function PrimerLibre(bm: seq<bool>, i: nat): (r: int)
    requires i <= |bm|
    ensures r == -1 <==> forall k :: i <= k < |bm| ==> bm[k]
    ensures r != -1 ==> i <= r < |bm| && !bm[r] && forall k :: i <= k < r ==> bm[k]
    decreases |bm| - i
  {
    if i == |bm| then -1 else if !bm[i] then i else PrimerLibre(bm, i + 1)
  }

  function Libres(bm: seq<bool>): (n: nat) {
    if bm == [] then 0 else Libres(bm[..|bm| - 1]) + if bm[|bm| - 1] then 0 else 1
  }

  lemma {:induction false} LibresCambia(bm: seq<bool>, b: nat, v: bool)
    requires b < |bm|
    ensures Libres(bm[b := v]) == Libres(bm) + (if bm[b] then 1 else 0) - (if v then 1 else 0)
  {
    var n := |bm| - 1;
    if b < n {
      assert bm[b := v][..n] == bm[..n][b := v];
      LibresCambia(bm[..n], b, v);
    } else {
      assert bm[b := v][..n] == bm[..n];
    }
  }

  /** A positive count means the search finds a bit. */
  lemma {:induction false} LibresPositivo(bm: seq<bool>)
    ensures Libres(bm) > 0 <==> PrimerLibre(bm, 0) != -1
  {
    if bm != [] {
      var n := |bm| - 1;
      LibresPositivo(bm[..n]);
      if PrimerLibre(bm[..n], 0) != -1 {
        assert !bm[PrimerLibre(bm[..n], 0)];
      } else {
        assert forall k :: 0 <= k < n ==> bm[k] == bm[..n][k];
      }
    }
  }

  /** The bitmap and the blocks taken after `n` times taking the first clear bit. */
  function Asignar(bm: seq<bool>, n: nat): (r: (seq<bool>, seq<nat>))
    requires n <= Libres(bm)
    decreases n
  {
    if n == 0 then (bm, []) else
      LibresPositivo(bm);
      var b := PrimerLibre(bm, 0);
      LibresCambia(bm, b, true);
      var resto := Asignar(bm[b := true], n - 1);
      (resto.0, [b] + resto.1)
  }

  /** The taken blocks are distinct and were clear, and no other bit changes. */
  lemma {:induction false} AsignarNuevos(bm: seq<bool>, n: nat)
    requires n <= Libres(bm)
    ensures var r := Asignar(bm, n);
            && |r.0| == |bm| && |r.1| == n && SinRepetidos(r.1)
            && (forall k :: 0 <= k < n ==> r.1[k] < |bm| && !bm[r.1[k]])
            && (forall b :: 0 <= b < |bm| ==> (r.0[b] <==> bm[b] || b in r.1))
            && Libres(r.0) == Libres(bm) - n
    decreases n
  {
    if n > 0 {
      LibresPositivo(bm);
      var b := PrimerLibre(bm, 0);
      LibresCambia(bm, b, true);
      AsignarNuevos(bm[b := true], n - 1);
      var r, q := Asignar(bm, n), Asignar(bm[b := true], n - 1);
      assert r.1 == [b] + q.1;
      forall k | 0 <= k < n
        ensures r.1[k] < |bm| && !bm[r.1[k]]
        ensures k > 0 ==> r.1[k] != b && r.1[k] == q.1[k - 1]
      {
      }
      forall c | 0 <= c < |bm|
        ensures r.0[c] <==> bm[c] || c in r.1
      {
        assert c in r.1 <==> c == b || c in q.1;
      }
    }
  }

  /** In increasing order, and below every bit left clear. */
  predicate MasBajos(bs: seq<nat>, bm: seq<bool>) {
    && (forall i, j :: 0 <= i < j < |bs| ==> bs[i] < bs[j])
    && (forall k, b :: 0 <= k < |bs| && 0 <= b < |bm| && !bm[b] ==> bs[k] < b)
  }

  /** The taken blocks were clear, and set bits stay set. */
  predicate Tomados(bm: seq<bool>, bs: seq<nat>, r: seq<bool>) {
    && |r| == |bm|
    && (forall k :: 0 <= k < |bs| ==> bs[k] < |bm| && !bm[bs[k]])
    && (forall j :: 0 <= j < |bm| && bm[j] ==> r[j])
  }

  lemma AsignarTomados(bm: seq<bool>, n: nat)
    requires n <= Libres(bm)
    ensures Tomados(bm, Asignar(bm, n).1, Asignar(bm, n).0)
  {
    hide Asignar, Libres, SinRepetidos;
    AsignarNuevos(bm, n);
  }

  lemma UnoMasBajo(bm: seq<bool>, b: nat, bs: seq<nat>, r: seq<bool>)
    requires b < |bm| && !bm[b] && forall j :: 0 <= j < b ==> bm[j]
    requires Tomados(bm[b := true], bs, r) && MasBajos(bs, r)
    ensures MasBajos([b] + bs, r)
  {
    var t := bm[b := true];
    forall k | 0 <= k < |bs|
      ensures b < bs[k]
    {
      assert !t[bs[k]] && t[b];
    }
    forall j | 0 <= j < |r| && !r[j]
      ensures b < j
    {
      assert !t[j];
    }
  }

  /** One block taken, and the rest. */
  lemma AsignarPaso(bm: seq<bool>, n: nat) returns (b: nat)
    requires 0 < n <= Libres(bm)
    ensures b < |bm| && !bm[b] && (forall j :: 0 <= j < b ==> bm[j]) && n - 1 <= Libres(bm[b := true])
    ensures var q := Asignar(bm[b := true], n - 1);
      Asignar(bm, n) == (q.0, [b] + q.1)
  {
    LibresPositivo(bm);
    b := PrimerLibre(bm, 0);
    LibresCambia(bm, b, true);
  }

  /** The taken blocks are the lowest clear ones, taken in increasing order. */
  lemma {:induction false} AsignarMenores(bm: seq<bool>, n: nat)
    requires n <= Libres(bm)
    ensures MasBajos(Asignar(bm, n).1, Asignar(bm, n).0)
    decreases n
  {
    if n > 0 {
      hide Asignar, Libres, MasBajos, Tomados;
      var b := AsignarPaso(bm, n);
      var t := bm[b := true];
      AsignarTomados(t, n - 1);
      AsignarMenores(t, n - 1);
      var q := Asignar(t, n - 1);
      UnoMasBajo(bm, b, q.1, q.0);
    }
  }

  /** `bm` with the bits of `bs` cleared, left to right. */
  function Limpiar(bm: seq<bool>, bs: seq<nat>): (r: seq<bool>)
    requires forall k :: 0 <= k < |bs| ==> bs[k] < |bm|
    ensures |r| == |bm|
    ensures forall b :: 0 <= b < |bm| ==> (r[b] <==> bm[b] && b !in bs)
  {
    if bs == [] then bm else Limpiar(bm, bs[..|bs| - 1])[bs[|bs| - 1] := false]
  }

  /** Clearing distinct set bits gives that many back. */
  lemma {:induction false} LimpiarLibres(bm: seq<bool>, bs: seq<nat>)
    requires SinRepetidos(bs)
    requires forall k :: 0 <= k < |bs| ==> bs[k] < |bm| && bm[bs[k]]
    ensures Libres(Limpiar(bm, bs)) == Libres(bm) + |bs|
  {
    if bs != [] {
      var n := |bs| - 1;
      LimpiarLibres(bm, bs[..n]);
      LibresCambia(Limpiar(bm, bs[..n]), bs[n], false);
    }
  }

  // ---------------------------------------------------------------- bytes

  predicate Discos(bl: seq<seq<Byte>>, sb: nat) {
    sb > 0 && forall b :: 0 <= b < |bl| ==> |bl[b]| == sb
  }

  predicate EnDisco(bl: seq<seq<Byte>>, ids: seq<nat>) {
    forall k :: 0 <= k < |ids| ==> ids[k] < |bl|
  }

  /** Byte `p` of the file whose blocks are `ids`. */
  function ByteEn(bl: seq<seq<Byte>>, sb: nat, ids: seq<nat>, p: nat): (r: Byte)
    requires Discos(bl, sb) && EnDisco(bl, ids) && p / sb < |ids|
  {
    bl[ids[p / sb]][p % sb]
  }

  lemma EnBloque(sb: nat, n: nat, p: nat)
    requires sb > 0 && p < n * sb
    ensures p / sb < n
  {
  }

  /** Everything the blocks of a file hold, in file order: its flat array of bytes. */
  function Contenido(bl: seq<seq<Byte>>, sb: nat, ids: seq<nat>): (r: seq<Byte>)
    requires Discos(bl, sb) && EnDisco(bl, ids)
    ensures |r| == |ids| * sb
  {
    seq(|ids| * sb, p requires 0 <= p < |ids| * sb => ByteDelPlano(bl, sb, ids, p))
  }

  function ByteDelPlano(bl: seq<seq<Byte>>, sb: nat, ids: seq<nat>, p: nat): (r: Byte)
    requires Discos(bl, sb) && EnDisco(bl, ids) && p < |ids| * sb
  {
    EnBloque(sb, |ids|, p);
    ByteEn(bl, sb, ids, p)
  }

  lemma ContenidoEn(bl: seq<seq<Byte>>, sb: nat, ids: seq<nat>, p: nat)
    requires Discos(bl, sb) && EnDisco(bl, ids) && p < |ids| * sb
    ensures p / sb < |ids| && Contenido(bl, sb, ids)[p] == ByteEn(bl, sb, ids, p)
  {
    EnBloque(sb, |ids|, p);
    assert ByteDelPlano(bl, sb, ids, p) == ByteEn(bl, sb, ids, p);
    hide ByteEn, ByteDelPlano, Discos, EnDisco;
  }

  /** The pieces of `[offset, offset + size)` fall on blocks the file has. */
  predicate Alcanza(sb: nat, n: nat, offset: nat, size: nat) {
    offset + size <= n * sb
  }

  /** Copies the buffer to the pieces, one after the other. */
  function Escribir(bl: seq<seq<Byte>>, sb: nat, ids: seq<nat>, offset: nat, buf: seq<Byte>): (r: seq<seq<Byte>>)
    requires Discos(bl, sb) && EnDisco(bl, ids) && Alcanza(sb, |ids|, offset, |buf|)
    ensures Discos(r, sb) && |r| == |bl|
    decreases |buf|
  {
    if buf == [] then bl else
      var n := Menor(|buf|, sb - offset % sb);
      Escribir(EscribirUno(bl, sb, ids, offset, buf[..n]), sb, ids, offset + n, buf[n..])
  }

  /** Copies a buffer that fits in the block `offset` falls on. */
  function EscribirUno(bl: seq<seq<Byte>>, sb: nat, ids: seq<nat>, offset: nat, buf: seq<Byte>): (r: seq<seq<Byte>>)
    requires Discos(bl, sb) && EnDisco(bl, ids) && Alcanza(sb, |ids|, offset, |buf|)
    requires 0 < |buf| <= sb - offset % sb
    ensures Discos(r, sb) && |r| == |bl|
  {
    EnBloque(sb, |ids|, offset);
    var b := ids[offset / sb];
    bl[b := Empalme(bl[b], offset % sb, buf)]
  }

  /** The bytes of a piece are those of its block between its two ends. */
  lemma EnPieza(sb: nat, offset: nat, n: nat, p: nat)
    requires sb > 0 && n <= sb - offset % sb
    ensures offset <= p < offset + n
       <==> p / sb == offset / sb && offset % sb <= p % sb < offset % sb + n
    ensures p / sb == offset / sb ==> p - offset == p % sb - offset % sb
  {
    var q, q0 := p / sb, offset / sb;
    assert p == q * sb + p % sb && offset == q0 * sb + offset % sb;
    if q < q0 {
      UnoMas(q, q0, sb);
    } else if q0 < q {
      UnoMas(q0, q, sb);
    }
  }

  lemma ByteTrasUno(bl: seq<seq<Byte>>, sb: nat, ids: seq<nat>, offset: nat, buf: seq<Byte>, p: nat)
    requires Discos(bl, sb) && EnDisco(bl, ids) && Alcanza(sb, |ids|, offset, |buf|)
    requires 0 < |buf| <= sb - offset % sb && SinRepetidos(ids) && p / sb < |ids|
    ensures ByteEn(EscribirUno(bl, sb, ids, offset, buf), sb, ids, p)
         == if p / sb == offset / sb && offset % sb <= p % sb < offset % sb + |buf|
            then buf[p % sb - offset % sb] else ByteEn(bl, sb, ids, p)
  {
    EnBloque(sb, |ids|, offset);
    BloqueTocado(bl, ids, p / sb, offset / sb, sb, offset % sb, buf, p % sb);
  }

  /** One piece changes just its own bytes of the file. */
  lemma EscribirUnoByte(bl: seq<seq<Byte>>, sb: nat, ids: seq<nat>, offset: nat, buf: seq<Byte>, p: nat)
    requires Discos(bl, sb) && EnDisco(bl, ids) && Alcanza(sb, |ids|, offset, |buf|)
    requires 0 < |buf| <= sb - offset % sb && SinRepetidos(ids) && p / sb < |ids|
    ensures ByteEn(EscribirUno(bl, sb, ids, offset, buf), sb, ids, p)
         == if offset <= p < offset + |buf| then buf[p - offset] else ByteEn(bl, sb, ids, p)
  {
    ByteTrasUno(bl, sb, ids, offset, buf, p);
    hide ByteEn, EscribirUno;
    EnPieza(sb, offset, |buf|, p);
  }

  lemma BloqueTocado(bl: seq<seq<Byte>>, ids: seq<nat>, q: nat, q0: nat, sb: nat, r0: nat, buf: seq<Byte>, r: nat)
    requires Discos(bl, sb) && EnDisco(bl, ids) && SinRepetidos(ids)
    requires q < |ids| && q0 < |ids| && r0 + |buf| <= sb && r < sb
    ensures bl[ids[q0] := Empalme(bl[ids[q0]], r0, buf)][ids[q]][r]
         == if q == q0 && r0 <= r < r0 + |buf| then buf[r - r0] else bl[ids[q]][r]
  {
  }

  /** Writing through pieces is splicing the flat array. */
  lemma {:induction false} EscribirByte(bl: seq<seq<Byte>>, sb: nat, ids: seq<nat>, offset: nat, buf: seq<Byte>, p: nat)
    requires Discos(bl, sb) && EnDisco(bl, ids) && Alcanza(sb, |ids|, offset, |buf|)
    requires SinRepetidos(ids) && p / sb < |ids|
    ensures ByteEn(Escribir(bl, sb, ids, offset, buf), sb, ids, p)
         == if offset <= p < offset + |buf| then buf[p - offset] else ByteEn(bl, sb, ids, p)
    decreases |buf|
  {
    hide ByteEn, EscribirUno;
    if buf != [] {
      var n := Menor(|buf|, sb - offset % sb);
      EscribirUnoByte(bl, sb, ids, offset, buf[..n], p);
      EscribirByte(EscribirUno(bl, sb, ids, offset, buf[..n]), sb, ids, offset + n, buf[n..], p);
    }
  }

  lemma EscribirContenido(bl: seq<seq<Byte>>, sb: nat, ids: seq<nat>, offset: nat, buf: seq<Byte>)
    requires Discos(bl, sb) && EnDisco(bl, ids) && Alcanza(sb, |ids|, offset, |buf|) && SinRepetidos(ids)
    ensures Contenido(Escribir(bl, sb, ids, offset, buf), sb, ids) == Empalme(Contenido(bl, sb, ids), offset, buf)
  {
    hide Escribir, ByteEn, Empalme, Contenido;
    var antes := Contenido(bl, sb, ids);
    EmpalmeIndices(antes, offset, buf);
    forall p | 0 <= p < |antes|
      ensures Contenido(Escribir(bl, sb, ids, offset, buf), sb, ids)[p] == Empalme(antes, offset, buf)[p]
    {
      ContenidoEn(bl, sb, ids, p);
      ContenidoEn(Escribir(bl, sb, ids, offset, buf), sb, ids, p);
      EscribirByte(bl, sb, ids, offset, buf, p);
    }
  }

  lemma EscribirUnoAjeno(bl: seq<seq<Byte>>, sb: nat, ids: seq<nat>, offset: nat, buf: seq<Byte>, b: nat)
    requires Discos(bl, sb) && EnDisco(bl, ids) && Alcanza(sb, |ids|, offset, |buf|)
    requires 0 < |buf| <= sb - offset % sb && b < |bl| && b !in ids
    ensures EscribirUno(bl, sb, ids, offset, buf)[b] == bl[b]
  {
    hide Empalme;
    EnBloque(sb, |ids|, offset);
  }

  /** Blocks outside the list keep their bytes. */
  lemma {:induction false} EscribirAjeno(bl: seq<seq<Byte>>, sb: nat, ids: seq<nat>, offset: nat, buf: seq<Byte>,
      b: nat)
    requires Discos(bl, sb) && EnDisco(bl, ids) && Alcanza(sb, |ids|, offset, |buf|)
    requires b < |bl| && b !in ids
    ensures Escribir(bl, sb, ids, offset, buf)[b] == bl[b]
    decreases |buf|
  {
    hide EscribirUno;
    if buf != [] {
      var n := Menor(|buf|, sb - offset % sb);
      EscribirUnoAjeno(bl, sb, ids, offset, buf[..n], b);
      EscribirAjeno(EscribirUno(bl, sb, ids, offset, buf[..n]), sb, ids, offset + n, buf[n..], b);
    }
  }

  lemma ByteAjeno(bl: seq<seq<Byte>>, sb: nat, ids: seq<nat>, offset: nat, buf: seq<Byte>, otros: seq<nat>, p: nat)
    requires Discos(bl, sb) && EnDisco(bl, ids) && Alcanza(sb, |ids|, offset, |buf|)
    requires EnDisco(bl, otros) && p / sb < |otros| && otros[p / sb] !in ids
    ensures ByteEn(Escribir(bl, sb, ids, offset, buf), sb, otros, p) == ByteEn(bl, sb, otros, p)
  {
    hide Escribir;
    EscribirAjeno(bl, sb, ids, offset, buf, otros[p / sb]);
  }

  lemma ContenidoAjeno(bl: seq<seq<Byte>>, sb: nat, ids: seq<nat>, offset: nat, buf: seq<Byte>, otros: seq<nat>)
    requires Discos(bl, sb) && EnDisco(bl, ids) && Alcanza(sb, |ids|, offset, |buf|)
    requires EnDisco(bl, otros) && forall k :: 0 <= k < |otros| ==> otros[k] !in ids
    ensures Contenido(Escribir(bl, sb, ids, offset, buf), sb, otros) == Contenido(bl, sb, otros)
  {
    hide Escribir, Contenido, ByteEn;
    var r := Escribir(bl, sb, ids, offset, buf);
    forall p | 0 <= p < |otros| * sb
      ensures Contenido(r, sb, otros)[p] == Contenido(bl, sb, otros)[p]
    {
      ContenidoEn(bl, sb, otros, p);
      ContenidoEn(r, sb, otros, p);
      ByteAjeno(bl, sb, ids, offset, buf, otros, p);
    }
  }

  lemma LeerUno(bl: seq<seq<Byte>>, sb: nat, ids: seq<nat>, offset: nat, n: nat)
    requires Discos(bl, sb) && EnDisco(bl, ids) && Alcanza(sb, |ids|, offset, n) && 0 < n <= sb - offset % sb
    ensures offset / sb < |ids|
    ensures bl[ids[offset / sb]][offset % sb..offset % sb + n] == Contenido(bl, sb, ids)[offset..offset + n]
  {
    EnBloque(sb, |ids|, offset);
    var c, d := bl[ids[offset / sb]][offset % sb..offset % sb + n], Contenido(bl, sb, ids)[offset..offset + n];
    hide Contenido;
    forall k | 0 <= k < n
      ensures c[k] == d[k]
    {
      ContenidoEn(bl, sb, ids, offset + k);
      MismoBloque(sb, offset, k);
    }
  }

  // ---------------------------------------------------------------- lists of pieces

  /** Every piece of a list stays inside a block of the file. */
  predicate Caben(sb: nat, n: nat, ts: seq<Trozo>) {
    forall k :: 0 <= k < |ts| ==>
      0 <= ts[k].id < n && 0 <= ts[k].offset && ts[k].size > 0 && ts[k].offset + ts[k].size <= sb
  }

  lemma CabenCola(sb: nat, n: nat, ts: seq<Trozo>)
    requires Caben(sb, n, ts) && ts != []
    ensures Caben(sb, n, ts[1..]) && Suma(ts[1..]) >= 0
  {
    SumaPositiva(ts[1..]);
  }

  function EscribirEn(bl: seq<seq<Byte>>, sb: nat, ids: seq<nat>, ts: seq<Trozo>, buf: seq<Byte>): (r: seq<seq<Byte>>)
    requires Discos(bl, sb) && EnDisco(bl, ids) && Caben(sb, |ids|, ts) && Suma(ts) == |buf|
    decreases |ts|
  {
    if ts == [] then bl else
      CabenCola(sb, |ids|, ts);
      EscribirEn(EscribirTrozo(bl, sb, ids, ts[0], buf[..ts[0].size]), sb, ids, ts[1..], buf[ts[0].size..])
  }

  function EscribirTrozo(bl: seq<seq<Byte>>, sb: nat, ids: seq<nat>, t: Trozo, buf: seq<Byte>): (r: seq<seq<Byte>>)
    requires Discos(bl, sb) && EnDisco(bl, ids) && Caben(sb, |ids|, [t]) && |buf| == t.size
    ensures Discos(r, sb) && |r| == |bl|
  {
    assert [t][0] == t;
    bl[ids[t.id] := Empalme(bl[ids[t.id]], t.offset, buf)]
  }

  function LeerEn(bl: seq<seq<Byte>>, sb: nat, ids: seq<nat>, ts: seq<Trozo>): (r: seq<Byte>)
    requires Discos(bl, sb) && EnDisco(bl, ids) && Caben(sb, |ids|, ts)
    decreases |ts|
  {
    if ts == [] then [] else
      CabenCola(sb, |ids|, ts);
      bl[ids[ts[0].id]][ts[0].offset..ts[0].offset + ts[0].size] + LeerEn(bl, sb, ids, ts[1..])
  }

  lemma CabenCons(sb: nat, n: nat, t: Trozo, ts: seq<Trozo>)
    requires 0 <= t.id < n && 0 <= t.offset && t.size > 0 && t.offset + t.size <= sb && Caben(sb, n, ts)
    ensures Caben(sb, n, [t] + ts) && Suma([t] + ts) == t.size + Suma(ts)
  {
  }

  /** The pieces of a range inside the file stay inside its blocks. */
  lemma {:induction false} TrozosCaben(sb: nat, n: nat, offset: nat, size: nat)
    requires sb > 0 && Alcanza(sb, n, offset, size)
    ensures Caben(sb, n, Trozos(sb, offset, size)) && Suma(Trozos(sb, offset, size)) == size
    decreases size
  {
    hide Caben, Suma;
    if size > 0 {
      var k := Menor(size, sb - offset % sb);
      EnBloque(sb, n, offset);
      TrozosCaben(sb, n, offset + k, size - k);
      CabenCons(sb, n, Trozo(offset / sb, offset % sb, k), Trozos(sb, offset + k, size - k));
    } else {
      SinPiezas(sb, n);
    }
  }

  lemma SinPiezas(sb: nat, n: nat)
    ensures Caben(sb, n, []) && Suma([]) == 0
  {
  }

  lemma {:induction false} EscribirEnTrozos(bl: seq<seq<Byte>>, sb: nat, ids: seq<nat>, offset: nat, buf: seq<Byte>)
    requires Discos(bl, sb) && EnDisco(bl, ids) && Alcanza(sb, |ids|, offset, |buf|)
    ensures Caben(sb, |ids|, Trozos(sb, offset, |buf|)) && Suma(Trozos(sb, offset, |buf|)) == |buf|
    ensures EscribirEn(bl, sb, ids, Trozos(sb, offset, |buf|), buf) == Escribir(bl, sb, ids, offset, buf)
    decreases |buf|
  {
    hide Caben, EscribirUno, EscribirTrozo, Suma;
    TrozosCaben(sb, |ids|, offset, |buf|);
    if buf != [] {
      var n := Menor(|buf|, sb - offset % sb);
      var ts := Trozos(sb, offset, |buf|);
      hide Trozos;
      TrozoEsUno(bl, sb, ids, offset, buf[..n], ts[0]);
      EscribirEnTrozos(EscribirUno(bl, sb, ids, offset, buf[..n]), sb, ids, offset + n, buf[n..]);
    }
  }

  lemma TrozoEsUno(bl: seq<seq<Byte>>, sb: nat, ids: seq<nat>, offset: nat, buf: seq<Byte>, t: Trozo)
    requires Discos(bl, sb) && EnDisco(bl, ids) && Alcanza(sb, |ids|, offset, |buf|)
    requires 0 < |buf| <= sb - offset % sb && t == Trozo(offset / sb, offset % sb, |buf|)
    ensures Caben(sb, |ids|, [t])
    ensures EscribirTrozo(bl, sb, ids, t, buf) == EscribirUno(bl, sb, ids, offset, buf)
  {
    EnBloque(sb, |ids|, offset);
  }

  /** Reading through pieces is reading the flat array. */
  lemma {:induction false} LeerContenido(bl: seq<seq<Byte>>, sb: nat, ids: seq<nat>, offset: nat, size: nat)
    requires Discos(bl, sb) && EnDisco(bl, ids) && Alcanza(sb, |ids|, offset, size)
    ensures Caben(sb, |ids|, Trozos(sb, offset, size))
    ensures LeerEn(bl, sb, ids, Trozos(sb, offset, size)) == Contenido(bl, sb, ids)[offset..offset + size]
    decreases size
  {
    hide ByteEn, Contenido, Caben;
    TrozosCaben(sb, |ids|, offset, size);
    if size > 0 {
      hide Trozos;
      var n := Menor(size, sb - offset % sb);
      LeerUno(bl, sb, ids, offset, n);
      LeerContenido(bl, sb, ids, offset + n, size - n);
    }
  }
}
