/** Cutting a byte range of a file into pieces that each stay inside one block. */
module Trozado {
  import opened Bytes

  /** One piece: the position of the block in the file, where it starts inside the block, and its length. */
  datatype Trozo = Trozo(id: int, offset: int, size: int)

  function Menor(a: int, b: int): int {
    if a <= b then a else b
  }

  /** The pieces of `[offset, offset + size)`, left to right. */
  function Trozos(sb: nat, offset: nat, size: int): (r: seq<Trozo>)
    requires sb > 0
    ensures size > 0 <==> r != []
    decreases size
  {
    if size <= 0 then [] else
      var n := Menor(size, sb - offset % sb);
      [Trozo(offset / sb, offset % sb, n)] + Trozos(sb, offset + n, size - n)
  }

  /** The sizes of the pieces, added up. */
  function Suma(ts: seq<Trozo>): int {
    if ts == [] then 0 else ts[0].size + Suma(ts[1..])
  }

  /** Piece `k` is nonempty, stays inside the `k`-th block of the range, and starts where the earlier ones end. */
  predicate BienPuesto(ts: seq<Trozo>, sb: nat, offset: nat, k: nat)
    requires sb > 0 && k < |ts|
  {
    && ts[k].size > 0
    && 0 <= ts[k].offset && ts[k].offset + ts[k].size <= sb
    && ts[k].id == offset / sb + k
    && ts[k].id * sb + ts[k].offset == offset + Suma(ts[..k])
  }

  /** A list of pieces lays `[offset, offset + size)` out block after block, leaving nothing out. */
  predicate Embaldosa(ts: seq<Trozo>, sb: nat, offset: nat, size: int)
    requires sb > 0
  {
    && Suma(ts) == (if size > 0 then size else 0)
    && (forall k :: 0 <= k < |ts| ==> BienPuesto(ts, sb, offset, k))
  }

  lemma SumaCabeza(ts: seq<Trozo>, k: nat)
    requires k < |ts|
    ensures Suma(ts[..k + 1]) == ts[0].size + Suma(ts[1..][..k])
  {
    assert ts[..k + 1][1..] == ts[1..][..k];
  }

  /** Where the piece after a full one starts: at the head of the next block. */
  lemma SiguienteBloque(sb: nat, offset: nat, n: nat)
    requires sb > 0 && n == sb - offset % sb
    ensures (offset + n) / sb == offset / sb + 1 && (offset + n) % sb == 0
  {
    var q := offset / sb;
    assert offset + n == q * sb + sb == (q + 1) * sb;
    DivisionUnica(sb, offset + n, q + 1, 0);
  }

  /** The pieces lay out the range, and their ids are consecutive. */
  lemma {:induction false} TrozosEmbaldosan(sb: nat, offset: nat, size: int)
    requires sb > 0
    ensures Embaldosa(Trozos(sb, offset, size), sb, offset, size)
    decreases size
  {
    if size > 0 {
      var n := Menor(size, sb - offset % sb);
      TrozosEmbaldosan(sb, offset + n, size - n);
      var resto := Trozos(sb, offset + n, size - n);
      var ts := Trozos(sb, offset, size);
      assert ts[1..] == resto;
      forall k | 0 < k < |ts|
        ensures BienPuesto(ts, sb, offset, k)
      {
        SiguienteBloque(sb, offset, n);
        SumaCabeza(ts, k - 1);
        assert BienPuesto(resto, sb, offset + n, k - 1);
      }
    }
  }

  /** What follows the first piece is itself well placed, one piece on. */
  lemma RestoBienPuesto(ts: seq<Trozo>, sb: nat, offset: nat, k: nat)
    requires sb > 0 && k + 1 < |ts|
    requires BienPuesto(ts, sb, offset, 0) && BienPuesto(ts, sb, offset, 1) && BienPuesto(ts, sb, offset, k + 1)
    ensures BienPuesto(ts[1..], sb, offset + ts[0].size, k)
  {
    PrimeroLleno(ts, sb, offset);
    SiguienteBloque(sb, offset, ts[0].size);
    SumaCabeza(ts, k);
  }

  lemma RestoEmbaldosado(ts: seq<Trozo>, sb: nat, offset: nat, size: int)
    requires sb > 0 && Embaldosa(ts, sb, offset, size) && ts != []
    ensures ts[0].size > 0 && ts[0].size <= size
    ensures Embaldosa(ts[1..], sb, offset + ts[0].size, size - ts[0].size)
    ensures |ts| > 1 ==> ts[0].size < size
  {
    assert BienPuesto(ts, sb, offset, 0);
    var resto := ts[1..];
    if |ts| > 1 {
      assert BienPuesto(ts, sb, offset, 1);
    }
    forall k | 0 <= k < |resto|
      ensures BienPuesto(resto, sb, offset + ts[0].size, k)
      ensures resto[k].size > 0
    {
      assert BienPuesto(ts, sb, offset, k + 1);
      RestoBienPuesto(ts, sb, offset, k);
    }
    SumaPositiva(resto);
  }

  /** No other list of pieces lays the range out. */
  lemma {:induction false} EmbaldosadoUnico(ts: seq<Trozo>, sb: nat, offset: nat, size: int)
    requires sb > 0 && Embaldosa(ts, sb, offset, size)
    ensures ts == Trozos(sb, offset, size)
    decreases |ts|
  {
    if ts == [] {
    } else {
      RestoEmbaldosado(ts, sb, offset, size);
      EmbaldosadoUnico(ts[1..], sb, offset + ts[0].size, size - ts[0].size);
      PrimeroUnico(ts, sb, offset, size);
    }
  }

  lemma PrimeroUnico(ts: seq<Trozo>, sb: nat, offset: nat, size: int)
    requires sb > 0 && Embaldosa(ts, sb, offset, size) && ts != []
    ensures ts[0] == Trozo(offset / sb, offset % sb, Menor(size, sb - offset % sb))
  {
    assert BienPuesto(ts, sb, offset, 0);
    if |ts| > 1 {
      assert BienPuesto(ts, sb, offset, 1);
      PrimeroLleno(ts, sb, offset);
      RestoEmbaldosado(ts, sb, offset, size);
    } else {
      assert ts[1..] == [];
    }
  }

  lemma {:induction false} SumaPositiva(ts: seq<Trozo>)
    requires forall k :: 0 <= k < |ts| ==> ts[k].size > 0
    ensures Suma(ts) >= |ts|
  {
    if ts != [] {
      SumaPositiva(ts[1..]);
    }
  }

  /** Every piece but the last one reaches the end of its block. */
  lemma PrimeroLleno(ts: seq<Trozo>, sb: nat, offset: nat)
    requires sb > 0 && |ts| > 1
    requires BienPuesto(ts, sb, offset, 0) && BienPuesto(ts, sb, offset, 1)
    ensures ts[0].size == sb - offset % sb
  {
    SumaCabeza(ts, 0);
    assert (offset / sb + 1) * sb == offset / sb * sb + sb;
  }

  /** The number of block heads at or before `offset`, found by stepping over them. */
  method BloqueOffset(offset: int, sizeBloque: nat) returns (i: int)
    requires sizeBloque > 0
    ensures offset < 0 ==> i == 0
    ensures 0 <= offset ==> (i - 1) * sizeBloque <= offset < i * sizeBloque && i >= 1
    ensures 0 <= offset ==> i == offset / sizeBloque + 1
  {
    i := 0;
    while sizeBloque * i <= offset
      invariant 0 <= i
      invariant i > 0 ==> sizeBloque * (i - 1) <= offset
      decreases offset - sizeBloque * i
    {
      i := i + 1;
    }
    if 0 <= offset {
      assert offset == (i - 1) * sizeBloque + (offset - (i - 1) * sizeBloque);
      DivisionUnica(sizeBloque, offset, i - 1, offset - (i - 1) * sizeBloque);
    }
  }

  lemma Desplazamiento(sb: nat, x: nat)
    requires sb > 0
    ensures x - x / sb * sb == x % sb
  {
  }

  lemma TrozosPaso(r: seq<Trozo>, sb: nat, offset: nat, size: int, n: int)
    requires sb > 0 && 0 < size && n == Menor(size, sb - offset % sb)
    ensures r + Trozos(sb, offset, size)
         == r + [Trozo(offset / sb, offset % sb, n)] + Trozos(sb, offset + n, size - n)
  {
  }

  /** The pieces in order, closed by one more whose id is -1. */
  method BlocksToProcess(sizeBloque: nat, offset: nat, size: int) returns (arrayBloques: seq<Trozo>)
    requires sizeBloque > 0
    ensures |arrayBloques| > 0 && arrayBloques[|arrayBloques| - 1].id == -1
    ensures arrayBloques[..|arrayBloques| - 1] == Trozos(sizeBloque, offset, size)
  {
    hide Trozos;
    arrayBloques := [];
    var bytesProcess := 0;
    assert arrayBloques + Trozos(sizeBloque, offset, size) == Trozos(sizeBloque, offset, size);
    while bytesProcess < size
      invariant 0 <= bytesProcess && (0 < size ==> bytesProcess <= size)
      invariant bytesProcess > 0 && size + offset % sizeBloque <= sizeBloque ==> bytesProcess == size
      invariant arrayBloques + Trozos(sizeBloque, offset + bytesProcess, size - bytesProcess)
             == Trozos(sizeBloque, offset, size)
    {
      var partialSize := 0;
      TrozosPaso(arrayBloques, sizeBloque, offset + bytesProcess, size - bytesProcess,
                 Menor(size - bytesProcess, sizeBloque - (offset + bytesProcess) % sizeBloque));
      var idBloque := BloqueOffset(offset, sizeBloque);
      idBloque := idBloque - 1;
      var actualOffset := offset - idBloque * sizeBloque;
      Desplazamiento(sizeBloque, offset);
      if size + actualOffset <= sizeBloque {
        arrayBloques := arrayBloques + [Trozo(idBloque, actualOffset, size)];
        partialSize := partialSize + size;
      } else {
        var idBloque := BloqueOffset(offset + bytesProcess, sizeBloque);
        idBloque := idBloque - 1;
        var actualOffset := offset + bytesProcess - idBloque * sizeBloque;
        Desplazamiento(sizeBloque, offset + bytesProcess);
        var n := if size - bytesProcess <= sizeBloque - actualOffset then size - bytesProcess
                 else sizeBloque - actualOffset;
        arrayBloques := arrayBloques + [Trozo(idBloque, actualOffset, n)];
        partialSize := n;
      }
      bytesProcess := bytesProcess + partialSize;
    }
    var centinela: Trozo := *;
    ghost var todos := arrayBloques;
    assert todos + [] == todos;
    arrayBloques := arrayBloques + [centinela.(id := -1)];
    assert arrayBloques[..|arrayBloques| - 1] == todos;
  }

  /** No piece has the closing mark's id, and the last one holds the last byte. */
  lemma {:induction false} UltimoTrozo(sb: nat, offset: nat, size: int)
    requires sb > 0 && size > 0
    ensures var ts := Trozos(sb, offset, size);
      ts[|ts| - 1].id == (offset + size - 1) / sb && forall k :: 0 <= k < |ts| ==> ts[k].id != -1
    decreases size
  {
    var n := Menor(size, sb - offset % sb);
    var ts, resto := Trozos(sb, offset, size), Trozos(sb, offset + n, size - n);
    assert ts == [Trozo(offset / sb, offset % sb, n)] + resto;
    if n < size {
      UltimoTrozo(sb, offset + n, size - n);
      assert ts[|ts| - 1] == resto[|resto| - 1];
    } else {
      MismoBloque(sb, offset, size - 1);
    }
  }

  /** Moving inside a block. */
  lemma MismoBloque(sb: nat, offset: nat, k: nat)
    requires sb > 0 && k < sb - offset % sb
    ensures (offset + k) / sb == offset / sb && (offset + k) % sb == offset % sb + k
  {
    assert offset + k == offset / sb * sb + (offset % sb + k);
    DivisionUnica(sb, offset + k, offset / sb, offset % sb + k);
  }
}
