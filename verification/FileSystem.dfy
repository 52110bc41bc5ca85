/** The file system server: metadata, bitmap and block files, updated in place by its requests. */
module FileSystem {
  import opened Bytes
  import opened Trozado
  import opened Archivos
  import opened Operaciones

  /** Looks for the first clear bit, from the left. */
  method PrimerBloqueLibre(miBit: array<bool>) returns (r: int)
    ensures r == PrimerLibre(miBit[..], 0)
  {
    var i := 0;
    while i < miBit.Length
      invariant 0 <= i <= miBit.Length
      invariant PrimerLibre(miBit[..], i) == PrimerLibre(miBit[..], 0)
    {
      if !miBit[i] {
        return i;
      }
      i := i + 1;
    }
    return -1;
  }

  method CantidadBloquesLibres(bitmap: array<bool>) returns (cantidad: nat)
    ensures cantidad == Libres(bitmap[..])
  {
    cantidad := 0;
    for i := 0 to bitmap.Length
      invariant cantidad == Libres(bitmap[..i])
    {
      if !bitmap[i] {
        cantidad := cantidad + 1;
      }
      assert bitmap[..i + 1][..i] == bitmap[..i];
    }
    assert bitmap[..bitmap.Length] == bitmap[..];
  }

  /** Clears the bits of a file's blocks. */
  method CleanBloques(bloques: seq<nat>, data: array<bool>)
    requires forall k :: 0 <= k < |bloques| ==> bloques[k] < data.Length
    modifies data
    ensures data[..] == Limpiar(old(data[..]), bloques)
  {
    for i := 0 to |bloques|
      invariant data[..] == Limpiar(old(data[..]), bloques[..i])
    {
      assert bloques[..i + 1][..i] == bloques[..i];
      data[bloques[i]] := false;
    }
    assert bloques[..|bloques|] == bloques;
  }

  /** Reads `size` bytes of a block file, one at a time. */
  method ReadFromBlock(bloque: seq<Byte>, offset: nat, size: nat) returns (data: seq<Byte>)
    requires offset + size <= |bloque|
    ensures data == bloque[offset..offset + size]
  {
    data := [];
    for i := 0 to size
      invariant data == bloque[offset..offset + i]
    {
      data := data + [bloque[offset + i]];
    }
  }

  /** Overwrites bytes of block file `b`, one at a time. */
  method WriteToBlock(bloques: array<seq<Byte>>, b: nat, offset: nat, buffer: seq<Byte>)
    requires b < bloques.Length && offset + |buffer| <= |bloques[b]|
    modifies bloques
    ensures bloques[..] == old(bloques[..])[b := Empalme(old(bloques[b]), offset, buffer)]
  {
    ghost var antes := bloques[b];
    assert Empalme(antes, offset, []) == antes;
    for i := 0 to |buffer|
      invariant bloques[..] == old(bloques[..])[b := Empalme(antes, offset, buffer[..i])]
    {
      EmpalmeIndices(antes, offset, buffer[..i]);
      EmpalmeIndices(antes, offset, buffer[..i + 1]);
      assert bloques[b] == Empalme(antes, offset, buffer[..i]);
      bloques[b] := bloques[b][offset + i := buffer[i]];
      assert bloques[b] == Empalme(antes, offset, buffer[..i + 1]);
    }
    assert buffer[..|buffer|] == buffer;
  }

  /** Takes `n` blocks for a file, always the first clear bit. */
  method AgregarBloques(bloques: seq<nat>, n: nat, bitmap: array<bool>) returns (r: seq<nat>)
    requires n <= Libres(bitmap[..])
    modifies bitmap
    ensures (bitmap[..], r) == (Asignar(old(bitmap[..]), n).0, bloques + Asignar(old(bitmap[..]), n).1)
  {
    hide PrimerLibre, Libres;
    r := bloques;
    ghost var total := Asignar(bitmap[..], n);
    assert bloques + total.1 == r + total.1;
    for i := 0 to n
      invariant n - i <= Libres(bitmap[..])
      invariant Asignar(bitmap[..], n - i).0 == total.0
      invariant r + Asignar(bitmap[..], n - i).1 == bloques + total.1
    {
      ghost var antes, hechos := bitmap[..], r;
      LibresPositivo(antes);
      var ubicacionBit := PrimerBloqueLibre(bitmap);
      LibresCambia(antes, ubicacionBit, true);
      r := r + [ubicacionBit];
      bitmap[ubicacionBit] := true;
      assert bitmap[..] == antes[ubicacionBit := true];
      assert hechos + ([ubicacionBit] + Asignar(bitmap[..], n - i - 1).1) == r + Asignar(bitmap[..], n - i - 1).1;
    }
    assert r + [] == r;
  }

  /** Only the closing mark carries its id. */
  lemma MarcaAlFinal(sb: nat, n: nat, aux: seq<Trozo>)
    requires |aux| > 0 && Caben(sb, n, aux[..|aux| - 1])
    ensures forall k :: 0 <= k < |aux| - 1 ==> aux[k].id != -1
  {
  }

  /** Writes the buffer piece by piece, up to the closing mark. */
  method EscribirTrozos(bloques: array<seq<Byte>>, sb: nat, ids: seq<nat>, buffer: seq<Byte>, aux: seq<Trozo>)
    requires Discos(bloques[..], sb) && EnDisco(bloques[..], ids)
    requires |aux| > 0 && aux[|aux| - 1].id == -1
    requires Caben(sb, |ids|, aux[..|aux| - 1]) && Suma(aux[..|aux| - 1]) == |buffer|
    modifies bloques
    ensures bloques[..] == EscribirEn(old(bloques[..]), sb, ids, aux[..|aux| - 1], buffer)
  {
    ghost var ts := aux[..|aux| - 1];
    MarcaAlFinal(sb, |ids|, aux);
    var writed := 0;
    var i := 0;
    assert ts[0..] == ts && buffer[0..] == buffer;
    while aux[i].id != -1
      invariant 0 <= i <= |ts| && 0 <= writed <= |buffer|
      invariant Discos(bloques[..], sb) && EnDisco(bloques[..], ids)
      invariant Caben(sb, |ids|, ts[i..]) && Suma(ts[i..]) == |buffer| - writed
      invariant EscribirEn(bloques[..], sb, ids, ts[i..], buffer[writed..])
             == EscribirEn(old(bloques[..]), sb, ids, ts, buffer)
      decreases |ts| - i
    {
      EscribirPaso(bloques[..], sb, ids, ts, i, buffer, writed);
      WriteToBlock(bloques, ids[aux[i].id], aux[i].offset, buffer[writed..writed + aux[i].size]);
      writed := writed + aux[i].size;
      i := i + 1;
    }
    assert buffer[writed..] == [] && ts[i..] == [];
  }

  /** The next piece, and what is left after writing it. */
  lemma EscribirPaso(bl: seq<seq<Byte>>, sb: nat, ids: seq<nat>, ts: seq<Trozo>, i: nat, buffer: seq<Byte>, w: nat)
    requires Discos(bl, sb) && EnDisco(bl, ids) && i < |ts| && w <= |buffer|
    requires Caben(sb, |ids|, ts[i..]) && Suma(ts[i..]) == |buffer| - w
    ensures var t := ts[i];
      && 0 < t.size && w + t.size <= |buffer| && 0 <= t.id < |ids| && ids[t.id] < |bl|
      && 0 <= t.offset && t.offset + t.size <= |bl[ids[t.id]]|
      && Caben(sb, |ids|, ts[i + 1..]) && Suma(ts[i + 1..]) == |buffer| - (w + t.size)
    ensures var t := ts[i];
      var r := bl[ids[t.id] := Empalme(bl[ids[t.id]], t.offset, buffer[w..w + t.size])];
      && Discos(r, sb) && EnDisco(r, ids)
      && EscribirEn(bl, sb, ids, ts[i..], buffer[w..]) == EscribirEn(r, sb, ids, ts[i + 1..], buffer[w + t.size..])
  {
    hide Empalme;
    var t := ts[i];
    assert ts[i..][0] == t && ts[i..][1..] == ts[i + 1..];
    CabenCola(sb, |ids|, ts[i..]);
    assert buffer[w..][..t.size] == buffer[w..w + t.size];
    assert buffer[w..][t.size..] == buffer[w + t.size..];
  }

  /** Reads the pieces one after the other, up to the closing mark. */
  method LeerTrozos(bloques: array<seq<Byte>>, sb: nat, ids: seq<nat>, aux: seq<Trozo>) returns (miDato: seq<Byte>)
    requires Discos(bloques[..], sb) && EnDisco(bloques[..], ids)
    requires |aux| > 0 && aux[|aux| - 1].id == -1 && Caben(sb, |ids|, aux[..|aux| - 1])
    ensures miDato == LeerEn(bloques[..], sb, ids, aux[..|aux| - 1])
  {
    ghost var ts, bl := aux[..|aux| - 1], bloques[..];
    MarcaAlFinal(sb, |ids|, aux);
    miDato := [];
    var i := 0;
    assert ts[0..] == ts;
    assert [] + LeerEn(bl, sb, ids, ts) == LeerEn(bl, sb, ids, ts);
    hide Caben, LeerEn, Discos;
    while aux[i].id != -1
      invariant 0 <= i <= |ts| && Caben(sb, |ids|, ts[i..])
      invariant miDato + LeerEn(bl, sb, ids, ts[i..]) == LeerEn(bl, sb, ids, ts)
      decreases |ts| - i
    {
      var readAux := ReadFromBlock(bloques[ids[aux[i].id]], aux[i].offset, aux[i].size);
      miDato := miDato + readAux;
      i := i + 1;
    }
    assert ts[i..] == [] && miDato + [] == miDato;
  }

  lemma NadaQueTomar(bm: seq<bool>, bloques: seq<nat>)
    ensures Asignar(bm, 0).0 == bm && bloques + Asignar(bm, 0).1 == bloques
  {
  }

  /** Walks to the closing mark and compares the last piece's block with the blocks the file has. */
  method BloquesNecesarios(aux: seq<Trozo>, sb: nat, offset: nat, size: int, cantidadElementos: nat) returns (n: int)
    requires sb > 0 && size > 0
    requires |aux| > 0 && aux[|aux| - 1].id == -1 && aux[..|aux| - 1] == Trozos(sb, offset, size)
    ensures Faltan(sb, cantidadElementos, offset, size) == if n > 0 then n else 0
  {
    UltimoTrozo(sb, offset, size);
    ghost var ts := Trozos(sb, offset, size);
    hide Trozos;
    assert forall k :: 0 <= k < |ts| ==> aux[k] == ts[k];
    var i := 0;
    while aux[i].id != -1
      invariant 0 <= i <= |ts|
      decreases |aux| - i
    {
      i := i + 1;
    }
    n := aux[i - 1].id + 1 - cantidadElementos;
  }

  class Fs {
    const sizeBloque: nat
    var archivos: map<string, Archivo>
    const bitmap: array<bool>
    const bloques: array<seq<Byte>>

    /** The whole state as a value. */
    function Vista(): Disco
      reads this, bitmap, bloques
    {
      Disco(sizeBloque, archivos, bitmap[..], bloques[..])
    }

    ghost predicate Valid()
      reads this, bitmap, bloques
    {
      Sano(Vista())
    }

    /** A fresh disk: every block file full of zeros, every bit clear, no files. */
    constructor (sizeBloque: nat, cantidadBloques: nat)
      requires sizeBloque > 0
      ensures Valid() && fresh(bitmap) && fresh(bloques) && this.sizeBloque == sizeBloque
      ensures bloques.Length == cantidadBloques
      ensures Vista() == Vacio(sizeBloque, seq(cantidadBloques, _ => seq(sizeBloque, _ => 0 as Byte)))
    {
      this.sizeBloque := sizeBloque;
      archivos := map[];
      bitmap := new bool[cantidadBloques](_ => false);
      bloques := new seq<Byte>[cantidadBloques](_ => seq(sizeBloque, _ => 0 as Byte));
      new;
      ghost var bl := seq(cantidadBloques, _ => seq(sizeBloque, _ => 0 as Byte));
      assert bloques[..] == bl;
      assert bitmap[..] == seq(|bl|, _ => false);
    }

    method CreateArchivo(path: string) returns (ok: bool)
      requires Valid()
      modifies this`archivos, bitmap
      ensures Valid()
      ensures (ok, Vista()) == old(CrearArchivo(Vista(), path))
    {
      CrearSano(Vista(), path);
      hide Sano;
      if path in archivos {
        return false;
      }
      var bloque := PrimerBloqueLibre(bitmap);
      if bloque == -1 {
        return false;
      }
      archivos := archivos[path := Archivo(0, [bloque])];
      bitmap[bloque] := true;
      return true;
    }

    method DeleteArchivo(path: string) returns (ok: bool)
      requires Valid()
      modifies this`archivos, bitmap
      ensures Valid()
      ensures (ok, Vista()) == old(BorrarArchivo(Vista(), path))
    {
      BorrarSano(Vista(), path);
      if path !in archivos {
        return false;
      }
      assert ArchivoSano(Vista(), archivos[path]);
      hide Sano;
      CleanBloques(archivos[path].bloques, bitmap);
      archivos := archivos - {path};
      return true;
    }

    /** On success `error` is 1 and `datos` the bytes of the range. */
    method ObtenerDatos(path: string, offset: int, size: int) returns (error: int, datos: seq<Byte>)
      requires Valid()
      ensures Respuesta(error, datos) == Operaciones.ObtenerDatos(Vista(), path, offset, size)
    {
      datos := [];
      if path !in archivos {
        return -FNF, datos;
      }
      if size < 1 {
        return -14, datos;
      }
      if offset < 0 {
        return -15, datos;
      }
      var archivo := archivos[path];
      assert ArchivoSano(Vista(), archivo);
      if archivo.tamanio - size - offset < 0 {
        return -16, datos;
      }
      hide Sano, Contenido;
      var aux := BlocksToProcess(sizeBloque, offset, size);
      LeerContenido(bloques[..], sizeBloque, archivo.bloques, offset, size);
      datos := LeerTrozos(bloques, sizeBloque, archivo.bloques, aux);
      error := 1;
    }

    method GuardarDatos(path: string, offset: int, size: int, buffer: seq<Byte>) returns (codigo: int)
      requires Valid() && (size >= 1 ==> |buffer| == size)
      modifies this`archivos, bitmap, bloques
      ensures Valid()
      ensures codigo == old(CodigoGuardar(Vista(), path, offset, size))
      ensures codigo != 1 ==> Vista() == old(Vista())
      ensures codigo == 1 ==> Vista() == old(Operaciones.GuardarDatos(Vista(), path, offset, buffer))
    {
      if path !in archivos {
        return -FNF;
      }
      if size < 1 {
        return -14;
      }
      if offset < 0 {
        return -15;
      }
      GuardarSano(Vista(), path, offset, buffer);
      var archivo := archivos[path];
      assert ArchivoSano(Vista(), archivo);
      var aux := BlocksToProcess(sizeBloque, offset, size);
      var bloquesNecesarios := BloquesNecesarios(aux, sizeBloque, offset, size, |archivo.bloques|);
      if bloquesNecesarios > 0 {
        var libres := CantidadBloquesLibres(bitmap);
        if libres < bloquesNecesarios {
          return -16;
        }
      }
      GuardarBloques(path, offset, buffer, aux, bloquesNecesarios);
      codigo := 1;
    }

    /** The part of `guardar_datos` after the checks: takes the blocks, writes the pieces and saves the metadata. */
    method GuardarBloques(path: string, offset: nat, buffer: seq<Byte>, aux: seq<Trozo>, bloquesNecesarios: int)
      requires Valid() && path in archivos && buffer != []
      requires CodigoGuardar(Vista(), path, offset, |buffer|) == 1
      requires |aux| > 0 && aux[|aux| - 1].id == -1 && aux[..|aux| - 1] == Trozos(sizeBloque, offset, |buffer|)
      requires Faltan(sizeBloque, |archivos[path].bloques|, offset, |buffer|)
          == (if bloquesNecesarios > 0 then bloquesNecesarios else 0)
      modifies this`archivos, bitmap, bloques
      ensures Vista() == old(Operaciones.GuardarDatos(Vista(), path, offset, buffer))
    {
      ghost var d := Vista();
      GuardarEs(d, path, offset, buffer);
      hide Sano, Escribir, EscribirEn, Faltan, Trozos, Libres, EnDisco, Asignar, Caben, Operaciones.GuardarDatos,
        Alcanza;
      var archivo := archivos[path];
      var tomados := archivo.bloques;
      NadaQueTomar(bitmap[..], archivo.bloques);
      if bloquesNecesarios > 0 {
        tomados := AgregarBloques(tomados, bloquesNecesarios, bitmap);
      }
      EscribirEnTrozos(bloques[..], sizeBloque, tomados, offset, buffer);
      EscribirTrozos(bloques, sizeBloque, tomados, buffer, aux);
      archivos := archivos[path := Archivo(Mayor(archivo.tamanio, offset + |buffer|), tomados)];
    }
  }
}
