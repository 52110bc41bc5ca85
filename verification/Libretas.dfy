/** Whole runs of the file system, against notes a client keeps from its own requests. */
module Libretas {
  import opened Bytes
  import opened Archivos
  import opened Operaciones

  datatype Orden =
    | Crear(path: string)
    | Borrar(path: string)
    | Guardar(path: string, offset: int, datos: seq<Byte>)
    | Obtener(path: string, offset: int, size: int)

  function Hacer(d: Disco, o: Orden): (r: Disco)
    requires Sano(d)
    ensures Sano(r) && r.sb == d.sb
  {
    match o
    case Crear(p) => CrearSano(d, p); CrearArchivo(d, p).1
    case Borrar(p) => BorrarSano(d, p); BorrarArchivo(d, p).1
    case Guardar(p, off, b) => GuardarSano(d, p, off, b); GuardarDatos(d, p, off, b)
    case Obtener(_, _, _) => d
  }

  /** What a run leaves. */
  function Corrida(d: Disco, os: seq<Orden>): (r: Disco)
    requires Sano(d)
    ensures Sano(r) && r.sb == d.sb
  {
    if os == [] then d else Hacer(Corrida(d, os[..|os| - 1]), os[|os| - 1])
  }

  /** The code a request is answered with; creating and deleting answer 1 or 0. */
  function Codigo(d: Disco, o: Orden): int
    requires Sano(d)
  {
    match o
    case Crear(p) => if CrearArchivo(d, p).0 then 1 else 0
    case Borrar(p) => if BorrarArchivo(d, p).0 then 1 else 0
    case Guardar(p, off, b) => CodigoGuardar(d, p, off, |b|)
    case Obtener(p, off, n) => ObtenerDatos(d, p, off, n).codigo
  }

  // ---------------------------------------------------------------- the notes

  /** What is known of a file: its size, how many blocks it has, and the bytes written since it was created. */
  datatype Ficha = Ficha(tamanio: nat, bloques: nat, sabido: map<int, Byte>)

  /** What is known of the disk: how many blocks are free, and its files. */
  datatype Libreta = Libreta(libres: nat, fichas: map<string, Ficha>)

  function ConBytes(m: map<int, Byte>, offset: int, datos: seq<Byte>): (r: map<int, Byte>)
    ensures forall i :: i in r <==> i in m || offset <= i < offset + |datos|
    ensures forall i :: i in r ==> r[i] == if offset <= i < offset + |datos| then datos[i - offset] else m[i]
  {
    if datos == [] then m else
      var n := |datos| - 1;
      ConBytes(m, offset, datos[..n])[offset + n := datos[n]]
  }

  /** The answer the notes predict. */
  function Previsto(sb: nat, l: Libreta, o: Orden): int
    requires sb > 0
  {
    match o
    case Crear(p) => if p !in l.fichas && l.libres > 0 then 1 else 0
    case Borrar(p) => if p in l.fichas then 1 else 0
    case Guardar(p, off, b) =>
      if p !in l.fichas then -FNF
      else if |b| < 1 then -14
      else if off < 0 then -15
      else if l.libres < Faltan(sb, l.fichas[p].bloques, off, |b|) then -16
      else 1
    case Obtener(p, off, n) =>
      if p !in l.fichas then -FNF
      else if n < 1 then -14
      else if off < 0 then -15
      else if l.fichas[p].tamanio < off + n then -16
      else 1
  }

  /** The notes after a request. */
  function Anotar(sb: nat, l: Libreta, o: Orden): Libreta
    requires sb > 0
  {
    if Previsto(sb, l, o) != 1 then l else
      match o
      case Crear(p) => Libreta(l.libres - 1, l.fichas[p := Ficha(0, 1, map[])])
      case Borrar(p) => Libreta(l.libres + l.fichas[p].bloques, l.fichas - {p})
      case Guardar(p, off, b) =>
        var f := l.fichas[p];
        var n := Faltan(sb, f.bloques, off, |b|);
        var g := Ficha(Mayor(f.tamanio, off + |b|), f.bloques + n, ConBytes(f.sabido, off, b));
        Libreta(l.libres - n, l.fichas[p := g])
      case Obtener(_, _, _) => l
  }

  function Notas(sb: nat, l: Libreta, os: seq<Orden>): Libreta
    requires sb > 0
  {
    if os == [] then l else Anotar(sb, Notas(sb, l, os[..|os| - 1]), os[|os| - 1])
  }

  // ---------------------------------------------------------------- the notes are true

  predicate Coincide(s: seq<Byte>, m: map<int, Byte>) {
    forall i :: i in m ==> 0 <= i < |s| && s[i] == m[i]
  }

  predicate FichaFiel(d: Disco, p: string, f: Ficha)
    requires p in d.archivos && Discos(d.bloques, d.sb) && EnDisco(d.bloques, d.archivos[p].bloques)
  {
    f.tamanio == d.archivos[p].tamanio && f.bloques == |d.archivos[p].bloques| && Coincide(Plano(d, p), f.sabido)
  }

  /** The notes list exactly the files and count the free blocks, and every noted byte is on the disk. */
  predicate Fiel(d: Disco, l: Libreta)
    requires Sano(d)
  {
    && l.libres == Libres(d.bitmap)
    && l.fichas.Keys == d.archivos.Keys
    && forall p :: p in l.fichas ==> FichaFiel(d, p, l.fichas[p])
  }

  /** True notes predict every answer. */
  lemma CodigoFiel(d: Disco, l: Libreta, o: Orden)
    requires Sano(d) && Fiel(d, l)
    ensures d.sb > 0 && Codigo(d, o) == Previsto(d.sb, l, o)
  {
    LibresPositivo(d.bitmap);
    assert !o.Crear? && o.path in l.fichas ==> FichaFiel(d, o.path, l.fichas[o.path]);
    hide Plano, Coincide, Libres, PrimerLibre, Faltan;
  }

  lemma CoincideEmpalme(s: seq<Byte>, extra: seq<Byte>, m: map<int, Byte>, offset: nat, buf: seq<Byte>)
    requires Coincide(s, m) && offset + |buf| <= |s + extra|
    ensures Coincide(Empalme(s + extra, offset, buf), ConBytes(m, offset, buf))
  {
    hide ConBytes;
    EmpalmeIndices(s + extra, offset, buf);
    hide Empalme;
    var r, t := ConBytes(m, offset, buf), Empalme(s + extra, offset, buf);
    forall i | i in r
      ensures 0 <= i < |t| && t[i] == r[i]
    {
      assert offset <= i < offset + |buf| || i in m;
    }
  }

  lemma AnotarGuardar(d: Disco, l: Libreta, o: Orden, q: string)
    requires Sano(d) && Fiel(d, l) && o.Guardar? && Codigo(d, o) == 1 && q in l.fichas
    ensures d.sb > 0 && q in Hacer(d, o).archivos && q in Anotar(d.sb, l, o).fichas
    ensures FichaFiel(Hacer(d, o), q, Anotar(d.sb, l, o).fichas[q])
  {
    hide Plano, Empalme, Asignar, Contenido, Faltan, GuardarDatos, ConBytes, Coincide;
    var path, offset, buf := o.path, o.offset, o.datos;
    CodigoFiel(d, l, o);
    GuardarPlano(d, path, offset, buf, q);
    GuardarFicha(d, path, offset, buf, q);
    assert FichaFiel(d, q, l.fichas[q]);
    if q == path {
      var n := Faltan(d.sb, |d.archivos[path].bloques|, offset, |buf|);
      var extra := Contenido(d.bloques, d.sb, Asignar(d.bitmap, n).1);
      CoincideEmpalme(Plano(d, path), extra, l.fichas[q].sabido, offset, buf);
    }
  }

  lemma PlanoIgual(d: Disco, r: Disco, q: string)
    requires Sano(d) && Sano(r) && q in d.archivos && q in r.archivos
    requires d.archivos[q] == r.archivos[q] && d.bloques == r.bloques && d.sb == r.sb
    ensures Plano(r, q) == Plano(d, q)
  {
  }

  lemma PasoFielGuardar(d: Disco, l: Libreta, o: Orden)
    requires Sano(d) && Fiel(d, l) && o.Guardar? && Codigo(d, o) == 1
    ensures d.sb > 0 && Fiel(Hacer(d, o), Anotar(d.sb, l, o))
  {
    hide Plano, Faltan, Coincide, ConBytes, GuardarDatos;
    CodigoFiel(d, l, o);
    assert FichaFiel(d, o.path, l.fichas[o.path]);
    GuardarFicha(d, o.path, o.offset, o.datos, o.path);
    hide Sano, Libres;
    forall q | q in Anotar(d.sb, l, o).fichas
      ensures q in Hacer(d, o).archivos && FichaFiel(Hacer(d, o), q, Anotar(d.sb, l, o).fichas[q])
    {
      AnotarGuardar(d, l, o, q);
    }
  }

  lemma CoincideVacio(s: seq<Byte>)
    ensures Coincide(s, map[])
  {
  }

  lemma FichasIguales(d: Disco, r: Disco, l: Libreta, q: string)
    requires Sano(d) && Sano(r) && Fiel(d, l) && q in l.fichas && q in r.archivos
    requires d.archivos[q] == r.archivos[q] && d.bloques == r.bloques && d.sb == r.sb
    ensures FichaFiel(r, q, l.fichas[q])
  {
    assert ArchivoSano(r, r.archivos[q]);
    assert FichaFiel(d, q, l.fichas[q]);
    hide Sano, Plano, Coincide;
    PlanoIgual(d, r, q);
  }

  lemma PasoFielCrear(d: Disco, l: Libreta, o: Orden)
    requires Sano(d) && Fiel(d, l) && o.Crear? && Codigo(d, o) == 1
    ensures d.sb > 0 && Fiel(Hacer(d, o), Anotar(d.sb, l, o))
  {
    CodigoFiel(d, l, o);
    CrearYBorrar(d, o.path);
    var r, m := Hacer(d, o), Anotar(d.sb, l, o);
    assert ArchivoSano(r, r.archivos[o.path]);
    hide Sano, Plano, Coincide, Libres;
    CoincideVacio(Plano(r, o.path));
    forall q | q in m.fichas
      ensures q in r.archivos && FichaFiel(r, q, m.fichas[q])
    {
      if q != o.path {
        FichasIguales(d, r, l, q);
      }
    }
  }

  lemma PasoFielBorrar(d: Disco, l: Libreta, o: Orden)
    requires Sano(d) && Fiel(d, l) && o.Borrar? && Codigo(d, o) == 1
    ensures d.sb > 0 && Fiel(Hacer(d, o), Anotar(d.sb, l, o))
  {
    CodigoFiel(d, l, o);
    BorrarDevuelve(d, o.path);
    hide Sano, Plano, Coincide, Libres, Limpiar;
    assert FichaFiel(d, o.path, l.fichas[o.path]);
    var r, m := Hacer(d, o), Anotar(d.sb, l, o);
    forall q | q in m.fichas
      ensures q in r.archivos && FichaFiel(r, q, m.fichas[q])
    {
      FichasIguales(d, r, l, q);
    }
  }

  /** Every request keeps the notes true. */
  lemma PasoFiel(d: Disco, l: Libreta, o: Orden)
    requires Sano(d) && Fiel(d, l)
    ensures d.sb > 0 && Fiel(Hacer(d, o), Anotar(d.sb, l, o))
  {
    CodigoFiel(d, l, o);
    if o.Obtener? || Codigo(d, o) != 1 {
      hide Sano, Fiel;
    } else if o.Crear? {
      PasoFielCrear(d, l, o);
    } else if o.Borrar? {
      PasoFielBorrar(d, l, o);
    } else {
      PasoFielGuardar(d, l, o);
    }
  }

  /** After any run the notes are true. */
  lemma {:induction false} CorridaFiel(d: Disco, l: Libreta, os: seq<Orden>)
    requires Sano(d) && Fiel(d, l)
    ensures d.sb > 0 && Fiel(Corrida(d, os), Notas(d.sb, l, os))
  {
    assert Discos(d.bloques, d.sb);
    hide Sano, Fiel, Anotar, Hacer;
    if os != [] {
      CorridaFiel(d, l, os[..|os| - 1]);
      PasoFiel(Corrida(d, os[..|os| - 1]), Notas(d.sb, l, os[..|os| - 1]), os[|os| - 1]);
    }
  }

  // ---------------------------------------------------------------- from an empty disk

  lemma {:induction false} TodosLibres(n: nat)
    ensures Libres(seq(n, _ => false)) == n
  {
    if n > 0 {
      assert seq(n, _ => false)[..n - 1] == seq(n - 1, _ => false);
      TodosLibres(n - 1);
    }
  }

  /** The notes of a disk of `n` blocks on which nothing was done. */
  function EnBlanco(n: nat): Libreta {
    Libreta(n, map[])
  }

  /**
   * From an empty disk, after any run, the answer to every request, the shortage of blocks included, follows from the
   * requests alone, without looking at the disk.
   */
  lemma CodigosDeUnaCorrida(sb: nat, bloques: seq<seq<Byte>>, os: seq<Orden>, o: Orden)
    requires Discos(bloques, sb)
    ensures Fiel(Corrida(Vacio(sb, bloques), os), Notas(sb, EnBlanco(|bloques|), os))
    ensures Codigo(Corrida(Vacio(sb, bloques), os), o) == Previsto(sb, Notas(sb, EnBlanco(|bloques|), os), o)
  {
    TodosLibres(|bloques|);
    CorridaFiel(Vacio(sb, bloques), EnBlanco(|bloques|), os);
    CodigoFiel(Corrida(Vacio(sb, bloques), os), Notas(sb, EnBlanco(|bloques|), os), o);
  }

  /** A read that succeeds returns every byte written since the file's creation as it was last written. */
  lemma LecturasDeUnaCorrida(sb: nat, bloques: seq<seq<Byte>>, os: seq<Orden>, path: string, offset: int, size: int)
    requires Discos(bloques, sb)
    ensures var l := Notas(sb, EnBlanco(|bloques|), os);
      var r := ObtenerDatos(Corrida(Vacio(sb, bloques), os), path, offset, size);
      && r.codigo == Previsto(sb, l, Obtener(path, offset, size))
      && (r.codigo == 1 ==> |r.datos| == size)
      && (r.codigo == 1 ==> forall k :: 0 <= k < size && offset + k in l.fichas[path].sabido ==>
            r.datos[k] == l.fichas[path].sabido[offset + k])
  {
    CodigosDeUnaCorrida(sb, bloques, os, Obtener(path, offset, size));
    var d, l := Corrida(Vacio(sb, bloques), os), Notas(sb, EnBlanco(|bloques|), os);
    if path in l.fichas {
      assert FichaFiel(d, path, l.fichas[path]);
      assert ArchivoSano(d, d.archivos[path]);
    }
    hide Plano, Corrida, Notas;
  }

  // ---------------------------------------------------------------- runs without holes

  /** Every byte of a file is noted. */
  predicate Entera(f: Ficha) {
    forall i :: 0 <= i < f.tamanio ==> i in f.sabido
  }

  predicate Completa(l: Libreta) {
    forall p :: p in l.fichas ==> Entera(l.fichas[p])
  }

  predicate Acotada(l: Libreta) {
    forall p, i :: p in l.fichas && i in l.fichas[p].sabido ==> 0 <= i < l.fichas[p].tamanio
  }

  /** A write that is done starts at or below the end of its file. */
  predicate SinHueco(sb: nat, l: Libreta, o: Orden)
    requires sb > 0
  {
    o.Guardar? && Previsto(sb, l, o) == 1 ==> o.offset <= l.fichas[o.path].tamanio
  }

  predicate SinHuecos(sb: nat, l: Libreta, os: seq<Orden>)
    requires sb > 0
  {
    forall k :: 0 <= k < |os| ==> SinHueco(sb, Notas(sb, l, os[..k]), os[k])
  }

  lemma FichaEntera(f: Ficha, offset: nat, datos: seq<Byte>, n: nat)
    requires Entera(f) && datos != [] && forall i :: i in f.sabido ==> 0 <= i < f.tamanio
    ensures Entera(Ficha(Mayor(f.tamanio, offset + |datos|), n, ConBytes(f.sabido, offset, datos)))
       <==> offset <= f.tamanio
  {
    hide ConBytes;
    var m := ConBytes(f.sabido, offset, datos);
    assert f.tamanio in m ==> offset <= f.tamanio;
  }

  /** A request leaves some byte of a file unknown exactly when it is a write that starts beyond the end. */
  lemma PasoCompleto(sb: nat, l: Libreta, o: Orden)
    requires sb > 0 && Completa(l) && Acotada(l)
    ensures Acotada(Anotar(sb, l, o))
    ensures Completa(Anotar(sb, l, o)) <==> SinHueco(sb, l, o)
  {
    hide ConBytes, Faltan, Entera;
    var m := Anotar(sb, l, o);
    if o.Guardar? && Previsto(sb, l, o) == 1 {
      var f := l.fichas[o.path];
      FichaEntera(f, o.offset, o.datos, m.fichas[o.path].bloques);
      assert o.path in m.fichas;
    } else if o.Crear? && Previsto(sb, l, o) == 1 {
      FichaNueva();
    }
  }

  lemma FichaNueva()
    ensures Entera(Ficha(0, 1, map[]))
  {
  }

  predicate SiempreCompleta(sb: nat, l: Libreta, os: seq<Orden>)
    requires sb > 0
  {
    forall k :: 0 <= k <= |os| ==> Completa(Notas(sb, l, os[..k]))
  }

  lemma UnaMas(sb: nat, l: Libreta, os: seq<Orden>)
    requires sb > 0 && os != []
    ensures var antes := os[..|os| - 1];
      && (SinHuecos(sb, l, os) <==> SinHuecos(sb, l, antes) && SinHueco(sb, Notas(sb, l, antes), os[|os| - 1]))
      && (SiempreCompleta(sb, l, os) <==> SiempreCompleta(sb, l, antes) && Completa(Notas(sb, l, os)))
  {
    hide Completa, Anotar, SinHueco, Notas;
    var n := |os| - 1;
    assert forall k :: 0 <= k <= n ==> os[..n][..k] == os[..k];
    assert os[..n + 1] == os;
  }

  lemma {:induction false} CompletaSiempre(sb: nat, l: Libreta, os: seq<Orden>)
    requires sb > 0 && Completa(l) && Acotada(l)
    ensures SiempreCompleta(sb, l, os) <==> SinHuecos(sb, l, os)
    ensures SinHuecos(sb, l, os) ==> Acotada(Notas(sb, l, os)) && Completa(Notas(sb, l, os))
  {
    hide Completa, Acotada, Anotar, SinHueco;
    if os != [] {
      var antes := os[..|os| - 1];
      UnaMas(sb, l, os);
      CompletaSiempre(sb, l, antes);
      hide SinHuecos, SiempreCompleta;
      if SinHuecos(sb, l, antes) {
        PasoCompleto(sb, Notas(sb, l, antes), os[|os| - 1]);
      }
    }
  }

  /** Every byte of every file is known all along a run exactly when no write that is done starts beyond the end. */
  lemma CorridaCompleta(sb: nat, l: Libreta, os: seq<Orden>)
    requires sb > 0 && Completa(l) && Acotada(l)
    ensures (forall k :: 0 <= k <= |os| ==> Completa(Notas(sb, l, os[..k]))) <==> SinHuecos(sb, l, os)
  {
    hide Completa, Acotada, SinHuecos;
    CompletaSiempre(sb, l, os);
  }

  /** A read the notes predict to succeed asks for noted bytes only. */
  lemma LecturaNotada(sb: nat, l: Libreta, path: string, offset: int, size: int)
    requires sb > 0 && Completa(l) && Previsto(sb, l, Obtener(path, offset, size)) == 1
    ensures path in l.fichas && forall i :: offset <= i < offset + size ==> i in l.fichas[path].sabido
  {
    assert Entera(l.fichas[path]);
  }

  /**
   * From an empty disk, when no write that is done starts beyond the end of its file, a read that succeeds returns what
   * was last written at each position: nothing the disk held before the run is ever shown.
   */
  lemma LecturasSinHuecos(sb: nat, bloques: seq<seq<Byte>>, os: seq<Orden>, path: string, offset: int, size: int)
    requires Discos(bloques, sb) && SinHuecos(sb, EnBlanco(|bloques|), os)
    ensures var l := Notas(sb, EnBlanco(|bloques|), os);
      var r := ObtenerDatos(Corrida(Vacio(sb, bloques), os), path, offset, size);
      r.codigo == 1 ==>
        |r.datos| == size && path in l.fichas && forall k :: 0 <= k < size ==>
          offset + k in l.fichas[path].sabido && r.datos[k] == l.fichas[path].sabido[offset + k]
  {
    var l := Notas(sb, EnBlanco(|bloques|), os);
    LecturasDeUnaCorrida(sb, bloques, os, path, offset, size);
    CompletaSiempre(sb, EnBlanco(|bloques|), os);
    hide Corrida, Notas, SinHuecos, ObtenerDatos, Completa, Previsto, Vacio;
    var r := ObtenerDatos(Corrida(Vacio(sb, bloques), os), path, offset, size);
    if r.codigo == 1 {
      LecturaNotada(sb, l, path, offset, size);
    }
  }

  /** Such a run answers alike on every disk, whatever its blocks held. */
  lemma DiscoIndiferente(sb: nat, bloques: seq<seq<Byte>>, otros: seq<seq<Byte>>, os: seq<Orden>,
                         path: string, offset: int, size: int)
    requires Discos(bloques, sb) && Discos(otros, sb) && |bloques| == |otros|
    requires SinHuecos(sb, EnBlanco(|bloques|), os)
    ensures ObtenerDatos(Corrida(Vacio(sb, bloques), os), path, offset, size)
         == ObtenerDatos(Corrida(Vacio(sb, otros), os), path, offset, size)
  {
    LecturasSinHuecos(sb, bloques, os, path, offset, size);
    LecturasSinHuecos(sb, otros, os, path, offset, size);
    LecturasDeUnaCorrida(sb, bloques, os, path, offset, size);
    LecturasDeUnaCorrida(sb, otros, os, path, offset, size);
    var r := ObtenerDatos(Corrida(Vacio(sb, bloques), os), path, offset, size);
    var t := ObtenerDatos(Corrida(Vacio(sb, otros), os), path, offset, size);
    SinDatos(Corrida(Vacio(sb, bloques), os), path, offset, size);
    SinDatos(Corrida(Vacio(sb, otros), os), path, offset, size);
    hide Corrida, Notas, SinHuecos, ObtenerDatos;
    assert r.datos == t.datos;
  }

  lemma SinDatos(d: Disco, path: string, offset: int, size: int)
    requires Sano(d)
    ensures ObtenerDatos(d, path, offset, size).codigo != 1 ==> ObtenerDatos(d, path, offset, size).datos == []
  {
  }

  lemma CorridaAgrega(d: Disco, os: seq<Orden>, o: Orden)
    requires Sano(d)
    ensures Corrida(d, os + [o]) == Hacer(Corrida(d, os), o)
  {
    assert (os + [o])[..|os|] == os;
    hide Hacer, Sano;
  }

  lemma CorridaDeUna(d: Disco, o: Orden)
    requires Sano(d)
    ensures Corrida(d, [o]) == Hacer(d, o)
  {
    CorridaAgrega(d, [], o);
    assert [] + [o] == [o];
    hide Hacer, Sano;
  }

  lemma CorridaDeDos(d: Disco, os: seq<Orden>, a: Orden, b: Orden)
    requires Sano(d)
    ensures Corrida(d, os + [a, b]) == Hacer(Hacer(Corrida(d, os), a), b)
  {
    CorridaAgrega(d, os, a);
    CorridaAgrega(d, os + [a], b);
    assert os + [a] + [b] == os + [a, b];
    hide Hacer, Sano, Corrida;
  }

  lemma EscritoEnUno(bl: seq<seq<Byte>>, sb: nat, b: nat, v: Byte)
    requires Discos(bl, sb) && b < |bl|
    ensures var r := Escribir(bl, sb, [b], 0, [v]);
      |r| == |bl| && |r[b]| == sb && r[b][0] == v
  {
    EscribirByte(bl, sb, [b], 0, [v], 0);
    hide Escribir;
  }

  /** A byte written at the start of a new file is in the block the search took for it, and no other block is taken. */
  lemma EscritoAlPrincipio(d: Disco, p: string, v: Byte)
    requires Sano(d) && CrearArchivo(d, p).0
    ensures var b := PrimerLibre(d.bitmap, 0);
      var r := Hacer(Hacer(d, Crear(p)), Guardar(p, 0, [v]));
      && r.bitmap == d.bitmap[b := true] && r.archivos == d.archivos[p := Archivo(1, [b])]
      && |r.bloques| == |d.bloques| && r.sb == d.sb && |r.bloques[b]| == d.sb && r.bloques[b][0] == v
  {
    CrearSano(d, p);
    var e, b := CrearArchivo(d, p).1, PrimerLibre(d.bitmap, 0);
    assert Faltan(d.sb, 1, 0, 1) == 0;
    assert CodigoGuardar(e, p, 0, 1) == 1;
    GuardarEs(e, p, 0, [v]);
    EscritoEnUno(d.bloques, d.sb, b, v);
    hide Escribir, GuardarDatos, Sano, Faltan, Discos, CodigoGuardar, Libres, PrimerLibre;
    assert Asignar(e.bitmap, 0) == (e.bitmap, []);
    assert [b] + [] == [b];
  }

  lemma TrasBorrar(d: Disco, e: Disco, p: string)
    requires Sano(e) && |d.bitmap| == |d.bloques| && CrearArchivo(d, p).0
    requires e.bitmap == d.bitmap[PrimerLibre(d.bitmap, 0) := true]
    requires e.archivos == d.archivos[p := Archivo(1, [PrimerLibre(d.bitmap, 0)])]
    ensures Hacer(e, Borrar(p)) == Disco(e.sb, d.archivos, d.bitmap, e.bloques)
  {
    hide Sano;
    assert Hacer(e, Borrar(p)).bitmap == d.bitmap;
    assert Hacer(e, Borrar(p)).archivos == d.archivos;
  }

  lemma TresYDos<T>(a: T, b: T, c: T, d: T, e: T)
    ensures [a] + [b, c] == [a, b, c]
    ensures [a, b, c] + [d, e] == [a, b, c, d, e]
  {
  }

  /** Writing a byte to a new file and deleting it leaves the disk as it was, but for that byte of its block. */
  lemma CreadoYBorrado(d: Disco, p: string, v: Byte)
    requires Sano(d) && CrearArchivo(d, p).0
    ensures var r, b := Corrida(d, [Crear(p), Guardar(p, 0, [v]), Borrar(p)]), PrimerLibre(d.bitmap, 0);
      && r == Disco(d.sb, d.archivos, d.bitmap, r.bloques)
      && |r.bloques| == |d.bloques| && |r.bloques[b]| == d.sb && r.bloques[b][0] == v
  {
    EscritoAlPrincipio(d, p, v);
    CorridaDeUna(d, Crear(p));
    CorridaDeDos(d, [Crear(p)], Guardar(p, 0, [v]), Borrar(p));
    TresYDos(Crear(p), Guardar(p, 0, [v]), Borrar(p), Crear(p), Crear(p));
    TrasBorrar(d, Hacer(Hacer(d, Crear(p)), Guardar(p, 0, [v])), p);
    hide GuardarDatos, Sano, Corrida, Hacer, PrimerLibre;
  }

  /**
   * One write beyond the end is enough for a file to show a byte of another, deleted before it was created: on any disk
   * of blocks of two bytes or more, write `v` at the start of a new file, delete it, create another, write it from
   * position one on and read its position zero.
   */
  lemma ByteDeOtro(d: Disco, p: string, q: string, v: Byte, w: Byte)
    requires Sano(d) && d.sb >= 2 && CrearArchivo(d, p).0 && q !in d.archivos
    ensures ObtenerDatos(Corrida(d, [Crear(p), Guardar(p, 0, [v]), Borrar(p), Crear(q), Guardar(q, 1, [w])]), q, 0, 1)
         == Respuesta(1, [v])
  {
    hide GuardarDatos, Sano, Corrida, PrimerLibre, ObtenerDatos;
    CreadoYBorrado(d, p, v);
    var os := [Crear(p), Guardar(p, 0, [v]), Borrar(p)];
    var e := Corrida(d, os);
    ByteViejo(e, q, w);
    assert Hacer(Hacer(e, Crear(q)), Guardar(q, 1, [w])) == GuardarDatos(CrearArchivo(e, q).1, q, 1, [w]);
    hide Hacer;
    CorridaDeDos(d, os, Crear(q), Guardar(q, 1, [w]));
    TresYDos(Crear(p), Guardar(p, 0, [v]), Borrar(p), Crear(q), Guardar(q, 1, [w]));
  }
}
