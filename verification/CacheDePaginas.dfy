/** The page cache in place: `cache`, `admin_cache` and `contenido_cache`. */
module CacheDePaginas {
  import opened Bytes
  import opened Cache

  datatype EntradaCache = EntradaCache(pid: int, pagina: int)

  datatype EntradaAdmin = EntradaAdmin(tLastRef: int, pid: int)

  /** The three buffers seen as one list of lines. */
  function Lineas(ca: seq<EntradaCache>, ad: seq<EntradaAdmin>, con: seq<seq<Byte>>): (r: seq<Slot>)
    requires |ca| == |ad| == |con|
    ensures |r| == |ca|
    ensures forall i :: 0 <= i < |ca| ==> r[i] == Slot(ca[i].pid, ca[i].pagina, con[i], ad[i].pid, ad[i].tLastRef)
  {
    seq(|ca|, i requires 0 <= i < |ca| => Slot(ca[i].pid, ca[i].pagina, con[i], ad[i].pid, ad[i].tLastRef))
  }

  class CacheLru {
    const entradas: nat
    const cuota: int
    const ms: nat
    const cache: array<EntradaCache>
    const admin: array<EntradaAdmin>
    const contenido: array<Byte>

    ghost predicate Valida() {
      cache.Length == admin.Length == entradas && contenido.Length == entradas * ms
    }

    ghost function Vista(): (v: seq<Slot>)
      requires Valida()
      reads cache, admin, contenido
      ensures |v| == entradas
    {
      Lineas(cache[..], admin[..], Regiones(contenido[..], entradas, ms, 0))
    }

    constructor (entradas: nat, cuota: int, ms: nat)
      ensures Valida() && this.entradas == entradas && this.cuota == cuota && this.ms == ms
      ensures fresh(cache) && fresh(admin) && fresh(contenido)
      ensures forall i :: 0 <= i < entradas ==> Vista()[i].pid == NADIE && Vista()[i].pagina == NADIE
                                                && Vista()[i].refPid == NADIE && Vista()[i].edad == NADIE
    {
      this.entradas, this.cuota, this.ms := entradas, cuota, ms;
      cache := new EntradaCache[entradas](_ => EntradaCache(NADIE, NADIE));
      admin := new EntradaAdmin[entradas](_ => EntradaAdmin(NADIE, NADIE));
      contenido := new Byte[entradas * ms](_ => 0);
    }

    // ---- searches ----

    method EstaEnCache(pid: int, pagina: int) returns (encontrado: bool)
      requires Valida()
      ensures encontrado == Presente(Vista(), pid, pagina)
    {
      encontrado := false;
      var i := 0;
      while i < entradas
        invariant 0 <= i <= entradas
        invariant encontrado <==> exists j :: 0 <= j < i && Coincide(Vista()[j], pid, pagina)
      {
        if cache[i].pagina == pagina && cache[i].pid == pid {
          assert Coincide(Vista()[i], pid, pagina);
          encontrado := true;
        }
        i := i + 1;
      }
    }

    /** The line of a resident page: the last one the scan meets. */
    method BuscarEntrada(pid: int, pagina: int) returns (posicion: int)
      requires Valida()
      ensures posicion == Linea(Vista(), pid, pagina)
    {
      hide Regiones;
      ghost var v := Vista();
      posicion := -1;
      var i := 0;
      while i < entradas
        invariant 0 <= i <= entradas
        invariant posicion == Ultima(v, pid, pagina, i)
      {
        if cache[i].pagina == pagina && cache[i].pid == pid {
          posicion := i;
        }
        i := i + 1;
      }
    }

    method CantidadDeEntradas(pid: int) returns (cantidad: nat)
      requires Valida()
      ensures cantidad == Entradas(Vista(), pid, entradas)
    {
      hide Regiones;
      ghost var v := Vista();
      cantidad := 0;
      var i := 0;
      while i < entradas
        invariant 0 <= i <= entradas
        invariant cantidad == Entradas(v, pid, i)
      {
        if cache[i].pid == pid {
          cantidad := cantidad + 1;
        }
        i := i + 1;
      }
    }

    method HayEspacioEnCache() returns (hay: bool)
      requires Valida()
      ensures hay == HayEspacio(Vista())
    {
      hay := false;
      var i := 0;
      while i < entradas
        invariant 0 <= i <= entradas
        invariant hay <==> exists j :: 0 <= j < i && Libre(Vista()[j])
      {
        if cache[i].pagina == NADIE || cache[i].pid == NADIE {
          assert Libre(Vista()[i]);
          hay := true;
        }
        i := i + 1;
      }
    }

    method EntradaLibre() returns (libre: nat)
      requires Valida() && HayEspacio(Vista())
      ensures libre == PrimeraLibre(Vista(), 0) < entradas
    {
      hide PrimeraLibre, Regiones;
      ghost var v := Vista();
      var encontrado := false;
      var i := 0;
      libre := 0;
      while !encontrado && i < entradas
        invariant 0 <= i <= entradas
        invariant forall j :: 0 <= j < i ==> !Libre(v[j])
        invariant encontrado ==> libre == i < entradas && Libre(v[i])
        decreases !encontrado, entradas - i
      {
        if cache[i].pid == NADIE || cache[i].pagina == NADIE {
          encontrado := true;
          libre := i;
        } else {
          i := i + 1;
        }
      }
    }

    /** Both victim searches: over every line, or over the lines whose administrative entry is of `pid`. */
    method BuscarVictima(pid: int, local: bool) returns (victima: int)
      requires Valida()
      requires forall i :: 0 <= i < entradas && Candidata(Vista()[i], pid, local) ==> Vista()[i].edad >= 0
      ensures victima == Victima(Vista(), pid, local, entradas)
    {
      hide Regiones;
      ghost var v := Vista();
      victima := -1;
      var maxRef := 0;
      var i := 0;
      while i < entradas
        invariant 0 <= i <= entradas
        invariant victima == Victima(v, pid, local, i)
        invariant maxRef == if victima >= 0 then v[victima].edad else 0
      {
        if (!local || admin[i].pid == pid) && admin[i].tLastRef > maxRef {
          victima := i;
          maxRef := admin[i].tLastRef;
        }
        i := i + 1;
      }
    }

    // ---- updates ----

    method AumentarReferencias()
      requires Valida()
      modifies admin
      ensures Vista() == Envejecer(old(Vista()))
    {
      ghost var antes := Vista();
      var i := 0;
      while i < entradas
        invariant 0 <= i <= entradas
        invariant forall j :: 0 <= j < entradas ==>
                    Vista()[j] == if j < i then Envejecer(antes)[j] else antes[j]
      {
        if admin[i].tLastRef != NADIE {
          admin[i] := admin[i].(tLastRef := admin[i].tLastRef + 1);
        }
        i := i + 1;
      }
    }

    method SetZeroRef(pid: int, pagina: int)
      requires Valida() && Presente(Vista(), pid, pagina)
      modifies admin
      ensures var i := Linea(old(Vista()), pid, pagina);
              Vista() == old(Vista())[i := old(Vista())[i].(edad := 0)]
    {
      var posicion := BuscarEntrada(pid, pagina);
      admin[posicion] := admin[posicion].(tLastRef := 0);
    }

    /** `memcpy` over the content of line `i`, from `off` on. */
    method CopiarEnLinea(i: nat, off: nat, d: seq<Byte>)
      requires Valida() && i < entradas && off + |d| <= ms
      modifies contenido
      ensures |old(Vista())[i].contenido| == ms
      ensures Vista() == old(Vista())[i := old(Vista())[i].(contenido := Empalme(old(Vista())[i].contenido, off, d))]
    {
      hide Regiones, Empalme;
      RegionCabe(entradas, ms, i);
      RegionesEmpalme(contenido[..], entradas, ms, 0, i, off, d);
      Copiar(contenido, i * ms + off, d);
    }

    /** All the fields of one line. */
    method AsignarLinea(i: nat, s: Slot)
      requires Valida() && i < entradas && |s.contenido| == ms
      modifies cache, admin, contenido
      ensures Vista() == old(Vista())[i := s]
    {
      hide Regiones, Empalme;
      cache[i] := EntradaCache(s.pid, s.pagina);
      EmpalmeTotal(Vista()[i].contenido, s.contenido);
      CopiarEnLinea(i, 0, s.contenido);
      admin[i] := EntradaAdmin(s.edad, s.refPid);
    }

    method LeerLinea(i: nat, inicio: nat, largo: nat) returns (d: seq<Byte>)
      requires Valida() && i < entradas && inicio + largo <= ms
      ensures |Vista()[i].contenido| == ms && d == Vista()[i].contenido[inicio..inicio + largo]
    {
      RegionCabe(entradas, ms, i);
      var a := i * ms;
      d := contenido[a + inicio..a + inicio + largo];
      hide Regiones, Region;
      RegionDeRegiones(contenido[..], entradas, ms, 0, i);
      RegionEn(contenido[..], ms, i, a);
      TramoDeTramo(contenido[..], a, ms, inicio, largo);
    }

    method InsertarEntrada(pid: int, pagina: int, bytes: seq<Byte>)
      requires Valida() && |bytes| == ms
      requires Habilitada(Vista(), cuota) ==> 0 <= Elegir(Vista(), cuota, pid) < entradas
      requires forall i :: 0 <= i < entradas && !Libre(Vista()[i]) ==> Vista()[i].edad >= 0
      requires forall i :: 0 <= i < entradas && Vista()[i].refPid == pid ==> Vista()[i].edad >= 0
      modifies cache, admin, contenido
      ensures Vista() == Insertar(old(Vista()), cuota, pid, pagina, bytes)
    {
      hide Regiones, Entradas, PrimeraLibre, Victima;
      if entradas > 0 && cuota > 0 {
        var aux: int;
        var hay := HayEspacioEnCache();
        var cantidad := CantidadDeEntradas(pid);
        if hay {
          if cantidad < cuota {
            aux := EntradaLibre();
          } else {
            aux := BuscarVictima(pid, true);
          }
        } else {
          if cantidad < cuota {
            aux := BuscarVictima(pid, false);
          } else {
            aux := BuscarVictima(pid, true);
          }
        }
        assert aux == Elegir(Vista(), cuota, pid);
        AsignarLinea(aux, Slot(pid, pagina, bytes, pid, 0));
      }
    }

    method Flush()
      requires Valida()
      modifies cache, admin, contenido
      ensures Vista() == Vaciada(old(Vista()), ms)
    {
      ghost var antes := Vista();
      var i := 0;
      while i < entradas
        invariant 0 <= i <= entradas
        invariant forall j :: 0 <= j < entradas ==> Vista()[j] == if j < i then Vacia(ms) else antes[j]
      {
        AsignarLinea(i, Vacia(ms));
        i := i + 1;
      }
    }

    method FlushProcess(pid: int)
      requires Valida()
      modifies cache, admin, contenido
      ensures Vista() == SinProceso(old(Vista()), ms, pid)
    {
      ghost var antes := Vista();
      var i := 0;
      while i < entradas
        invariant 0 <= i <= entradas
        invariant forall j :: 0 <= j < entradas ==>
          Vista()[j] == if j < i then SinProceso(antes, ms, pid)[j] else antes[j]
      {
        if admin[i].pid == pid {
          AsignarLinea(i, Vacia(ms));
        }
        i := i + 1;
      }
    }

    /** The loop of `liberar_pagina`, which leaves `admin_cache` as it is. */
    method OlvidarPagina(pid: int, pagina: int)
      requires Valida()
      modifies cache
      ensures Vista() == SinPagina(old(Vista()), pid, pagina)
    {
      ghost var antes := Vista();
      var esta := EstaEnCache(pid, pagina);
      if esta {
        var i := 0;
        while i < entradas
          invariant 0 <= i <= entradas
          invariant forall j :: 0 <= j < entradas ==>
            Vista()[j] == if j < i then SinPagina(antes, pid, pagina)[j] else antes[j]
        {
          if cache[i].pagina == pagina && cache[i].pid == pid {
            cache[i] := EntradaCache(NADIE, NADIE);
          }
          i := i + 1;
        }
      }
    }

    // ---- the tail of every access ----

    /** A hit that reads: one more access, and the line is the youngest. */
    method Rejuvenecer(pid: int, num: int)
      requires Valida() && Presente(Vista(), pid, num)
      modifies admin
      ensures var i := Linea(old(Vista()), pid, num);
              Vista() == Reusar(old(Vista()), i, old(Vista())[i].contenido)
    {
      ghost var antes := Vista();
      hide Regiones, Ultima;
      AumentarReferencias();
      SetZeroRef(pid, num);
    }

    /** A hit that writes `d` at `off`. */
    method Actualizar(pid: int, num: int, off: nat, d: seq<Byte>)
      requires Valida() && Presente(Vista(), pid, num) && off + |d| <= ms
      modifies admin, contenido
      ensures var i := Linea(old(Vista()), pid, num);
              |old(Vista())[i].contenido| == ms
              && Vista() == Reusar(old(Vista()), i, Empalme(old(Vista())[i].contenido, off, d))
    {
      ghost var antes := Vista();
      hide Regiones, Ultima, Empalme, Reusar;
      var i := BuscarEntrada(pid, num);
      CopiarEnLinea(i, off, d);
      ReusarTrasCopia(antes, i, Vista()[i].contenido, pid, num);
      Rejuvenecer(pid, num);
    }

    /** A miss: one more access, and the page takes a line. */
    method Fallo(pid: int, num: int, pagina: seq<Byte>)
      requires Valida() && Sana(Vista()) && pid >= 0 && |pagina| == ms
      modifies cache, admin, contenido
      ensures Vista() == Incorporar(old(Vista()), cuota, pid, num, pagina)
    {
      ghost var antes := Vista();
      if Habilitada(antes, cuota) {
        ElegirDefinido(antes, cuota, pid);
      }
      assert forall i :: 0 <= i < entradas ==> LineaSana(antes[i]);
      hide Regiones, Sana, Elegir;
      AumentarReferencias();
      InsertarEntrada(pid, num, pagina);
    }
  }

  lemma ReusarTrasCopia(antes: seq<Slot>, i: nat, bytes: seq<Byte>, pid: int, num: int)
    requires i < |antes|
    ensures var v := antes[i := antes[i].(contenido := bytes)];
            Linea(v, pid, num) == Linea(antes, pid, num) && Reusar(v, i, bytes) == Reusar(antes, i, bytes)
  {
    var v := antes[i := antes[i].(contenido := bytes)];
    UltimaIgual(antes, v, pid, num, |antes|);
    hide Ultima;
    assert Envejecer(v)[i := v[i].(contenido := bytes, edad := 0)]
        == Envejecer(antes)[i := antes[i].(contenido := bytes, edad := 0)];
  }

  /** Which line holds a page does not depend on what the lines contain. */
  lemma {:induction false} UltimaIgual(a: seq<Slot>, b: seq<Slot>, pid: int, pagina: int, n: nat)
    requires n <= |a| == |b|
    requires forall i :: 0 <= i < |a| ==> a[i].pid == b[i].pid && a[i].pagina == b[i].pagina
    ensures Ultima(a, pid, pagina, n) == Ultima(b, pid, pagina, n)
  {
    if n > 0 {
      UltimaIgual(a, b, pid, pagina, n - 1);
    }
  }
}
