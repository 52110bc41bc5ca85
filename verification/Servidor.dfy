/** The memory server in place: one byte array for everything, the table at its start, the index and the cache. */
module Servidor {
  import opened Bytes
  import opened Listas
  import opened Tablas
  import opened Modelo
  import opened Asignacion
  import opened Disposicion
  import opened CacheDePaginas
  import Colocacion
  import Cache
  import Heap

  class Memoria {
    const c: Config
    const memoria: array<Byte>
    const indice: array<seq<int>>
    const cache: CacheLru

    ghost predicate Valido() {
      && ConfigValida(c)
      && memoria.Length == c.marcos * c.ms && indice.Length == c.marcos
      && cache.Valida() && cache.entradas == c.entradas && cache.cuota == c.cuota && cache.ms == c.ms
      && memoria != cache.contenido
    }

    /** The table and frames the bytes of memory stand for, the index, and the cache. */
    ghost function Vista(): (e: Estado)
      requires Valido()
      reads memoria, indice, cache.cache, cache.admin, cache.contenido
      ensures |e.mapa.tabla| == |e.mapa.indice| == |e.paginas| == c.marcos && |e.cache| == c.entradas
    {
      TablaCabe(c);
      Estado(Mapa(TablaDe(memoria[..], c.marcos), indice[..]), PaginasDe(memoria[..], c), cache.Vista())
    }

    /** `main` up to the threads: the table marked and copied, an empty index, an empty cache. */
    constructor (marcos: nat, ms: nat, entradas: nat, cuota: int)
      requires marcos > 0 && ms >= 12 && marcos * ms < TOPE31
      ensures Valido() && c == Config(marcos, ms, entradas, cuota, PaginasAdmin(marcos, ms))
      ensures Inv(c, Vista()) && Abs(c, Vista()) == map[] && Arranque(c, Vista())
      ensures Cache.EdadesReales(Vista().cache, []) && Cache.Sincronizada(Vista().cache)
              && Cache.CuotaRespetada(Vista().cache, cuota)
    {
      AdminCabe(marcos, ms);
      ProductoMonotono(ms, 1, marcos);
      ProductoMonotono(marcos, 1, ms);
      c := Config(marcos, ms, entradas, cuota, PaginasAdmin(marcos, ms));
      memoria := new Byte[marcos * ms](_ => 0);
      indice := new seq<int>[marcos](_ => []);
      var nueva := new CacheLru(entradas, cuota, ms);
      cache := nueva;
      new;
      hide TablaDe, PaginasDe, EntradaEn;
      IniciarTabla();
      EstadoInicial(c, Vista());
    }

    /** `inicializar_tabla`. */
    method IniciarTabla()
      requires Valido()
      modifies memoria
      ensures TablaInicial(c, Vista().mapa.tabla)
      ensures Vista()
          == old(Vista()).(mapa := Mapa(Vista().mapa.tabla, old(Vista()).mapa.indice), paginas := Vista().paginas)
    {
      hide TablaDe, PaginasDe, Empalme, I32;
      TablaCabe(c);
      var i := 0;
      while i < c.marcos
        invariant 0 <= i <= c.marcos
        invariant forall f :: 0 <= f < i ==> TablaDe(memoria[..], c.marcos)[f] == Entrada(f, LIBRE, LIBRE)
      {
        EntradaNueva(memoria[..], c.marcos, i, Entrada(i, LIBRE, LIBRE));
        Copiar(memoria, ENTRADA * i, I32(i) + I32(LIBRE) + I32(LIBRE));
        i := i + 1;
      }
      i := 0;
      while i < c.admin
        invariant 0 <= i <= c.admin
        invariant forall f :: 0 <= f < c.marcos ==>
                    TablaDe(memoria[..], c.marcos)[f]
                    == if f < i then Entrada(f, ADMIN, f) else Entrada(f, LIBRE, LIBRE)
      {
        ConEntradaTabla(memoria[..], c.marcos, i, ADMIN, i);
        EscribirFila(i, ADMIN, i);
        i := i + 1;
      }
    }

    // ---- the table ----

    /** `tabla[f]`. */
    function Fila(f: nat): (x: Entrada)
      requires Valido() && f < c.marcos
      reads memoria
    {
      TablaCabe(c);
      var a := ENTRADA * f;
      Entrada(DeI32(memoria[a..a + 4]), DeI32(memoria[a + 4..a + 8]), DeI32(memoria[a + 8..a + 12]))
    }

    lemma FilaEsTabla(f: nat)
      requires Valido() && f < c.marcos
      ensures Fila(f) == Vista().mapa.tabla[f]
    {
      TablaCabe(c);
      var a := ENTRADA * f;
      hide DeI32, PaginasDe;
      assert memoria[..][a..a + 4] == memoria[a..a + 4];
      assert memoria[..][a + 4..a + 8] == memoria[a + 4..a + 8];
      assert memoria[..][a + 8..a + 12] == memoria[a + 8..a + 12];
    }

    /** `tabla[f].PID = pid; tabla[f].pagina = pagina`. */
    method EscribirFila(f: nat, pid: int, pagina: int)
      requires Valido() && f < c.marcos
      requires -TOPE31 <= pid < TOPE31 && -TOPE31 <= pagina < TOPE31
      modifies memoria
      ensures var t := old(Vista()).mapa.tabla;
              Vista() == old(Vista()).(mapa := Mapa(t[f := t[f].(pid := pid, pagina := pagina)],
                  old(Vista()).mapa.indice))
    {
      TablaCabe(c);
      ConEntradaTabla(memoria[..], c.marcos, f, pid, pagina);
      ConEntradaPaginas(memoria[..], c, f, pid, pagina);
      hide Empalme, TablaDe, PaginasDe, I32;
      Copiar(memoria, ENTRADA * f + 4, I32(pid));
      Copiar(memoria, ENTRADA * f + 8, I32(pagina));
    }

    /** `memcpy` into a user frame. */
    method EscribirEnMarco(f: nat, off: nat, d: seq<Byte>)
      requires Valido() && c.admin <= f < c.marcos && off + |d| <= c.ms
      modifies memoria
      ensures |old(Vista()).paginas[f]| == c.ms
      ensures Vista() == ConMarco(old(Vista()), f, Empalme(old(Vista()).paginas[f], off, d))
    {
      hide Empalme, TablaDe, PaginasDe, ConfigValida;
      TablaCabe(c);
      PaginaEnMemoria(memoria[..], c, f);
      EscrituraProtegida(memoria[..], c, f, off, d);
      Copiar(memoria, f * c.ms + off, d);
    }

    /** The bytes of a user frame. */
    method LeerMarco(f: nat, inicio: nat, largo: nat) returns (d: seq<Byte>)
      requires Valido() && c.admin <= f < c.marcos && inicio + largo <= c.ms
      ensures |Vista().paginas[f]| == c.ms && d == Vista().paginas[f][inicio..inicio + largo]
    {
      hide TablaDe, PaginasDe;
      PaginaEnMemoria(memoria[..], c, f);
      var a := f * c.ms;
      d := memoria[a + inicio..a + inicio + largo];
      TramoDeTramo(memoria[..], a, c.ms, inicio, largo);
    }

    method MarcosLibres() returns (libres: nat)
      requires Valido()
      ensures libres == Libres(Vista().mapa.tabla, c.marcos)
    {
      hide TablaDe, PaginasDe;
      ghost var t := Vista().mapa.tabla;
      libres := 0;
      var i := 0;
      while i < c.marcos
        invariant 0 <= i <= c.marcos
        invariant libres == Libres(t, i)
      {
        FilaEsTabla(i);
        if Fila(i).pid == LIBRE {
          libres := libres + 1;
        }
        i := i + 1;
      }
    }

    method PaginasDeProceso(pid: int) returns (cantidad: nat)
      requires Valido()
      ensures cantidad == Paginas(Vista().mapa.tabla, pid, c.marcos)
    {
      hide TablaDe, PaginasDe;
      ghost var t := Vista().mapa.tabla;
      cantidad := 0;
      var i := 0;
      while i < c.marcos
        invariant 0 <= i <= c.marcos
        invariant cantidad == Paginas(t, pid, i)
      {
        FilaEsTabla(i);
        if Fila(i).pid == pid {
          cantidad := cantidad + 1;
        }
        i := i + 1;
      }
    }

    // ---- the index ----

    method BuscarEnIndice(pos: nat, pid: int, pagina: int) returns (frame: int)
      requires Valido() && pos < c.marcos && EnRango(Vista().mapa.tabla, indice[pos])
      ensures frame == Buscar(Vista().mapa.tabla, indice[pos], pid, pagina)
    {
      hide TablaDe, PaginasDe;
      ghost var t := Vista().mapa.tabla;
      var cubeta := indice[pos];
      var i, encontrado := 0, false;
      frame := -1;
      while !encontrado && i < |cubeta|
        invariant 0 <= i <= |cubeta|
        invariant !encontrado ==> frame == -1 && Buscar(t, cubeta, pid, pagina) == Buscar(t, cubeta[i..], pid, pagina)
        invariant encontrado ==> frame == Buscar(t, cubeta, pid, pagina)
        decreases !encontrado, |cubeta| - i
      {
        FilaEsTabla(cubeta[i]);
        if Fila(cubeta[i]).pid == pid && Fila(cubeta[i]).pagina == pagina {
          frame := cubeta[i];
          encontrado := true;
        } else {
          assert cubeta[i..][1..] == cubeta[i + 1..];
          i := i + 1;
        }
      }
    }

    /** The hash and the search of its bucket. */
    method Localizar(pid: int, pagina: int) returns (frame: int)
      requires Valido() && Acuerdo(Vista().mapa) && Clave(pid, pagina)
      ensures frame == Marco(Vista().mapa, pid, pagina)
    {
      var pos := CalcularPosicion(c.marcos, pid, pagina);
      CubetaEnRango(Vista().mapa, pos);
      hide Acuerdo, TablaDe, PaginasDe;
      frame := BuscarEnIndice(pos, pid, pagina);
    }

    method AgregarFrameEnIndice(pos: nat, frame: int)
      requires Valido() && pos < c.marcos
      modifies indice
      ensures indice[..] == old(indice[..])[pos := old(indice[pos]) + [frame]]
    {
      indice[pos] := indice[pos] + [frame];
    }

    method BorrarDeIndice(pos: nat, frame: int)
      requires Valido() && pos < c.marcos && frame in indice[pos]
      modifies indice
      ensures indice[..] == old(indice[..])[pos := Quitar(old(indice[pos]), frame)]
    {
      var cubeta := indice[pos];
      var i := 0;
      while cubeta[i] != frame
        invariant 0 <= i < |cubeta| && frame in cubeta[i..]
        invariant forall j :: 0 <= j < i ==> cubeta[j] != frame
        decreases |cubeta| - i
      {
        i := i + 1;
      }
      QuitarEs(cubeta, frame, i);
      indice[pos] := cubeta[..i] + cubeta[i + 1..];
    }

    /** The table entry and the index entry of a page that takes frame `f`. */
    method TomarMarco(f: nat, pid: int, pagina: int)
      requires Valido() && f < c.marcos && Clave(pid, pagina)
      modifies memoria, indice
      ensures Vista() == old(Vista()).(mapa := Ocupar(old(Vista()).mapa, f, pid, pagina))
    {
      ClaveAritmetica(pid, pagina);
      hide TablaDe, PaginasDe, Clave;
      var pos := CalcularPosicion(c.marcos, pid, pagina);
      EscribirFila(f, pid, pagina);
      AgregarFrameEnIndice(pos, f);
    }

    // ---- placement ----

    /** The scan for a free entry at or after `desde`; `marcos` when there is none. */
    method PrimeraFilaLibre(desde: nat) returns (f: nat)
      requires Valido() && desde <= c.marcos
      ensures f == PrimeroLibre(Vista().mapa.tabla, desde)
    {
      ghost var t := Vista().mapa.tabla;
      hide Vista, Fila, PrimeroLibre;
      var encontrado := false;
      f := desde;
      while !encontrado && f < c.marcos
        invariant desde <= f <= c.marcos
        invariant forall g :: desde <= g < f ==> t[g].pid != LIBRE
        invariant encontrado ==> f < c.marcos && t[f].pid == LIBRE
        decreases !encontrado, c.marcos - f
      {
        FilaEsTabla(f);
        if Fila(f).pid == LIBRE {
          encontrado := true;
        } else {
          f := f + 1;
        }
      }
    }

    /** Linear probing from `pos` to the end, then from 0. */
    method HallarHueco(pos: nat) returns (f: nat)
      requires Valido() && pos <= c.marcos && Libres(Vista().mapa.tabla, c.marcos) > 0
      ensures f == Hueco(Vista().mapa.tabla, pos)
    {
      hide Vista, PrimeroLibre;
      f := PrimeraFilaLibre(pos);
      if f == c.marcos {
        f := PrimeraFilaLibre(0);
      }
    }

    /** `buscar_espacioV2`: all the pages or none. */
    method BuscarEspacioV2(pid: nat, n: nat) returns (paginas: int, direccion: int)
      requires Valido() && Inv(c, Vista()) && n > 0
      requires Numerables(c, Vista(), pid, n)
      modifies memoria, indice
      ensures n > Libres(old(Vista()).mapa.tabla, c.marcos) ==> Vista() == old(Vista()) && paginas == direccion == -1
      ensures n <= Libres(old(Vista()).mapa.tabla, c.marcos) ==>
                Vista() == Admitir(c, old(Vista()), pid, n)
                && paginas == n && direccion == DireccionFisica(c, Marco(Vista().mapa, pid, 0))
                && Colocacion.EsDireccionDe(c, Vista(), pid, 0, direccion)
    {
      ghost var e := Vista();
      hide Inv, Acuerdo, Vista, Clave, Colocar, Libres;
      Forma(c, e);
      var libres := MarcosLibres();
      if n > libres {
        return -1, -1;
      }
      AdmitirEs(e, pid, n);
      ColocarPaginas(pid, n);
      var frame := Localizar(pid, 0);
      AdmitirMapea(c, e, pid, n);
      assert Mapeada(c, Vista(), pid, 0);
      Colocacion.DireccionDePagina(c, Vista(), pid, 0);
      return n, frame * c.ms;
    }

    method ColocarPaginas(pid: nat, n: nat)
      requires Valido() && Colocables(Vista().mapa, pid, 0, n)
      modifies memoria, indice
      ensures Vista() == old(Vista()).(mapa := Colocar(old(Vista()).mapa, pid, 0, n))
    {
      ghost var e := Vista();
      hide Acuerdo, Vista, Clave, Colocables, Colocar, Siguiente, Libres, Hueco, HuecoDePagina, Ocupar,
        CalcularPosicion;
      var i := 0;
      while i < n
        invariant 0 <= i <= n
        invariant Vista().paginas == e.paginas && Vista().cache == e.cache
        invariant Colocables(Vista().mapa, pid, i, n)
        invariant Colocar(Vista().mapa, pid, i, n) == Colocar(e.mapa, pid, 0, n)
      {
        PasoColocar(Vista().mapa, pid, i, n);
        var f := HallarHueco(CalcularPosicion(c.marcos, pid, i));
        TomarMarco(f, pid, i);
        i := i + 1;
      }
      ColocarFin(Vista().mapa, pid, n);
    }

    lemma PasoColocar(m: Mapa, pid: nat, i: nat, n: nat)
      requires Colocables(m, pid, i, n) && i < n
      ensures Clave(pid, i) && |m.tabla| > 0 && Libres(m.tabla, |m.tabla|) > 0
      ensures var f := Hueco(m.tabla, CalcularPosicion(|m.tabla|, pid, i));
              && |m.indice| == |m.tabla|
              && Colocables(Ocupar(m, f, pid, i), pid, i + 1, n)
              && Colocar(m, pid, i, n) == Colocar(Ocupar(m, f, pid, i), pid, i + 1, n)
    {
      SiguienteEs(m, pid, i);
      assert Acuerdo(m);
      hide Acuerdo, Siguiente, Hueco, HuecoDePagina, Ocupar, CalcularPosicion;
    }

    lemma ColocarFin(m: Mapa, pid: nat, n: nat)
      requires Colocables(m, pid, n, n)
      ensures Colocar(m, pid, n, n) == m
    {
    }

    lemma AdmitirEs(e: Estado, pid: nat, n: nat)
      requires Inv(c, e) && Colocables(e.mapa, pid, 0, n)
      ensures Admitir(c, e, pid, n) == e.(mapa := Colocar(e.mapa, pid, 0, n))
    {
    }

    lemma SiguienteEs(m: Mapa, pid: nat, i: nat)
      requires Acuerdo(m) && Libres(m.tabla, |m.tabla|) > 0 && Clave(pid, i)
      ensures HuecoDePagina(m.tabla, pid, i) == Hueco(m.tabla, CalcularPosicion(|m.tabla|, pid, i))
      ensures Siguiente(m, pid, i) == Ocupar(m, HuecoDePagina(m.tabla, pid, i), pid, i)
    {
    }

    method FormatearMarco(f: nat)
      requires Valido() && c.admin <= f < c.marcos
      modifies memoria
      ensures |old(Vista()).paginas[f]| == c.ms
      ensures Vista() == ConMarco(old(Vista()), f, Formateada(c, old(Vista()).paginas[f]))
    {
      hide TablaDe, PaginasDe, Empalme;
      EscribirEnMarco(f, 0, Heap.Cabecera(c.ms - Heap.CAB, true));
    }

    /** The tail both page requests share: table, index and first heap header. */
    method EntregarPagina(f: nat, pid: nat, n: nat)
      requires Valido() && Inv(c, Vista()) && f < c.marcos && Vista().mapa.tabla[f].pid == LIBRE && Clave(pid, n)
      modifies memoria, indice
      ensures Vista() == AgregarPagina(c, old(Vista()), f, pid, n)
    {
      ghost var e := Vista();
      AgregarPaginaEs(e, f, pid, n);
      hide Inv, Acuerdo, TablaDe, PaginasDe, Formateada, Ocupar, AgregarPagina, Clave;
      TomarMarco(f, pid, n);
      FormatearMarco(f);
    }

    lemma AgregarPaginaEs(e: Estado, f: nat, pid: int, n: int)
      requires Inv(c, e) && f < c.marcos && e.mapa.tabla[f].pid == LIBRE && Clave(pid, n)
      ensures c.admin <= f && |e.paginas[f]| == c.ms && |e.mapa.indice| == |e.mapa.tabla|
      ensures AgregarPagina(c, e, f, pid, n) ==
              Estado(Ocupar(e.mapa, f, pid, n), e.paginas[f := Formateada(c, e.paginas[f])], e.cache)
    {
    }

    method AsignarNuevaPagina(pid: nat) returns (pagina: int)
      requires Valido() && Inv(c, Vista()) && Clave(pid, Cuantas(c, Vista(), pid))
      modifies memoria, indice
      ensures (Vista(), pagina) == NuevaPagina(c, old(Vista()), pid)
    {
      hide Inv, Acuerdo, Vista, AgregarPagina, Hueco, Clave;
      Forma(c, Vista());
      var libres := MarcosLibres();
      if libres >= 1 {
        var n := PaginasDeProceso(pid);
        var f := HallarHueco(CalcularPosicion(c.marcos, pid, n));
        EntregarPagina(f, pid, n);
        return n;
      } else {
        return -1;
      }
    }

    method BuscarEspacioParaHeap(pid: nat) returns (pagina: int)
      requires Valido() && Inv(c, Vista()) && Clave(pid, Cuantas(c, Vista(), pid))
      modifies memoria, indice
      ensures (Vista(), pagina) == PaginaDeHeap(c, old(Vista()), pid)
    {
      hide Inv, Acuerdo, Vista, AgregarPagina, PrimeroLibre, Clave;
      Forma(c, Vista());
      var f := PrimeraFilaLibre(0);
      if f == c.marcos {
        return -1;
      }
      var n := PaginasDeProceso(pid);
      EntregarPagina(f, pid, n);
      return n;
    }

    // ---- the cache, seen from the server ----

    method EstaEnCache(pid: int, pagina: int) returns (esta: bool)
      requires Valido()
      ensures esta == Cache.Presente(Vista().cache, pid, pagina)
    {
      hide TablaDe, PaginasDe;
      esta := cache.EstaEnCache(pid, pagina);
    }

    method LeerDeCache(pid: int, pagina: int, inicio: nat, largo: nat) returns (d: seq<Byte>)
      requires Valido() && Cache.Presente(Vista().cache, pid, pagina) && inicio + largo <= c.ms
      ensures var i := Cache.Linea(Vista().cache, pid, pagina);
              |Vista().cache[i].contenido| == c.ms && d == Vista().cache[i].contenido[inicio..inicio + largo]
    {
      hide TablaDe, PaginasDe, Cache.Ultima;
      var i := cache.BuscarEntrada(pid, pagina);
      d := cache.LeerLinea(i, inicio, largo);
    }

    method Acierto(pid: int, pagina: int)
      requires Valido() && Cache.Presente(Vista().cache, pid, pagina)
      modifies cache.admin
      ensures var k := old(Vista()).cache;
              var i := Cache.Linea(k, pid, pagina);
              Vista() == old(Vista()).(cache := Cache.Reusar(k, i, k[i].contenido))
    {
      hide TablaDe, PaginasDe, Cache.Ultima, Cache.Reusar;
      cache.Rejuvenecer(pid, pagina);
    }

    method AciertoConEscritura(pid: int, pagina: int, off: nat, d: seq<Byte>)
      requires Valido() && Cache.Presente(Vista().cache, pid, pagina) && off + |d| <= c.ms
      modifies cache.admin, cache.contenido
      ensures var k := old(Vista()).cache;
              var i := Cache.Linea(k, pid, pagina);
              |k[i].contenido| == c.ms
              && Vista() == old(Vista()).(cache := Cache.Reusar(k, i, Empalme(k[i].contenido, off, d)))
    {
      hide TablaDe, PaginasDe, Cache.Ultima, Cache.Reusar, Empalme;
      cache.Actualizar(pid, pagina, off, d);
    }

    method Fallo(pid: int, pagina: int, f: nat)
      requires Valido() && Cache.Sana(Vista().cache) && pid >= 0 && c.admin <= f < c.marcos
      modifies cache.cache, cache.admin, cache.contenido
      ensures Vista() == old(Vista()).(cache :=
                Cache.Incorporar(old(Vista()).cache, c.cuota, pid, pagina, old(Vista()).paginas[f]))
    {
      hide TablaDe, PaginasDe, Cache.Sana, Cache.Incorporar;
      var bytes := LeerMarco(f, 0, c.ms);
      assert bytes == Vista().paginas[f];
      cache.Fallo(pid, pagina, bytes);
    }

    // ---- reading and writing ----

    /** `lectura`, and `lecturaV2` inside one page. */
    method Lectura(pid: nat, pagina: int, inicio: nat, largo: nat) returns (r: Opcion<seq<Byte>>)
      requires Valido() && Inv(c, Vista()) && Clave(pid, pagina) && inicio + largo <= c.ms
      modifies cache.cache, cache.admin, cache.contenido
      ensures (Vista(), r) == Modelo.Lectura(c, old(Vista()), pid, pagina, inicio, largo)
    {
      ghost var e := Vista();
      hide Inv, Acuerdo, Clave, Vista, Cache.Sana, Cache.Reusar, Cache.Incorporar, Cache.Ultima, Publicar, Contenido,
        Marco;
      Forma(c, e);
      var esta := EstaEnCache(pid, pagina);
      if !esta {
        var frame := Localizar(pid, pagina);
        if frame < 0 {
          MarcoCorrecto(e.mapa, pid, pagina);
          return Heap.Nada;
        }
        MarcoUsuario(c, e, pid, pagina);
        var instruccion := LeerMarco(frame, inicio, largo);
        Fallo(pid, pagina, frame);
        r := Heap.Algo(instruccion);
      } else {
        var instruccion := LeerDeCache(pid, pagina, inicio, largo);
        Acierto(pid, pagina);
        r := Heap.Algo(instruccion);
      }
    }

    method Escritura(pid: nat, pagina: int, off: nat, d: seq<Byte>)
      requires Valido() && Inv(c, Vista()) && Mapeada(c, Vista(), pid, pagina) && off + |d| <= c.ms
      modifies memoria, cache.cache, cache.admin, cache.contenido
      ensures Vista() == Modelo.Escritura(c, old(Vista()), pid, pagina, off, d)
    {
      ghost var e := Vista();
      hide Inv, Acuerdo, Clave, Vista, Cache.Sana, Cache.Reusar, Cache.Incorporar, Cache.Ultima, Publicar, Contenido,
        Marco, Empalme;
      Forma(c, e);
      MarcoUsuario(c, e, pid, pagina);
      var frame := Localizar(pid, pagina);
      EscribirEnMarco(frame, off, d);
      var esta := EstaEnCache(pid, pagina);
      if esta {
        AciertoConEscritura(pid, pagina, off, d);
      } else {
        Fallo(pid, pagina, frame);
      }
    }

    // ---- giving pages back ----

    method LiberarPagina(pid: nat, pagina: int)
      requires Valido() && Inv(c, Vista()) && Mapeada(c, Vista(), pid, pagina)
      modifies memoria, indice, cache.cache
      ensures Vista() == Modelo.LiberarPagina(c, old(Vista()), pid, pagina)
    {
      ghost var e := Vista();
      Forma(c, e);
      MarcoUsuario(c, e, pid, pagina);
      FrameEnCubeta(e.mapa, Marco(e.mapa, pid, pagina));
      hide Inv, Acuerdo, Clave, TablaDe, PaginasDe, Quitar, CalcularPosicion;
      var pos := CalcularPosicion(c.marcos, pid, pagina);
      var frame := Localizar(pid, pagina);
      EscribirFila(frame, LIBRE, LIBRE);
      BorrarDeIndice(pos, frame);
      cache.OlvidarPagina(pid, pagina);
    }

    /** `borrar_de_indice` always finds the frame it is asked to remove. */
    lemma FrameEnCubeta(m: Mapa, f: nat)
      requires Acuerdo(m) && f < |m.tabla| && Clave(m.tabla[f].pid, m.tabla[f].pagina)
      ensures f in m.indice[CalcularPosicion(|m.tabla|, m.tabla[f].pid, m.tabla[f].pagina)]
      ensures m.tabla[f].frame == f
    {
      assert EnCubeta(m.tabla, CalcularPosicion(|m.tabla|, m.tabla[f].pid, m.tabla[f].pagina), f);
      assert EntradaSana(m.tabla, f);
    }

    /** One entry of the loop of `finalizar_proceso`. */
    method VaciarMarco(i: nat)
      requires Valido() && Acuerdo(Vista().mapa) && i < c.marcos
      requires Clave(Vista().mapa.tabla[i].pid, Vista().mapa.tabla[i].pagina)
      modifies memoria, indice
      ensures Vista() == old(Vista()).(mapa := Vaciar(old(Vista()).mapa, i))
    {
      FrameEnCubeta(Vista().mapa, i);
      FilaEsTabla(i);
      hide Acuerdo, Clave, TablaDe, PaginasDe, Quitar, CalcularPosicion;
      var pos := CalcularPosicion(c.marcos, Fila(i).pid, Fila(i).pagina);
      BorrarDeIndice(pos, Fila(i).frame);
      EscribirFila(i, LIBRE, LIBRE);
    }

    method FinalizarProceso(pid: nat)
      requires Valido() && Inv(c, Vista())
      modifies memoria, indice, cache.cache, cache.admin, cache.contenido
      ensures Vista() == Modelo.FinalizarProceso(c, old(Vista()), pid)
    {
      ghost var e := Vista();
      hide Inv, Acuerdo, Clave, TablaDe, PaginasDe, Vaciar;
      Forma(c, e);
      var i := 0;
      while i < c.marcos
        invariant 0 <= i <= c.marcos
        invariant Vista().paginas == e.paginas && Vista().cache == e.cache
        invariant Acuerdo(Vista().mapa) && Finalizar(Vista().mapa, pid, i) == Finalizar(e.mapa, pid, 0)
      {
        FilaEsTabla(i);
        if Fila(i).pid == pid {
          ClaveDeUsuario(Vista().mapa, i);
          VaciarConserva(Vista().mapa, i);
          VaciarMarco(i);
        }
        i := i + 1;
      }
      cache.FlushProcess(pid);
    }

    lemma ClaveDeUsuario(m: Mapa, i: nat)
      requires Acuerdo(m) && i < |m.tabla| && m.tabla[i].pid >= 0
      ensures Clave(m.tabla[i].pid, m.tabla[i].pagina)
    {
      assert EntradaSana(m.tabla, i);
    }

    method Flush()
      requires Valido() && Inv(c, Vista())
      modifies cache.cache, cache.admin, cache.contenido
      ensures Vista() == Modelo.Flush(c, old(Vista()))
    {
      hide Inv, TablaDe, PaginasDe, Cache.Vaciada;
      cache.Flush();
    }

    // ---- the heap of a page ----

    /** The two header writes of a split. */
    method PartirBloque(f: nat, off: nat, tam: nat, espacio: nat, ghost bs: seq<Heap.Bloque>, ghost k: nat)
      requires Valido() && c.admin <= f < c.marcos && Vista().paginas[f] == Heap.Codificar(bs)
      requires k < |bs| && Heap.Cabe(bs[k], espacio) && off == Heap.Lugar(bs, k) && tam == |bs[k].datos|
      modifies memoria
      ensures Vista() == ConMarco(old(Vista()), f, Heap.Codificar(Heap.Partir(bs, k, espacio)))
    {
      hide Vista, Heap.Codificar, Heap.Partir, Heap.Lugar, Empalme, Heap.Cabecera, ConMarco;
      LargoDeMarco(f);
      Heap.PartirBytes(bs, k, espacio);
      ghost var e := Vista();
      EscribirEnMarco(f, off, Heap.Cabecera(espacio, false));
      ConMarcoDos(e, f, Vista().paginas[f], Heap.Codificar(Heap.Partir(bs, k, espacio)));
      EscribirEnMarco(f, off + Heap.CAB + espacio, Heap.Cabecera(tam - espacio - Heap.CAB, true));
    }

    /** `*(heapMetadata *)(memoria + direccion)` at `off` inside frame `f`. */
    method LeerCabecera(f: nat, off: nat) returns (tam: nat, libre: bool)
      requires Valido() && c.admin <= f < c.marcos && off + Heap.CAB <= c.ms
      ensures |Vista().paginas[f]| == c.ms
      ensures tam == De32(Vista().paginas[f][off..off + 4]) && libre == (Vista().paginas[f][off + 4] == 1)
    {
      hide Vista;
      var h := LeerMarco(f, off, 4);
      var b := LeerMarco(f, off + 4, 1);
      return De32(h), b[0] == 1;
    }

    /** The header of block `k`, and where the next one is. */
    method LeerBloque(f: nat, off: nat, ghost bs: seq<Heap.Bloque>, ghost k: nat) returns (tam: nat, libre: bool)
      requires Valido() && c.admin <= f < c.marcos && Vista().paginas[f] == Heap.Codificar(bs)
      requires k <= |bs| && off == Heap.Lugar(bs, k) < c.ms
      ensures k < |bs| && tam == |bs[k].datos| && libre == bs[k].libre
      ensures Heap.Lugar(bs, k + 1) == off + Heap.CAB + tam <= c.ms
    {
      hide Vista, Heap.Codificar, Heap.Lugar, De32;
      LargoDeMarco(f);
      Heap.PasoBusca(bs, k);
      tam, libre := LeerCabecera(f, off);
    }

    /** `buscar_espacio_libre`: walks the headers of the page in frame `f`, whose blocks are `bs`. */
    method BuscarEspacioLibre(espacio: nat, f: nat, ghost bs: seq<Heap.Bloque>) returns (direccion: int)
      requires Valido() && c.admin <= f < c.marcos && Vista().paginas[f] == Heap.Codificar(bs)
      modifies memoria
      ensures direccion == Heap.Direccion(bs, espacio)
      ensures Vista() == ConMarco(old(Vista()), f, Heap.Codificar(Heap.Reservar(bs, espacio)))
    {
      ghost var e := Vista();
      hide Valido, Vista, Heap.Codificar, Heap.Lugar, Heap.Direccion, Heap.Reservar, Heap.Partir, Heap.PrimerAjuste,
        De32, Empalme, ConMarco;
      LargoDeMarco(f);
      ConMarcoDos(e, f, [], []);
      var corrimiento := 0;
      ghost var k := 0;
      Heap.LugarCero(bs);
      while corrimiento < c.ms
        invariant 0 <= k <= |bs| && corrimiento == Heap.Lugar(bs, k) <= c.ms
        invariant forall j :: 0 <= j < k ==> !Heap.Cabe(bs[j], espacio)
        invariant Vista() == e
        decreases c.ms - corrimiento
      {
        var tam, libre := LeerBloque(f, corrimiento, bs, k);
        if libre && tam >= espacio + Heap.CAB {
          Heap.ReservarEs(bs, espacio, k);
          PartirBloque(f, corrimiento, tam, espacio, bs, k);
          return corrimiento + Heap.CAB;
        }
        corrimiento := corrimiento + Heap.CAB + tam;
        k := k + 1;
      }
      Heap.LugarFinal(bs, k);
      Heap.ReservarEs(bs, espacio, |bs|);
      return -1;
    }

    lemma LargoDeMarco(f: nat)
      requires Valido() && c.admin <= f < c.marcos
      ensures |Vista().paginas[f]| == c.ms < TOPE31
    {
      PaginaEnMemoria(memoria[..], c, f);
    }

    /** The one write of a merge: the size in the first header. */
    method FundirBloques(f: nat, off: nat, tam: nat, tam2: nat, ghost hechos: seq<Heap.Bloque>,
        ghost resto: seq<Heap.Bloque>)
      requires Valido() && c.admin <= f < c.marcos && Vista().paginas[f] == Heap.Codificar(hechos + resto)
      requires Heap.Fundibles(resto) && tam == |resto[0].datos| && tam2 == |resto[1].datos|
      requires off == |Heap.Codificar(hechos)|
      modifies memoria
      ensures Vista()
          == ConMarco(old(Vista()), f, Heap.Codificar(hechos + ([Heap.Fundir(resto[0], resto[1])] + resto[2..])))
    {
      hide Vista, Heap.Codificar, Heap.Fundir, Heap.Compactar, Empalme, ConMarco;
      LargoDeMarco(f);
      Heap.PasoFunde(hechos, resto);
      EscribirEnMarco(f, off, U32((tam + tam2 + Heap.CAB) % TOPE32));
    }

    /** One turn of `clean_heap`: a merge that stays where it is, or a move to the next header. */
    method TurnoDeLimpieza(f: nat, corrimiento: nat, ghost hechos: seq<Heap.Bloque>, ghost resto: seq<Heap.Bloque>)
      returns (sigue: nat, ghost hechos2: seq<Heap.Bloque>, ghost resto2: seq<Heap.Bloque>)
      requires Valido() && c.admin <= f < c.marcos && Vista().paginas[f] == Heap.Codificar(hechos + resto)
      requires corrimiento == |Heap.Codificar(hechos)| < c.ms
      modifies memoria
      ensures Vista() == ConMarco(old(Vista()), f, Heap.Codificar(hechos2 + resto2))
      ensures sigue == |Heap.Codificar(hechos2)| && |Heap.Codificar(hechos2 + resto2)| == c.ms
      ensures hechos2 + Heap.Compactar(resto2) == hechos + Heap.Compactar(resto)
      ensures |resto2| < |resto| && sigue <= c.ms
    {
      hide Vista, Heap.Codificar, Heap.Compactar, Heap.Fundir, Empalme, ConMarco;
      LargoDeMarco(f);
      ConMarcoDos(Vista(), f, [], []);
      Heap.PasoLee(hechos, resto);
      var tam, libre := LeerCabecera(f, corrimiento);
      if libre && corrimiento + Heap.CAB + tam < c.ms {
        Heap.PasoMira(hechos, resto);
        var tam2, libre2 := LeerCabecera(f, corrimiento + Heap.CAB + tam);
        if libre2 {
          Heap.PasoFunde(hechos, resto);
          FundirBloques(f, corrimiento, tam, tam2, hechos, resto);
          return corrimiento, hechos, [Heap.Fundir(resto[0], resto[1])] + resto[2..];
        }
      }
      Heap.PasoAvanza(hechos, resto);
      return corrimiento + Heap.CAB + tam, hechos + [resto[0]], resto[1..];
    }

    /** `clean_heap` over frame `f`, whose blocks are `bs`. */
    method CleanHeap(f: nat, ghost bs: seq<Heap.Bloque>)
      requires Valido() && c.admin <= f < c.marcos && Vista().paginas[f] == Heap.Codificar(bs)
      modifies memoria
      ensures Vista() == ConMarco(old(Vista()), f, Heap.Codificar(Heap.Compactar(bs)))
    {
      ghost var e := Vista();
      hide Vista, Heap.Codificar, Heap.Compactar, Empalme, ConMarco;
      LargoDeMarco(f);
      ConMarcoDos(e, f, [], []);
      var corrimiento := 0;
      ghost var hechos, resto: seq<Heap.Bloque> := [], bs;
      Heap.PasoInicial(bs);
      while corrimiento < c.ms
        invariant corrimiento == |Heap.Codificar(hechos)| <= c.ms == |Heap.Codificar(hechos + resto)|
        invariant Vista() == ConMarco(e, f, Heap.Codificar(hechos + resto))
        invariant hechos + Heap.Compactar(resto) == Heap.Compactar(bs)
        decreases |resto|
      {
        ghost var antes := Heap.Codificar(hechos + resto);
        corrimiento, hechos, resto := TurnoDeLimpieza(f, corrimiento, hechos, resto);
        ConMarcoDos(e, f, antes, Heap.Codificar(hechos + resto));
      }
      Heap.PasoFinal(hechos, resto);
    }

    /** The end of `alocar` and `liberar`: the page as it is now goes to the cache. */
    method Refrescar(pid: nat, pagina: int, f: nat)
      requires Valido() && Cache.Sana(Vista().cache) && c.admin <= f < c.marcos
      modifies cache.cache, cache.admin, cache.contenido
      ensures Vista() == old(Vista()).(cache :=
                Cache.Acceder(old(Vista()).cache, c.cuota, pid, pagina, old(Vista()).paginas[f]))
    {
      hide Vista, Cache.Sana, Cache.Reusar, Cache.Incorporar, Cache.Ultima, Empalme;
      LargoDeMarco(f);
      var esta := EstaEnCache(pid, pagina);
      if esta {
        var bytes := LeerMarco(f, 0, c.ms);
        assert bytes == Vista().paginas[f];
        LargoDeLinea(pid, pagina, bytes);
        AciertoConEscritura(pid, pagina, 0, bytes);
      } else {
        Fallo(pid, pagina, f);
      }
    }

    lemma LargoDeLinea(pid: int, pagina: int, bytes: seq<Byte>)
      requires Valido() && Cache.Presente(Vista().cache, pid, pagina) && |bytes| == c.ms
      ensures var x := Vista().cache[Cache.Linea(Vista().cache, pid, pagina)].contenido;
              |x| == c.ms && Empalme(x, 0, bytes) == bytes
    {
      hide TablaDe, PaginasDe, Cache.Ultima;
      EmpalmeTotal(Vista().cache[Cache.Linea(Vista().cache, pid, pagina)].contenido, bytes);
    }

    /** `Publicar`, as the two assignments it is made of. */
    lemma PublicarEs(e: Estado, pid: nat, pagina: int, pg: seq<Byte>)
      requires Inv(c, e) && Mapeada(c, e, pid, pagina) && |pg| == c.ms
      ensures c.admin <= Marco(e.mapa, pid, pagina) < c.marcos == |e.paginas| && Cache.Sana(e.cache)
      ensures Publicar(c, e, pid, pagina, pg) ==
              ConMarco(e, Marco(e.mapa, pid, pagina), pg).(cache := Cache.Acceder(e.cache, c.cuota, pid, pagina, pg))
    {
      MarcoUsuario(c, e, pid, pagina);
    }

    method Liberar(pid: nat, pagina: int, direccion: nat)
      requires Valido() && Inv(c, Vista()) && DeBloques(c, Vista(), pid, pagina)
      requires Heap.BloqueEn(Bloques(c, Vista(), pid, pagina), direccion) < |Bloques(c, Vista(), pid, pagina)|
      modifies memoria, cache.cache, cache.admin, cache.contenido
      ensures Vista() == Asignacion.Liberar(c, old(Vista()), pid, pagina, direccion)
    {
      hide Valido, Vista, Inv, Acuerdo, Clave, Marco, Empalme, Publicar, Cache.Acceder, Cache.Sana, DeBloques, Bloques,
        Asignacion.Liberar, Heap.Codificar, Heap.Compactar, Heap.Soltar, Heap.BloqueEn, Heap.Lugar;
      ghost var e := Vista();
      ghost var cs := Heap.Soltar(Bloques(c, e, pid, pagina), Heap.BloqueEn(Bloques(c, e, pid, pagina), direccion));
      LiberarForma(e, pid, pagina, direccion);
      var frame := Localizar(pid, pagina);
      EscribirEnMarco(frame, direccion - Heap.CAB + 4, [1]);
      ConMarcoDos(e, frame, Heap.Codificar(cs), Heap.Codificar(Heap.Compactar(cs)));
      CleanHeap(frame, cs);
      Refrescar(pid, pagina, frame);
    }

    /** What `liberar` leaves, in terms of the frame the page is in. */
    lemma LiberarForma(e: Estado, pid: nat, pagina: int, direccion: nat)
      requires Inv(c, e) && DeBloques(c, e, pid, pagina)
      requires Heap.BloqueEn(Bloques(c, e, pid, pagina), direccion) < |Bloques(c, e, pid, pagina)|
      ensures Mapeada(c, e, pid, pagina) && Acuerdo(e.mapa) && Clave(pid, pagina) && Cache.Sana(e.cache)
      ensures var bs, f := Bloques(c, e, pid, pagina), Marco(e.mapa, pid, pagina);
        var cs := Heap.Soltar(bs, Heap.BloqueEn(bs, direccion));
        && c.admin <= f < c.marcos == |e.paginas| && |e.paginas[f]| == c.ms
        && Heap.CAB <= direccion <= c.ms && |Heap.Codificar(cs)| == c.ms
        && Heap.Codificar(cs) == Empalme(e.paginas[f], direccion - Heap.CAB + 4, [1])
        && Asignacion.Liberar(c, e, pid, pagina, direccion)
           == ConMarco(e, f, Heap.Codificar(Heap.Compactar(cs)))
                .(cache := Cache.Acceder(e.cache, c.cuota, pid, pagina, Heap.Codificar(Heap.Compactar(cs))))
    {
      var bs := Bloques(c, e, pid, pagina);
      var cs := Heap.Soltar(bs, Heap.BloqueEn(bs, direccion));
      Forma(c, e);
      MarcoUsuario(c, e, pid, pagina);
      Heap.SoltarBytes(bs, Heap.BloqueEn(bs, direccion));
      Heap.CompactarLargo(cs);
      hide Inv, Acuerdo, Cache.Sana, Clave, Marco, Empalme, Publicar, Cache.Acceder, Heap.Codificar, Heap.Compactar,
        Heap.Soltar, Heap.BloqueEn, Heap.Parsear, Heap.Lugar;
      PublicarEs(e, pid, pagina, Heap.Codificar(Heap.Compactar(cs)));
    }

    /** `alocar`: page after page, a new one at the end while there are frames. */
    method Alocar(pid: nat, pagina: nat, espacio: nat) returns (numero: nat, direccion: int)
      requires Valido() && Inv(c, Vista()) && HeapContiguo(c, Vista(), pid, pagina)
      modifies memoria, indice, cache.cache, cache.admin, cache.contenido
      ensures (Vista(), numero, direccion) == Asignacion.Alocar(c, old(Vista()), pid, pagina, espacio)
    {
      ghost var e0 := Vista();
      ghost var e := e0;
      hide Valido, Vista, Inv, HeapContiguo, Probada, BuscarLugar, Cuantas, Asignacion.MarcosLibres, Asignacion.Alocar,
        Cache.Acceder, Cache.Sana;
      numero := pagina;
      var frame, puntero := ProbarPagina(pid, numero, espacio, e);
      var noHayEspacio := false;
      while puntero < 0 && !noHayEspacio
        invariant Inv(c, e) && HeapContiguo(c, e, pid, numero)
        invariant BuscarLugar(c, e, pid, numero, espacio) == BuscarLugar(c, e0, pid, pagina, espacio)
        invariant Probada(e, pid, numero, espacio, frame, puntero) && puntero >= -1
        invariant noHayEspacio ==>
            puntero == -1 && Asignacion.MarcosLibres(c, e) == 0 && numero + 1 == Cuantas(c, e, pid)
        decreases !noHayEspacio, Asignacion.MarcosLibres(c, e), Cuantas(c, e, pid) - numero
      {
        ProbadaSinLugar(e, pid, numero, espacio, frame);
        noHayEspacio, numero, frame, puntero, e := SiguientePagina(pid, numero, frame, espacio, e);
      }
      direccion := puntero;
      AlocarFin(e0, e, pid, pagina, numero, espacio, frame, puntero);
      Refrescar(pid, numero, frame);
    }

    /** The page tried did not take the request: on to the next one, made if it has to be. */
    method SiguientePagina(pid: nat, numero: nat, frame: nat, espacio: nat, ghost e: Estado)
      returns (noHayEspacio: bool, numero2: nat, frame2: nat, puntero: int, ghost e2: Estado)
      requires Valido() && Inv(c, e) && HeapContiguo(c, e, pid, numero) && Vista() == e
      requires Probada(e, pid, numero, espacio, frame, -1)
      modifies memoria, indice
      ensures Inv(c, e2) && HeapContiguo(c, e2, pid, numero2)
      ensures BuscarLugar(c, e2, pid, numero2, espacio) == BuscarLugar(c, e, pid, numero, espacio)
      ensures Probada(e2, pid, numero2, espacio, frame2, puntero) && puntero >= -1
      ensures noHayEspacio ==>
                puntero == -1 && numero2 == numero && e2 == e
                && Asignacion.MarcosLibres(c, e) == 0 && numero + 1 == Cuantas(c, e, pid)
      ensures !noHayEspacio ==>
                Asignacion.MarcosLibres(c, e2) < Asignacion.MarcosLibres(c, e)
                || (e2 == e && Cuantas(c, e, pid) - numero2 < Cuantas(c, e, pid) - numero)
    {
      hide Vista, Inv, Clave, HeapContiguo, BuscarLugar, Cuantas, Asignacion.MarcosLibres, ConPagina, DeBloques,
        Bloques, Heap.Codificar, Heap.Direccion, Heap.Reservar, ConMarco, Marco;
      BuscarLugarAqui(c, e, pid, numero, espacio);
      CuentaEs(e, pid);
      e2 := e;
      var cantidad := PaginasDeProceso(pid);
      if numero + 1 == cantidad {
        ClaveDeCuenta(c, e, pid, numero);
        NuevaEs(e, pid, numero);
        var nueva := BuscarEspacioParaHeap(pid);
        if nueva < 0 {
          return true, numero, frame, -1, e;
        }
        BuscarLugarAgrega(c, e, pid, numero, espacio);
        e2 := ConPagina(c, e, pid, numero);
      } else {
        BuscarLugarSigue(c, e, pid, numero, espacio);
      }
      noHayEspacio, numero2 := false, numero + 1;
      frame2, puntero := ProbarPagina(pid, numero2, espacio, e2);
    }

    /** Page `numero` has been tried in state `e`: the state now is `e` with the split it took, if any. */
    ghost predicate Probada(e: Estado, pid: nat, numero: nat, espacio: nat, frame: nat, puntero: int)
      requires Valido() && Inv(c, e) && HeapContiguo(c, e, pid, numero)
      reads memoria, indice, cache.cache, cache.admin, cache.contenido
    {
      ContiguoPagina(c, e, pid, numero);
      var bs := Bloques(c, e, pid, numero);
      && frame == Marco(e.mapa, pid, numero) && c.admin <= frame < c.marcos == |e.paginas|
      && puntero == Heap.Direccion(bs, espacio)
      && Vista() == ConMarco(e, frame, Heap.Codificar(Heap.Reservar(bs, espacio)))
    }

    method ProbarPagina(pid: nat, numero: nat, espacio: nat, ghost e: Estado) returns (frame: nat, puntero: int)
      requires Valido() && Inv(c, e) && HeapContiguo(c, e, pid, numero) && Vista() == e
      modifies memoria
      ensures Probada(e, pid, numero, espacio, frame, puntero) && puntero >= -1
    {
      hide Vista, Inv, Acuerdo, Clave, Marco, HeapContiguo, ConMarco, Heap.Codificar, Heap.Direccion, Heap.Reservar,
        Heap.Parsear;
      ContiguoPagina(c, e, pid, numero);
      MarcoUsuario(c, e, pid, numero);
      Forma(c, e);
      frame := Localizar(pid, numero);
      puntero := BuscarEspacioLibre(espacio, frame, Bloques(c, e, pid, numero));
    }

    lemma ProbadaSinLugar(e: Estado, pid: nat, numero: nat, espacio: nat, frame: nat)
      requires Valido() && Inv(c, e) && HeapContiguo(c, e, pid, numero) && Probada(e, pid, numero, espacio, frame, -1)
      ensures Vista() == e
    {
      hide Vista, Inv, HeapContiguo, Heap.Codificar, Heap.Parsear, Marco;
      ContiguoPagina(c, e, pid, numero);
      var bs := Bloques(c, e, pid, numero);
      assert Heap.Reservar(bs, espacio) == bs;
      hide ConMarco;
      ConMarcoDos(e, frame, [], []);
    }

    lemma CuentaEs(e: Estado, pid: nat)
      requires Inv(c, e)
      ensures Cuantas(c, e, pid) == Paginas(e.mapa.tabla, pid, c.marcos)
    {
    }

    lemma NuevaEs(e: Estado, pid: nat, numero: nat)
      requires Inv(c, e) && HeapContiguo(c, e, pid, numero) && numero + 1 == Cuantas(c, e, pid)
          && Clave(pid, Cuantas(c, e, pid))
      ensures Asignacion.MarcosLibres(c, e) > 0 ==>
                PaginaDeHeap(c, e, pid).0 == ConPagina(c, e, pid, numero) && PaginaDeHeap(c, e, pid).1 >= 0
      ensures Asignacion.MarcosLibres(c, e) == 0 ==> PaginaDeHeap(c, e, pid) == (e, -1)
    {
      hide Acuerdo, Clave, HeapContiguo;
      var t := e.mapa.tabla;
      if Asignacion.MarcosLibres(c, e) > 0 {
        PaginaDeHeapEfecto(c, e, pid);
      } else if PrimeroLibre(t, 0) < |t| {
        LibreContado(t, PrimeroLibre(t, 0), |t|);
      }
    }

    /** Where the loop of `alocar` stops is where the search ends. */
    lemma AlocarFin(e0: Estado, e: Estado, pid: nat, pagina: nat, numero: nat, espacio: nat, frame: nat, puntero: int)
      requires Valido() && Inv(c, e0) && HeapContiguo(c, e0, pid, pagina) && Inv(c, e)
          && HeapContiguo(c, e, pid, numero)
      requires BuscarLugar(c, e, pid, numero, espacio) == BuscarLugar(c, e0, pid, pagina, espacio)
      requires Probada(e, pid, numero, espacio, frame, puntero)
      requires puntero == -1 ==> Asignacion.MarcosLibres(c, e) == 0 && numero + 1 == Cuantas(c, e, pid)
      ensures Cache.Sana(Vista().cache) && c.admin <= frame < c.marcos
      ensures Asignacion.Alocar(c, e0, pid, pagina, espacio) ==
              (Vista().(cache := Cache.Acceder(Vista().cache, c.cuota, pid, numero, Vista().paginas[frame])), numero,
                  puntero)
    {
      hide Vista, Inv, HeapContiguo, Heap.Codificar, Heap.Parsear, Heap.Reservar, Marco, Publicar, Cache.Acceder,
        Cache.Sana, Cuantas, Asignacion.MarcosLibres;
      ContiguoPagina(c, e, pid, numero);
      BuscarLugarAqui(c, e, pid, numero, espacio);
      var bs := Bloques(c, e, pid, numero);
      ReservarLargo(bs, espacio);
      PublicarEs(e, pid, numero, Heap.Codificar(Heap.Reservar(bs, espacio)));
      assert BuscarLugar(c, e, pid, numero, espacio) == (e, numero, puntero);
    }

    // ---- a new process ----

    /** `NUEVO_PROCESO`: frames for script and stack, then the copy of the script, page by page. */
    method NuevoProceso(pid: nat, mensaje: seq<Byte>, pila: nat) returns (paginas: int, direccion: int)
      requires Valido() && Inv(c, Vista())
      requires Numerables(c, Vista(), pid, PaginasDeGuion(|mensaje| + 2, c.ms) + pila)
      modifies memoria, indice, cache.cache, cache.admin, cache.contenido
      ensures (Vista(), paginas, direccion) == Modelo.NuevoProceso(c, old(Vista()), pid, mensaje, pila)
      ensures if paginas == -1 then direccion == -1 else EnMemoria(pid, 0, direccion)
    {
      hide Valido, Vista, Inv, Acuerdo, Clave, Marco, Admitir, Libres, PaginasDeGuion, CopiarGuion, TodasMapeadas,
        Modelo.NuevoProceso, Colocables, DireccionFisica, Trozos, Cola;
      ghost var e := Vista();
      NuevoProcesoEs(e, pid, mensaje, pila);
      var aux: seq<Byte> := mensaje + [0, 0];
      var usadas := CantidadDePaginas(|aux|);
      paginas, direccion := ReservarYCopiar(pid, aux, usadas, usadas + pila);
      Colocacion.DireccionDeNuevo(c, e, pid, mensaje, pila);
      if paginas != -1 {
        DireccionEnMemoria(pid, 0, direccion);
      }
    }

    /** The bytes of memory from the address on are those of the page, past the table and up to the end of a frame. */
    ghost predicate EnMemoria(pid: nat, pagina: int, direccion: int)
      requires Valido() && Inv(c, Vista())
      reads memoria, indice, cache.cache, cache.admin, cache.contenido
    {
      && c.admin * c.ms <= direccion && 0 <= direccion && direccion + c.ms <= memoria.Length
      && c.ms > 0 && direccion % c.ms == 0
      && Pagina(pid, pagina) in Abs(c, Vista())
      && memoria[direccion..direccion + c.ms] == Abs(c, Vista())[Pagina(pid, pagina)]
    }

    lemma DireccionEnMemoria(pid: nat, pagina: int, direccion: int)
      requires Valido() && Inv(c, Vista()) && Colocacion.EsDireccionDe(c, Vista(), pid, pagina, direccion)
      ensures EnMemoria(pid, pagina, direccion)
    {
      hide Inv, Abs, TablaDe, PaginasDe;
      PaginaEnMemoria(memoria[..], c, direccion / c.ms);
    }

    method ReservarYCopiar(pid: nat, aux: seq<Byte>, usadas: nat, total: nat) returns (paginas: int, direccion: int)
      requires Valido() && Inv(c, Vista()) && |aux| > 0 && c.ms > 0 && |Vista().mapa.tabla| == c.marcos
      requires usadas == PaginasDeGuion(|aux|, c.ms) <= total
      requires Numerables(c, Vista(), pid, total)
      requires total <= Libres(Vista().mapa.tabla, c.marcos) ==>
                 Colocables(Vista().mapa, pid, 0, total)
                     && TodasMapeadas(c, Admitir(c, Vista(), pid, total), pid, usadas)
      modifies memoria, indice, cache.cache, cache.admin, cache.contenido
      ensures total > Libres(old(Vista()).mapa.tabla, c.marcos) ==>
          Vista() == old(Vista()) && paginas == direccion == -1
      ensures total <= Libres(old(Vista()).mapa.tabla, c.marcos) ==>
                var e0 := Admitir(c, old(Vista()), pid, total);
                paginas == total && direccion == DireccionFisica(c, Marco(e0.mapa, pid, 0))
                && Vista() == CopiarGuion(c, e0, pid, Trozos(aux, c.ms), Cola(aux, c.ms))
    {
      hide Valido, Vista, Inv, Acuerdo, Clave, Marco, Admitir, Libres, PaginasDeGuion, CopiarGuion, TodasMapeadas,
        Colocables, DireccionFisica, Trozos, Cola;
      paginas, direccion := BuscarEspacioV2(pid, total);
      if paginas > 0 {
        CopiarGuionEnPaginas(pid, aux, usadas);
      }
    }

    lemma NuevoProcesoEs(e: Estado, pid: nat, mensaje: seq<Byte>, pila: nat)
      requires Inv(c, e)
      requires Numerables(c, e, pid, PaginasDeGuion(|mensaje| + 2, c.ms) + pila)
      ensures c.ms > 0 && |e.mapa.tabla| == c.marcos
      ensures var guion: seq<Byte> := mensaje + [0, 0];
              var usadas := PaginasDeGuion(|guion|, c.ms);
              if usadas + pila > Libres(e.mapa.tabla, c.marcos) then
                Modelo.NuevoProceso(c, e, pid, mensaje, pila) == (e, -1, -1)
              else
                && Colocables(e.mapa, pid, 0, usadas + pila)
                && TodasMapeadas(c, Admitir(c, e, pid, usadas + pila), pid, usadas)
                && var e0 := Admitir(c, e, pid, usadas + pila);
                   Modelo.NuevoProceso(c, e, pid, mensaje, pila) ==
                   (CopiarGuion(c, e0, pid, Trozos(guion, c.ms), Cola(guion, c.ms)), usadas + pila,
                    DireccionFisica(c, Marco(e0.mapa, pid, 0)))
    {
      hide Inv, Acuerdo, Cache.Sana, Clave, Trozos, Cola, Admitir, Libres, PaginasDeGuion, CopiarGuion, TodasMapeadas,
        DireccionFisica;
      Forma(c, e);
      var guion: seq<Byte> := mensaje + [0, 0];
      var usadas := PaginasDeGuion(|guion|, c.ms);
      if usadas + pila <= Libres(e.mapa.tabla, c.marcos) {
        AdmitirMapea(c, e, pid, usadas + pila);
        MapeadasMenos(Admitir(c, e, pid, usadas + pila), pid, usadas + pila, usadas);
      }
    }

    lemma MapeadasMenos(e: Estado, pid: nat, n: nat, m: nat)
      requires Inv(c, e) && TodasMapeadas(c, e, pid, n) && m <= n
      ensures TodasMapeadas(c, e, pid, m)
    {
      hide Inv, Mapeada;
    }

    /** The copy loop and the write of the last piece. */
    method CopiarGuionEnPaginas(pid: nat, aux: seq<Byte>, usadas: nat)
      requires Valido() && Inv(c, Vista()) && |aux| > 0
      requires usadas == PaginasDeGuion(|aux|, c.ms)
      requires TodasMapeadas(c, Vista(), pid, usadas)
      modifies memoria, cache.cache, cache.admin, cache.contenido
      ensures Vista() == CopiarGuion(c, old(Vista()), pid, Trozos(aux, c.ms), Cola(aux, c.ms))
    {
      ghost var e := Vista();
      hide Valido, Vista, Inv, Modelo.Escritura, CopiarPaginas, Trozos, Cola, PaginasDeGuion, Acuerdo, Cache.Sana,
        Mapeada, TodasMapeadas;
      Forma(c, e);
      ghost var trozos := Trozos(aux, c.ms);
      MapeadasMenos(e, pid, usadas, usadas - 1);
      CopiarTrozos(pid, aux, usadas - 1);
      CopiarUltima(e, pid, trozos, Cola(aux, c.ms));
      var d := Resto(aux);
      Escritura(pid, usadas - 1, 0, d);
    }

    method Trozo(aux: seq<Byte>, i: nat) returns (d: seq<Byte>)
      requires c.ms > 0 && |aux| > 0 && i < PaginasDeGuion(|aux|, c.ms) - 1
      ensures d == Trozos(aux, c.ms)[i]
    {
      TrozoEs(aux, c.ms, i);
      d := aux[i * c.ms..i * c.ms + c.ms];
    }

    method Resto(aux: seq<Byte>) returns (d: seq<Byte>)
      requires c.ms > 0
      ensures d == Cola(aux, c.ms)
    {
      ColaEs(aux, c.ms);
      var cociente, resto := |aux| / c.ms, |aux| % c.ms;
      d := aux[cociente * c.ms..cociente * c.ms + resto];
    }

    method CopiarTrozos(pid: nat, aux: seq<Byte>, n: nat)
      requires Valido() && Inv(c, Vista()) && |aux| > 0 && n == PaginasDeGuion(|aux|, c.ms) - 1
      requires TodasMapeadas(c, Vista(), pid, n)
      modifies memoria, cache.cache, cache.admin, cache.contenido
      ensures Vista() == CopiarPaginas(c, old(Vista()), pid, Trozos(aux, c.ms), 0)
    {
      hide Valido, Vista, Inv, Modelo.Escritura, CopiarPaginas, Trozos, PaginasDeGuion, Acuerdo, Cache.Sana, Mapeada,
        TodasMapeadas;
      ghost var e := Vista();
      Forma(c, e);
      ghost var trozos := Trozos(aux, c.ms);
      var i := 0;
      while i < n
        invariant 0 <= i <= n
        invariant Inv(c, Vista()) && TodasMapeadas(c, Vista(), pid, |trozos|)
        invariant CopiarPaginas(c, Vista(), pid, trozos, i) == CopiarPaginas(c, e, pid, trozos, 0)
      {
        CopiarPaso(Vista(), pid, trozos, i);
        var d := Trozo(aux, i);
        Escritura(pid, i, 0, d);
        i := i + 1;
      }
      CopiarTermina(Vista(), pid, trozos);
    }

    lemma CopiarTermina(e: Estado, pid: nat, trozos: seq<seq<Byte>>)
      requires Inv(c, e) && TodasMapeadas(c, e, pid, |trozos|)
      requires forall k :: 0 <= k < |trozos| ==> |trozos[k]| == c.ms
      ensures CopiarPaginas(c, e, pid, trozos, |trozos|) == e
    {
      hide Inv;
    }

    /** `div` of a length by the frame size, rounded up. */
    method CantidadDePaginas(largo: nat) returns (usadas: nat)
      requires c.ms > 0
      ensures usadas == PaginasDeGuion(largo, c.ms)
    {
      var cociente, resto := largo / c.ms, largo % c.ms;
      usadas := cociente;
      if resto > 0 {
        usadas := usadas + 1;
      }
    }

    lemma ColaEs(guion: seq<Byte>, ms: nat)
      requires ms > 0
      ensures |guion| / ms * ms + |guion| % ms == |guion|
      ensures guion[|guion| / ms * ms..|guion| / ms * ms + |guion| % ms] == Cola(guion, ms)
    {
      FinDeLista(guion, |guion| / ms * ms, |guion| % ms);
    }

    lemma FinDeLista(s: seq<Byte>, x: nat, r: nat)
      requires x + r == |s|
      ensures s[x..x + r] == s[|s| - r..]
    {
    }

    lemma TrozoEs(guion: seq<Byte>, ms: nat, i: nat)
      requires ms > 0 && |guion| > 0 && i < PaginasDeGuion(|guion|, ms) - 1
      ensures i * ms + ms <= |guion| && Trozos(guion, ms)[i] == guion[i * ms..i * ms + ms]
    {
      var n := PaginasDeGuion(|guion|, ms) - 1;
      TrozosCaben(|guion|, ms);
      RegionCabe(n, ms, i);
      assert guion[..n * ms][i * ms..i * ms + ms] == guion[i * ms..i * ms + ms];
    }

    lemma CopiarPaso(e: Estado, pid: nat, trozos: seq<seq<Byte>>, i: nat)
      requires Inv(c, e) && i < |trozos| && TodasMapeadas(c, e, pid, |trozos|)
      requires forall k :: 0 <= k < |trozos| ==> |trozos[k]| == c.ms
      ensures Mapeada(c, e, pid, i)
      ensures var r := Modelo.Escritura(c, e, pid, i, 0, trozos[i]);
              && Inv(c, r) && r.mapa == e.mapa && TodasMapeadas(c, r, pid, |trozos|)
              && CopiarPaginas(c, e, pid, trozos, i) == CopiarPaginas(c, r, pid, trozos, i + 1)
    {
      assert Mapeada(c, e, pid, i);
      hide Inv, Modelo.Escritura;
      assert CopiarUna(c, e, pid, trozos, i) == Modelo.Escritura(c, e, pid, i, 0, trozos[i]);
    }

    lemma CopiarUltima(e: Estado, pid: nat, trozos: seq<seq<Byte>>, cola: seq<Byte>)
      requires Inv(c, e) && TodasMapeadas(c, e, pid, |trozos| + 1) && |cola| <= c.ms
      requires forall k :: 0 <= k < |trozos| ==> |trozos[k]| == c.ms
      ensures TodasMapeadas(c, e, pid, |trozos|)
      ensures var e1 := CopiarPaginas(c, e, pid, trozos, 0);
              Mapeada(c, e1, pid, |trozos|)
              && CopiarGuion(c, e, pid, trozos, cola) == Modelo.Escritura(c, e1, pid, |trozos|, 0, cola)
    {
      assert Mapeada(c, e, pid, |trozos|);
      hide Inv, Modelo.Escritura;
    }
  }
}
