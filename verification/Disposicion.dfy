/** Where things lie in memory: the page table at the start, 12 bytes an entry, the frames over the whole. */
module Disposicion {
  import opened Bytes
  import opened Tablas
  import opened Modelo
  import Cache

  const ENTRADA := 12

  predicate ConfigValida(c: Config) {
    Dimensiones(c) && c.admin == PaginasAdmin(c.marcos, c.ms) && c.marcos * c.ms < TOPE31
  }

  lemma TablaCabe(c: Config)
    requires ConfigValida(c)
    ensures ENTRADA * c.marcos <= c.admin * c.ms <= c.marcos * c.ms
  {
  }

  function EntradaEn(mem: seq<Byte>, i: nat): (e: Entrada)
    requires ENTRADA * i + ENTRADA <= |mem|
  {
    var a := ENTRADA * i;
    Entrada(DeI32(mem[a..a + 4]), DeI32(mem[a + 4..a + 8]), DeI32(mem[a + 8..a + 12]))
  }

  /** `(entrada_tabla *) memoria`. */
  function TablaDe(mem: seq<Byte>, n: nat): (t: seq<Entrada>)
    requires ENTRADA * n <= |mem|
    ensures |t| == n
    ensures forall i :: 0 <= i < n ==> t[i] == EntradaEn(mem, i)
  {
    seq(n, i requires 0 <= i < n => EntradaEn(mem, i))
  }

  /** A write above the table leaves the table as it was. */
  lemma TablaIntacta(mem: seq<Byte>, n: nat, pos: nat, d: seq<Byte>)
    requires ENTRADA * n <= pos && pos + |d| <= |mem|
    ensures TablaDe(Empalme(mem, pos, d), n) == TablaDe(mem, n)
  {
  }

  lemma EntradaAjena(mem: seq<Byte>, i: nat, pos: nat, d: seq<Byte>)
    requires ENTRADA * i + ENTRADA <= |mem| && pos + |d| <= |mem|
    requires pos + |d| <= ENTRADA * i || ENTRADA * i + ENTRADA <= pos
    ensures EntradaEn(Empalme(mem, pos, d), i) == EntradaEn(mem, i)
  {
    hide Empalme, DeI32;
    var a := ENTRADA * i;
    EmpalmeFuera(mem, pos, d, a, a + 4);
    EmpalmeFuera(mem, pos, d, a + 4, a + 8);
    EmpalmeFuera(mem, pos, d, a + 8, a + 12);
  }

  /** Memory after `tabla[f].PID = pid; tabla[f].pagina = pagina`. */
  function ConEntrada(mem: seq<Byte>, f: nat, pid: int, pagina: int): (r: seq<Byte>)
    requires ENTRADA * f + ENTRADA <= |mem|
    requires -TOPE31 <= pid < TOPE31 && -TOPE31 <= pagina < TOPE31
    ensures |r| == |mem|
  {
    Empalme(Empalme(mem, ENTRADA * f + 4, I32(pid)), ENTRADA * f + 8, I32(pagina))
  }

  lemma ConEntradaPropia(mem: seq<Byte>, f: nat, pid: int, pagina: int)
    requires ENTRADA * f + ENTRADA <= |mem|
    requires -TOPE31 <= pid < TOPE31 && -TOPE31 <= pagina < TOPE31
    ensures EntradaEn(ConEntrada(mem, f, pid, pagina), f) == EntradaEn(mem, f).(pid := pid, pagina := pagina)
  {
  }

  /** Storing two fields of an entry changes that entry alone. */
  lemma ConEntradaTabla(mem: seq<Byte>, n: nat, f: nat, pid: int, pagina: int)
    requires ENTRADA * n <= |mem| && f < n
    requires -TOPE31 <= pid < TOPE31 && -TOPE31 <= pagina < TOPE31
    ensures TablaDe(ConEntrada(mem, f, pid, pagina), n) ==
            TablaDe(mem, n)[f := TablaDe(mem, n)[f].(pid := pid, pagina := pagina)]
  {
    hide Empalme, EntradaEn, I32;
    var m2 := ConEntrada(mem, f, pid, pagina);
    forall i | 0 <= i < n
      ensures EntradaEn(m2, i) == if i == f then EntradaEn(mem, f).(pid := pid, pagina := pagina) else EntradaEn(mem, i)
    {
      if i == f {
        ConEntradaPropia(mem, f, pid, pagina);
      } else {
        EntradaAjena(mem, i, ENTRADA * f + 4, I32(pid));
        EntradaAjena(Empalme(mem, ENTRADA * f + 4, I32(pid)), i, ENTRADA * f + 8, I32(pagina));
      }
    }
  }

  lemma TresPartes(x: seq<Byte>, y: seq<Byte>, z: seq<Byte>)
    requires |x| == |y| == |z| == 4
    ensures (x + y + z)[0..4] == x && (x + y + z)[4..8] == y && (x + y + z)[8..12] == z
  {
  }

  /** Storing a whole entry changes that entry alone. */
  lemma EntradaNueva(mem: seq<Byte>, n: nat, f: nat, x: Entrada)
    requires ENTRADA * n <= |mem| && f < n
    requires -TOPE31 <= x.frame < TOPE31 && -TOPE31 <= x.pid < TOPE31 && -TOPE31 <= x.pagina < TOPE31
    ensures TablaDe(Empalme(mem, ENTRADA * f, I32(x.frame) + I32(x.pid) + I32(x.pagina)), n) == TablaDe(mem, n)[f := x]
  {
    hide Empalme, I32, DeI32;
    var d := I32(x.frame) + I32(x.pid) + I32(x.pagina);
    var m2 := Empalme(mem, ENTRADA * f, d);
    forall i | 0 <= i < n
      ensures EntradaEn(m2, i) == if i == f then x else EntradaEn(mem, i)
    {
      if i == f {
        var a := ENTRADA * f;
        EmpalmeLeido(mem, a, d);
        TramoDeTramo(m2, a, ENTRADA, 0, 4);
        TramoDeTramo(m2, a, ENTRADA, 4, 4);
        TramoDeTramo(m2, a, ENTRADA, 8, 4);
        TresPartes(I32(x.frame), I32(x.pid), I32(x.pagina));
      } else {
        EntradaAjena(mem, i, ENTRADA * f, d);
      }
    }
  }

  /** The table of a server that has just started. */
  predicate TablaInicial(c: Config, t: seq<Entrada>) {
    && |t| == c.marcos
    && forall f :: 0 <= f < |t| ==> t[f] == if f < c.admin then Entrada(f, ADMIN, f) else Entrada(f, LIBRE, LIBRE)
  }

  /** A server that has just started: its table, an empty index, frames of the page size and an empty cache. */
  ghost predicate Arranque(c: Config, e: Estado) {
    && Dimensiones(c) && TablaInicial(c, e.mapa.tabla)
    && |e.mapa.indice| == c.marcos == |e.paginas| && (forall b :: 0 <= b < c.marcos ==> e.mapa.indice[b] == [])
    && (forall f :: c.admin <= f < c.marcos ==> |e.paginas[f]| == c.ms)
    && |e.cache| == c.entradas
    && (forall i :: 0 <= i < c.entradas ==>
          var s := e.cache[i];
          s.pid == s.pagina == s.refPid == s.edad == Cache.NADIE && |s.contenido| == c.ms)
  }

  /** A server that has just started keeps the invariant and maps no page. */
  lemma EstadoInicial(c: Config, e: Estado)
    requires Arranque(c, e)
    ensures Inv(c, e) && Abs(c, e) == map[]
    ensures Cache.EdadesReales(e.cache, []) && Cache.Sincronizada(e.cache) && Cache.CuotaRespetada(e.cache, c.cuota)
  {
    var t := e.mapa.tabla;
    assert forall f :: 0 <= f < |t| ==> EntradaSana(t, f);
    assert forall b, f :: !EnCubeta(t, b, f);
    assert Claves(t) == {};
    forall q | q >= 0
      ensures Cache.Entradas(e.cache, q, |e.cache|) == 0
    {
    }
  }

  /** The frames that hold no part of the table. */
  function PaginasDe(mem: seq<Byte>, c: Config): (p: seq<seq<Byte>>)
    requires |mem| == c.marcos * c.ms
    ensures |p| == c.marcos
  {
    Regiones(mem, c.marcos, c.ms, c.admin)
  }

  /** A write below the end of the table touches no user frame. */
  lemma PaginasIntactas(mem: seq<Byte>, c: Config, pos: nat, d: seq<Byte>)
    requires ConfigValida(c) && |mem| == c.marcos * c.ms && pos + |d| <= ENTRADA * c.marcos
    ensures pos + |d| <= |mem|
    ensures PaginasDe(Empalme(mem, pos, d), c) == PaginasDe(mem, c)
  {
    hide Empalme, Regiones, Region;
    TablaCabe(c);
    var m2 := Empalme(mem, pos, d);
    forall g | 0 <= g < c.marcos
      ensures PaginasDe(m2, c)[g] == PaginasDe(mem, c)[g]
    {
      if c.admin <= g {
        ProductoMonotono(c.ms, c.admin, g);
        RegionDeRegiones(mem, c.marcos, c.ms, c.admin, g);
        RegionDeRegiones(m2, c.marcos, c.ms, c.admin, g);
        RegionIntacta(mem, c.ms, g, g * c.ms, pos, d);
      }
    }
  }

  lemma RegionIntacta(mem: seq<Byte>, ms: nat, g: nat, x: nat, pos: nat, d: seq<Byte>)
    requires x == g * ms && x + ms <= |mem| && pos + |d| <= x
    ensures Region(Empalme(mem, pos, d), ms, g) == Region(mem, ms, g)
  {
    hide Empalme, Region;
    RegionEn(mem, ms, g, x);
    RegionEn(Empalme(mem, pos, d), ms, g, x);
    EmpalmeFuera(mem, pos, d, x, x + ms);
  }

  lemma ConEntradaPaginas(mem: seq<Byte>, c: Config, f: nat, pid: int, pagina: int)
    requires ConfigValida(c) && |mem| == c.marcos * c.ms && f < c.marcos
    requires -TOPE31 <= pid < TOPE31 && -TOPE31 <= pagina < TOPE31
    ensures ENTRADA * f + ENTRADA <= |mem|
    ensures PaginasDe(ConEntrada(mem, f, pid, pagina), c) == PaginasDe(mem, c)
  {
    hide Empalme, I32, ConfigValida;
    TablaCabe(c);
    PaginasIntactas(mem, c, ENTRADA * f + 4, I32(pid));
    PaginasIntactas(Empalme(mem, ENTRADA * f + 4, I32(pid)), c, ENTRADA * f + 8, I32(pagina));
  }

  /** Page table self-protection: a write inside a user frame changes that frame and not one byte of the table. */
  lemma EscrituraProtegida(mem: seq<Byte>, c: Config, f: nat, off: nat, d: seq<Byte>)
    requires ConfigValida(c) && |mem| == c.marcos * c.ms && c.admin <= f < c.marcos && off + |d| <= c.ms
    ensures ENTRADA * c.marcos <= f * c.ms + off && f * c.ms + off + |d| <= |mem|
    ensures var m2 := Empalme(mem, f * c.ms + off, d);
            && m2[..ENTRADA * c.marcos] == mem[..ENTRADA * c.marcos]
            && TablaDe(m2, c.marcos) == TablaDe(mem, c.marcos)
            && PaginasDe(m2, c) == PaginasDe(mem, c)[f := Empalme(PaginasDe(mem, c)[f], off, d)]
  {
    hide Empalme, TablaDe, Regiones;
    TablaCabe(c);
    RegionCabe(c.marcos, c.ms, f);
    ProductoMonotono(c.ms, c.admin, f);
    hide ConfigValida;
    EmpalmeFuera(mem, f * c.ms + off, d, 0, ENTRADA * c.marcos);
    TablaIntacta(mem, c.marcos, f * c.ms + off, d);
    RegionesEmpalme(mem, c.marcos, c.ms, c.admin, f, off, d);
  }

  /** The state with the bytes of one frame replaced. */
  function ConMarco(e: Estado, f: nat, pg: seq<Byte>): (r: Estado)
    requires f < |e.paginas|
    ensures |r.paginas| == |e.paginas| && r.paginas[f] == pg
  {
    e.(paginas := e.paginas[f := pg])
  }

  lemma ConMarcoDos(e: Estado, f: nat, a: seq<Byte>, b: seq<Byte>)
    requires f < |e.paginas|
    ensures ConMarco(ConMarco(e, f, a), f, b) == ConMarco(e, f, b)
    ensures ConMarco(e, f, e.paginas[f]) == e
  {
  }

  lemma PaginaEnMemoria(mem: seq<Byte>, c: Config, f: nat)
    requires |mem| == c.marcos * c.ms && c.admin <= f < c.marcos
    ensures f * c.ms + c.ms <= |mem|
    ensures PaginasDe(mem, c)[f] == mem[f * c.ms..f * c.ms + c.ms]
  {
    RegionCabe(c.marcos, c.ms, f);
  }
}
