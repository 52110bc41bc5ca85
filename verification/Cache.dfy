/** The page cache: residency, the per-process quota and LRU replacement, as values. */
module Cache {
  import opened Bytes

  /** One line of the cache with its administrative entry. The `uint32_t` mark 0xFFFFFFFF is written -1. */
  datatype Slot = Slot(pid: int, pagina: int, contenido: seq<Byte>, refPid: int, edad: int)

  const NADIE := -1

  predicate Libre(s: Slot) {
    s.pid == NADIE || s.pagina == NADIE
  }

  predicate Coincide(s: Slot, pid: int, pagina: int) {
    s.pid == pid && s.pagina == pagina
  }

  predicate Presente(c: seq<Slot>, pid: int, pagina: int) {
    exists i :: 0 <= i < |c| && Coincide(c[i], pid, pagina)
  }

  /** Last line among the first `n` that holds the page, or -1. */
  function Ultima(c: seq<Slot>, pid: int, pagina: int, n: nat): (r: int)
    requires n <= |c|
    ensures -1 <= r < n
    ensures r >= 0 ==> Coincide(c[r], pid, pagina)
    ensures forall i :: r < i < n ==> !Coincide(c[i], pid, pagina)
  {
    if n == 0 then -1
    else if Coincide(c[n - 1], pid, pagina) then n - 1
    else Ultima(c, pid, pagina, n - 1)
  }

  function Linea(c: seq<Slot>, pid: int, pagina: int): (r: int)
    ensures -1 <= r < |c|
    ensures r == -1 <==> !Presente(c, pid, pagina)
    ensures r >= 0 ==> Coincide(c[r], pid, pagina)
  {
    Ultima(c, pid, pagina, |c|)
  }

  function Entradas(c: seq<Slot>, pid: int, n: nat): (k: nat)
    requires n <= |c|
    ensures k <= n
    ensures k > 0 ==> exists i :: 0 <= i < n && c[i].pid == pid
  {
    if n == 0 then 0 else Entradas(c, pid, n - 1) + if c[n - 1].pid == pid then 1 else 0
  }

  predicate HayEspacio(c: seq<Slot>) {
    exists i :: 0 <= i < |c| && Libre(c[i])
  }

  /** First free line at or after `desde`; `|c|` when there is none. */
  function PrimeraLibre(c: seq<Slot>, desde: nat): (i: nat)
    requires desde <= |c|
    ensures desde <= i <= |c|
    ensures i < |c| ==> Libre(c[i])
    ensures forall j :: desde <= j < i ==> !Libre(c[j])
    decreases |c| - desde
  {
    if desde == |c| || Libre(c[desde]) then desde else PrimeraLibre(c, desde + 1)
  }

  predicate Candidata(s: Slot, pid: int, local: bool) {
    local ==> s.refPid == pid
  }

  /**
   * The oldest candidate among the first `n` lines, the first one on a tie; -1 when every candidate has age 0 or none.
   */
  function Victima(c: seq<Slot>, pid: int, local: bool, n: nat): (v: int)
    requires n <= |c|
    ensures -1 <= v < n
    ensures v >= 0 ==> Candidata(c[v], pid, local) && c[v].edad > 0
  {
    if n == 0 then -1
    else
      var w := Victima(c, pid, local, n - 1);
      if Candidata(c[n - 1], pid, local) && c[n - 1].edad > (if w >= 0 then c[w].edad else 0) then n - 1 else w
  }

  /** The victim is older than every candidate before it and at least as old as every one after it. */
  lemma {:induction false} VictimaCorrecta(c: seq<Slot>, pid: int, local: bool, n: nat, j: nat)
    requires j < n <= |c| && Candidata(c[j], pid, local)
    ensures var v := Victima(c, pid, local, n);
            && c[j].edad <= (if v >= 0 then c[v].edad else 0)
            && (j < v ==> c[j].edad < c[v].edad)
  {
    if j < n - 1 {
      VictimaCorrecta(c, pid, local, n - 1, j);
    }
  }

  /** One more access has gone by: every line in use is one older. */
  function Envejecer(c: seq<Slot>): (r: seq<Slot>)
    ensures |r| == |c|
    ensures forall i :: 0 <= i < |c| ==> r[i] == c[i].(edad := if c[i].edad == NADIE then NADIE else c[i].edad + 1)
  {
    seq(|c|, i requires 0 <= i < |c| => c[i].(edad := if c[i].edad == NADIE then NADIE else c[i].edad + 1))
  }

  /** The line an insertion for `pid` takes; -1 when the search finds none. */
  function Elegir(c: seq<Slot>, cuota: int, pid: int): (v: int)
    ensures -1 <= v <= |c|
  {
    if Entradas(c, pid, |c|) < cuota then
      if HayEspacio(c) then PrimeraLibre(c, 0) else Victima(c, pid, false, |c|)
    else Victima(c, pid, true, |c|)
  }

  predicate Habilitada(c: seq<Slot>, cuota: int) {
    |c| > 0 && cuota > 0
  }

  function Insertar(c: seq<Slot>, cuota: int, pid: int, pagina: int, bytes: seq<Byte>): (r: seq<Slot>)
    requires Habilitada(c, cuota) ==> 0 <= Elegir(c, cuota, pid) < |c|
    ensures |r| == |c|
  {
    if !Habilitada(c, cuota) then c
    else c[Elegir(c, cuota, pid) := Slot(pid, pagina, bytes, pid, 0)]
  }

  function Vacia(largo: nat): Slot {
    Slot(NADIE, NADIE, seq(largo, _ => 0), NADIE, NADIE)
  }

  function Vaciada(c: seq<Slot>, ms: nat): (r: seq<Slot>)
    ensures |r| == |c|
  {
    seq(|c|, i => Vacia(ms))
  }

  function SinProceso(c: seq<Slot>, ms: nat, pid: int): (r: seq<Slot>)
    ensures |r| == |c|
    ensures forall i :: 0 <= i < |c| ==> r[i] == if c[i].refPid == pid then Vacia(ms) else c[i]
  {
    seq(|c|, i requires 0 <= i < |c| => if c[i].refPid == pid then Vacia(ms) else c[i])
  }

  /** Freeing a page clears its line but leaves the administrative entry. */
  function SinPagina(c: seq<Slot>, pid: int, pagina: int): (r: seq<Slot>)
    ensures |r| == |c|
    ensures forall i :: 0 <= i < |c| ==>
              r[i] == if Coincide(c[i], pid, pagina) then c[i].(pid := NADIE, pagina := NADIE) else c[i]
  {
    seq(|c|, i requires 0 <= i < |c| =>
      if Coincide(c[i], pid, pagina) then c[i].(pid := NADIE, pagina := NADIE) else c[i])
  }

  // ---- what every operation keeps ----

  predicate LineaSana(s: Slot) {
    && s.edad >= -1 && s.refPid >= -1
    && (s.edad == NADIE <==> s.refPid == NADIE)
    && (Libre(s) ==> s.pid == NADIE && s.pagina == NADIE)
    && (!Libre(s) ==> s.pid >= 0 && s.pagina >= 0 && s.refPid == s.pid)
  }

  ghost predicate Sana(c: seq<Slot>) {
    && (forall i :: 0 <= i < |c| ==> LineaSana(c[i]))
    && (forall i, j :: 0 <= i < j < |c| && !Libre(c[i]) ==> !Coincide(c[j], c[i].pid, c[i].pagina))
  }

  /** Ages were raised before the insertion, so a victim always exists. */
  lemma ElegirDefinido(c: seq<Slot>, cuota: int, pid: int)
    requires Sana(c) && Habilitada(c, cuota) && pid >= 0
    ensures 0 <= Elegir(Envejecer(c), cuota, pid) < |c|
  {
    var d := Envejecer(c);
    var n := Entradas(d, pid, |d|);
    if n >= cuota {
      var i :| 0 <= i < |d| && d[i].pid == pid;
      assert LineaSana(c[i]);
      VictimaCorrecta(d, pid, true, |d|, i);
    } else if HayEspacio(d) {
      var i :| 0 <= i < |d| && Libre(d[i]);
    } else {
      assert LineaSana(c[0]) && !Libre(d[0]);
      VictimaCorrecta(d, pid, false, |d|, 0);
    }
  }

  /** `Envejecer` followed by `Insertar`: what a miss does to the cache. */
  function Incorporar(c: seq<Slot>, cuota: int, pid: int, pagina: int, bytes: seq<Byte>): (r: seq<Slot>)
    requires Sana(c) && pid >= 0
    ensures |r| == |c|
  {
    if Habilitada(c, cuota) then ElegirDefinido(c, cuota, pid); Insertar(Envejecer(c), cuota, pid, pagina, bytes)
    else Insertar(Envejecer(c), cuota, pid, pagina, bytes)
  }

  /** What a hit on line `i` does: the line is refilled with `bytes` and becomes the youngest. */
  function Reusar(c: seq<Slot>, i: nat, bytes: seq<Byte>): (r: seq<Slot>)
    requires i < |c|
    ensures |r| == |c|
  {
    Envejecer(c)[i := c[i].(contenido := bytes, edad := 0)]
  }

  /** Flushing a process leaves no line of it, through the administrative entries alone. */
  lemma SinProcesoAusente(c: seq<Slot>, ms: nat, pid: int, pagina: int)
    requires Sana(c) && pid >= 0
    ensures !Presente(SinProceso(c, ms, pid), pid, pagina)
  {
  }

  // ---- recency ----

  /** How many entries of `h` come after the last `i`. */
  function Antiguedad<T(==)>(h: seq<T>, i: T): (k: nat)
    requires i in h
    ensures k < |h| && h[|h| - 1 - k] == i
    ensures forall j :: |h| - 1 - k < j < |h| ==> h[j] != i
  {
    if h[|h| - 1] == i then 0 else Antiguedad(h[..|h| - 1], i) + 1
  }

  /** Position in `h` of the last `i`. */
  function UltimoUso<T(==)>(h: seq<T>, i: T): (k: nat)
    requires i in h
    ensures k < |h| && h[k] == i
    ensures forall j :: k < j < |h| ==> h[j] != i
  {
    |h| - 1 - Antiguedad(h, i)
  }

  /** The ages kept in the cache are the true ones: accesses since each line was last touched, in the list `h` of lines
      touched so far (-1: none). */
  ghost predicate EdadesReales(c: seq<Slot>, h: seq<int>) {
    forall i :: 0 <= i < |c| && c[i].edad != NADIE ==> i in h && c[i].edad == Antiguedad(h, i)
  }

  /** Distinct lines in use have distinct ages. */
  lemma EdadesDistintas(c: seq<Slot>, h: seq<int>, i: nat, j: nat)
    requires EdadesReales(c, h) && i < |c| && j < |c| && i != j
    requires c[i].edad != NADIE && c[j].edad != NADIE
    ensures c[i].edad != c[j].edad
    ensures c[i].edad < c[j].edad <==> UltimoUso(h, j) < UltimoUso(h, i)
  {
  }

  /** An access that touches line `v` keeps the ages true. */
  lemma AccesoEdades(c: seq<Slot>, h: seq<int>, r: seq<Slot>, v: int)
    requires EdadesReales(c, h) && |r| == |c|
    requires forall i :: 0 <= i < |c| ==> r[i].edad == if i == v then 0 else Envejecer(c)[i].edad
    requires forall i :: 0 <= i < |c| ==> c[i].edad >= -1
    ensures EdadesReales(r, h + [v])
  {
  }

  lemma LimpiezasEdades(c: seq<Slot>, h: seq<int>, ms: nat, pid: int, pagina: int)
    requires EdadesReales(c, h)
    ensures EdadesReales(Vaciada(c, ms), h) && EdadesReales(SinProceso(c, ms, pid), h)
        && EdadesReales(SinPagina(c, pid, pagina), h)
  {
  }

  /** The victim is the candidate whose last use lies furthest back. */
  lemma VictimaMenosReciente(c: seq<Slot>, h: seq<int>, pid: int, local: bool, j: nat)
    requires Sana(c) && EdadesReales(c, h)
    requires var v := Victima(Envejecer(c), pid, local, |c|); v >= 0 && j != v
    requires j < |c| && Candidata(c[j], pid, local) && c[j].edad != NADIE
    ensures var v := Victima(Envejecer(c), pid, local, |c|);
            v in h && j in h && UltimoUso(h, v) < UltimoUso(h, j)
  {
    var d := Envejecer(c);
    var v := Victima(d, pid, local, |c|);
    assert LineaSana(c[j]) && LineaSana(c[v]);
    VictimaCorrecta(d, pid, local, |c|, j);
    assert d[v].edad > 0 && c[v].edad != NADIE;
    EdadesDistintas(c, h, v, j);
  }

  /** The line chosen on a full cache by a process below its quota is the least recently used line of all. */
  lemma ReemplazoGlobal(c: seq<Slot>, h: seq<int>, cuota: int, pid: int, j: nat)
    requires Sana(c) && EdadesReales(c, h) && Habilitada(c, cuota) && pid >= 0
    requires !HayEspacio(c) && Entradas(c, pid, |c|) < cuota
    requires j < |c| && j != Elegir(Envejecer(c), cuota, pid)
    ensures var v := Elegir(Envejecer(c), cuota, pid);
            v in h && j in h && UltimoUso(h, v) < UltimoUso(h, j)
  {
    ElegirDefinido(c, cuota, pid);
    EntradasEnvejecer(c, pid, |c|);
    assert !HayEspacio(Envejecer(c)) by {
      forall i | 0 <= i < |c|
        ensures !Libre(Envejecer(c)[i])
      {
        assert !Libre(c[i]);
      }
    }
    assert LineaSana(c[j]) && !Libre(c[j]);
    VictimaMenosReciente(c, h, pid, false, j);
  }

  lemma {:induction false} EntradasEnvejecer(c: seq<Slot>, pid: int, n: nat)
    requires n <= |c|
    ensures Entradas(Envejecer(c), pid, n) == Entradas(c, pid, n)
  {
    if n > 0 {
      EntradasEnvejecer(c, pid, n - 1);
    }
  }

  /** The line the search gives a process at its quota: in use exactly when it is its least recently used page. */
  lemma ReemplazoElegido(c: seq<Slot>, h: seq<int>, cuota: int, pid: int)
    requires Sana(c) && EdadesReales(c, h) && Habilitada(c, cuota) && pid >= 0
    requires Entradas(c, pid, |c|) >= cuota
    ensures var v := Elegir(Envejecer(c), cuota, pid);
            && 0 <= v < |c|
            && (!Libre(c[v]) <==>
                  && c[v].pid == pid && v in h
                  && forall j :: 0 <= j < |c| && j != v && c[j].pid == pid ==>
                      j in h && UltimoUso(h, v) < UltimoUso(h, j))
  {
    ElegirDefinido(c, cuota, pid);
    EntradasEnvejecer(c, pid, |c|);
    var v := Elegir(Envejecer(c), cuota, pid);
    assert LineaSana(c[v]);
    forall j | 0 <= j < |c| && j != v && c[j].pid == pid
      ensures j in h && v in h && UltimoUso(h, v) < UltimoUso(h, j)
    {
      assert LineaSana(c[j]);
      VictimaMenosReciente(c, h, pid, true, j);
    }
  }

  // ---- the quota ----

  ghost predicate CuotaRespetada(c: seq<Slot>, cuota: int) {
    forall pid :: pid >= 0 ==> Entradas(c, pid, |c|) <= if cuota > 0 then cuota else 0
  }

  /** Every administrative entry belongs to the page in its line. */
  predicate Sincronizada(c: seq<Slot>) {
    forall i :: 0 <= i < |c| ==> c[i].refPid == c[i].pid
  }

  lemma {:induction false} EntradasCambiada(c: seq<Slot>, i: nat, s: Slot, pid: int, n: nat)
    requires i < |c| && n <= |c|
    ensures Entradas(c[i := s], pid, n) ==
            Entradas(c, pid, n)
            + if i < n then (if s.pid == pid then 1 else 0) - (if c[i].pid == pid then 1 else 0) else 0
  {
    if n > 0 {
      EntradasCambiada(c, i, s, pid, n - 1);
    }
  }

  lemma IncorporarEntradas(c: seq<Slot>, cuota: int, pid: int, pagina: int, bytes: seq<Byte>, q: int)
    requires Sana(c) && pid >= 0 && Habilitada(c, cuota)
    ensures 0 <= Elegir(Envejecer(c), cuota, pid) < |c|
    ensures Entradas(Incorporar(c, cuota, pid, pagina, bytes), q, |c|) ==
            Entradas(c, q, |c|)
                + (if pid == q then 1 else 0) - (if c[Elegir(Envejecer(c), cuota, pid)].pid == q then 1 else 0)
  {
    ElegirDefinido(c, cuota, pid);
    var d := Envejecer(c);
    EntradasCambiada(d, Elegir(d, cuota, pid), Slot(pid, pagina, bytes, pid, 0), q, |c|);
    EntradasEnvejecer(c, q, |c|);
  }

  lemma IncorporarCuotaLinea(c: seq<Slot>, cuota: int, pid: int, pagina: int, bytes: seq<Byte>)
    requires Sana(c) && pid >= 0 && CuotaRespetada(c, cuota) && Habilitada(c, cuota)
    ensures 0 <= Elegir(Envejecer(c), cuota, pid) < |c|
    ensures CuotaRespetada(Incorporar(c, cuota, pid, pagina, bytes), cuota) <==>
            Entradas(c, pid, |c|) < cuota || c[Elegir(Envejecer(c), cuota, pid)].pid == pid
  {
    var r := Incorporar(c, cuota, pid, pagina, bytes);
    IncorporarEntradas(c, cuota, pid, pagina, bytes, pid);
    var v := Elegir(Envejecer(c), cuota, pid);
    if Entradas(c, pid, |c|) < cuota || c[v].pid == pid {
      forall q | q >= 0
        ensures Entradas(r, q, |r|) <= cuota
      {
        IncorporarEntradas(c, cuota, pid, pagina, bytes, q);
      }
    } else {
      assert Entradas(r, pid, |r|) > cuota;
    }
  }

  /** Line `v` is the oldest of those whose administrative entry names the process, the lowest one on a tie. */
  predicate MasVieja(c: seq<Slot>, pid: int, v: int) {
    && 0 <= v < |c| && c[v].refPid == pid
    && forall j :: 0 <= j < |c| && c[j].refPid == pid ==>
         c[j].edad <= c[v].edad && (j < v ==> c[j].edad < c[v].edad)
  }

  lemma MasViejaUnica(c: seq<Slot>, pid: int, v: int, w: int)
    requires MasVieja(c, pid, v) && MasVieja(c, pid, w)
    ensures v == w
  {
    assert c[v].edad <= c[w].edad && c[w].edad <= c[v].edad;
  }

  /** The line a process at its quota takes. */
  lemma ElegirMasVieja(c: seq<Slot>, cuota: int, pid: int)
    requires Sana(c) && pid >= 0 && Habilitada(c, cuota) && Entradas(c, pid, |c|) >= cuota
    ensures MasVieja(c, pid, Elegir(Envejecer(c), cuota, pid))
  {
    var d := Envejecer(c);
    ElegirDefinido(c, cuota, pid);
    EntradasEnvejecer(c, pid, |c|);
    var v := Elegir(d, cuota, pid);
    assert LineaSana(c[v]);
    forall j | 0 <= j < |c| && c[j].refPid == pid
      ensures c[j].edad <= c[v].edad && (j < v ==> c[j].edad < c[v].edad)
    {
      assert LineaSana(c[j]);
      VictimaCorrecta(d, pid, true, |c|, j);
    }
  }

  /**
   * A process at its quota loses the line of its oldest administrative entry, and that replaces its own least recently
   * used resident page if and only if the line is still in use.
   */
  lemma ReemplazoLocal(c: seq<Slot>, h: seq<int>, cuota: int, pid: int, v: int)
    requires Sana(c) && EdadesReales(c, h) && Habilitada(c, cuota) && pid >= 0
    requires Entradas(c, pid, |c|) >= cuota && MasVieja(c, pid, v)
    ensures 0 <= v < |c| && v == Elegir(Envejecer(c), cuota, pid)
    ensures !Libre(c[v]) <==>
      && c[v].pid == pid && v in h
      && forall j :: 0 <= j < |c| && j != v && c[j].pid == pid ==> j in h && UltimoUso(h, v) < UltimoUso(h, j)
  {
    hide Sana, EdadesReales, Elegir, Entradas, MasVieja;
    ElegirMasVieja(c, cuota, pid);
    MasViejaUnica(c, pid, v, Elegir(Envejecer(c), cuota, pid));
    ReemplazoElegido(c, h, cuota, pid);
  }

  /**
   * A miss breaks the quota exactly when the process is at it and the oldest line its administrative entries point to
   * has been freed.
   */
  lemma IncorporarCuota(c: seq<Slot>, cuota: int, pid: int, pagina: int, bytes: seq<Byte>)
    requires Sana(c) && pid >= 0 && CuotaRespetada(c, cuota) && Habilitada(c, cuota)
    ensures !CuotaRespetada(Incorporar(c, cuota, pid, pagina, bytes), cuota) <==>
            Entradas(c, pid, |c|) >= cuota && exists v :: MasVieja(c, pid, v) && Libre(c[v])
  {
    IncorporarCuotaLinea(c, cuota, pid, pagina, bytes);
    if Entradas(c, pid, |c|) >= cuota {
      var w := Elegir(Envejecer(c), cuota, pid);
      ElegirMasVieja(c, cuota, pid);
      assert LineaSana(c[w]);
      forall v | MasVieja(c, pid, v)
        ensures v == w
      {
        MasViejaUnica(c, pid, v, w);
      }
    }
  }

  /** While no page has been freed line by line, the quota always holds. */
  lemma SincronizadaCuota(c: seq<Slot>, cuota: int, pid: int, pagina: int, bytes: seq<Byte>)
    requires Sana(c) && pid >= 0 && Sincronizada(c) && CuotaRespetada(c, cuota)
    ensures Sincronizada(Incorporar(c, cuota, pid, pagina, bytes))
    ensures CuotaRespetada(Incorporar(c, cuota, pid, pagina, bytes), cuota)
  {
    if Habilitada(c, cuota) {
      IncorporarCuotaLinea(c, cuota, pid, pagina, bytes);
      EntradasEnvejecer(c, pid, |c|);
      var v := Elegir(Envejecer(c), cuota, pid);
    } else {
      forall q
        ensures Entradas(Envejecer(c), q, |c|) == Entradas(c, q, |c|)
      {
        EntradasEnvejecer(c, q, |c|);
      }
    }
  }

  // ---- one access, hit or miss ----

  /** Hit: the line is refilled and becomes the youngest. Miss: the page is brought in. */
  function Acceder(c: seq<Slot>, cuota: int, pid: int, pagina: int, bytes: seq<Byte>): (r: seq<Slot>)
    requires Sana(c) && pid >= 0
    ensures |r| == |c|
  {
    var i := Linea(c, pid, pagina);
    if i >= 0 then Reusar(c, i, bytes) else Incorporar(c, cuota, pid, pagina, bytes)
  }

  /** The line an access touches, or -1. */
  function Toque(c: seq<Slot>, cuota: int, pid: int, pagina: int): int {
    var i := Linea(c, pid, pagina);
    if i >= 0 then i else if Habilitada(c, cuota) then Elegir(Envejecer(c), cuota, pid) else -1
  }

  lemma AccederSana(c: seq<Slot>, cuota: int, pid: int, pagina: int, bytes: seq<Byte>)
    requires Sana(c) && pid >= 0 && pagina >= 0
    ensures Sana(Acceder(c, cuota, pid, pagina, bytes))
  {
    var r, v := Acceder(c, cuota, pid, pagina, bytes), Toque(c, cuota, pid, pagina);
    if Habilitada(c, cuota) {
      ElegirDefinido(c, cuota, pid);
    }
    hide Elegir, Entradas, HayEspacio;
    forall i | 0 <= i < |c|
      ensures LineaSana(r[i])
      ensures if i == v then Coincide(r[i], pid, pagina) else r[i].pid == c[i].pid && r[i].pagina == c[i].pagina
    {
      assert LineaSana(c[i]);
    }
  }

  /** After an access a line in use holds the page with the bytes given, or what it held before. */
  lemma AccederContenido(c: seq<Slot>, cuota: int, pid: int, pagina: int, bytes: seq<Byte>, j: nat)
    requires Sana(c) && pid >= 0 && pagina >= 0 && j < |c|
    ensures var r := Acceder(c, cuota, pid, pagina, bytes)[j];
            && (!Libre(r) && Coincide(r, pid, pagina) ==> r.contenido == bytes)
            && (!Libre(r) && !Coincide(r, pid, pagina) ==>
                  r.pid == c[j].pid && r.pagina == c[j].pagina && r.contenido == c[j].contenido && !Libre(c[j]))
            && (r.contenido == bytes || r.contenido == c[j].contenido)
  {
  }

  /** With the cache enabled the page of an access is resident afterwards. */
  lemma AccederPresente(c: seq<Slot>, cuota: int, pid: int, pagina: int, bytes: seq<Byte>)
    requires Sana(c) && pid >= 0 && pagina >= 0 && Habilitada(c, cuota)
    ensures Presente(Acceder(c, cuota, pid, pagina, bytes), pid, pagina)
  {
    var r, t := Acceder(c, cuota, pid, pagina, bytes), Toque(c, cuota, pid, pagina);
    ElegirDefinido(c, cuota, pid);
    assert Coincide(r[t], pid, pagina);
  }

  // ---- which line a miss takes, told from the lines alone ----

  /** Line `v` is free and no line before it is. */
  predicate MasBajaLibre(c: seq<Slot>, v: int) {
    0 <= v < |c| && Libre(c[v]) && forall j :: 0 <= j < v ==> !Libre(c[j])
  }

  /** Line `v` is the oldest of all, the lowest one on a tie. */
  predicate MasViejaDeTodas(c: seq<Slot>, v: int) {
    0 <= v < |c| && forall j :: 0 <= j < |c| ==> c[j].edad <= c[v].edad && (j < v ==> c[j].edad < c[v].edad)
  }

  /**
   * The line that gives way to a new page of the process: at its quota, the oldest one by its administrative entries;
   * below it, the lowest free one, and the oldest of all only when none is free.
   */
  predicate Cede(c: seq<Slot>, cuota: int, pid: int, v: int) {
    if Entradas(c, pid, |c|) >= cuota then MasVieja(c, pid, v)
    else if HayEspacio(c) then MasBajaLibre(c, v)
    else MasViejaDeTodas(c, v)
  }

  lemma CedeUnica(c: seq<Slot>, cuota: int, pid: int, v: int, w: int)
    requires Cede(c, cuota, pid, v) && Cede(c, cuota, pid, w)
    ensures v == w
  {
    if Entradas(c, pid, |c|) >= cuota {
      MasViejaUnica(c, pid, v, w);
    } else {
      assert v < w || w < v || v == w;
    }
  }

  lemma EspacioEnvejecer(c: seq<Slot>)
    ensures HayEspacio(Envejecer(c)) <==> HayEspacio(c)
  {
    forall i | 0 <= i < |c|
      ensures Libre(Envejecer(c)[i]) <==> Libre(c[i])
    {
    }
    if HayEspacio(c) {
      var i :| 0 <= i < |c| && Libre(c[i]);
      assert Libre(Envejecer(c)[i]);
    }
    if HayEspacio(Envejecer(c)) {
      var i :| 0 <= i < |c| && Libre(Envejecer(c)[i]);
      assert Libre(c[i]);
    }
  }

  lemma ElegirLibre(c: seq<Slot>, cuota: int, pid: int)
    requires Entradas(c, pid, |c|) < cuota && HayEspacio(c)
    ensures MasBajaLibre(c, Elegir(Envejecer(c), cuota, pid))
  {
    var d := Envejecer(c);
    EntradasEnvejecer(c, pid, |c|);
    EspacioEnvejecer(c);
    var v := Elegir(d, cuota, pid);
    var i :| 0 <= i < |d| && Libre(d[i]);
    assert v < |c| && Libre(c[v]);
    forall j | 0 <= j < v
      ensures !Libre(c[j])
    {
      assert !Libre(d[j]);
    }
  }

  lemma ElegirGlobal(c: seq<Slot>, cuota: int, pid: int)
    requires Sana(c) && Habilitada(c, cuota) && pid >= 0 && Entradas(c, pid, |c|) < cuota && !HayEspacio(c)
    ensures MasViejaDeTodas(c, Elegir(Envejecer(c), cuota, pid))
  {
    var d := Envejecer(c);
    ElegirDefinido(c, cuota, pid);
    EntradasEnvejecer(c, pid, |c|);
    EspacioEnvejecer(c);
    var v := Elegir(d, cuota, pid);
    assert LineaSana(c[v]);
    forall j | 0 <= j < |c|
      ensures c[j].edad <= c[v].edad && (j < v ==> c[j].edad < c[v].edad)
    {
      assert LineaSana(c[j]) && !Libre(c[j]);
      VictimaCorrecta(d, pid, false, |c|, j);
    }
  }

  lemma ElegirCede(c: seq<Slot>, cuota: int, pid: int)
    requires Sana(c) && Habilitada(c, cuota) && pid >= 0
    ensures Cede(c, cuota, pid, Elegir(Envejecer(c), cuota, pid))
  {
    hide Sana, Elegir, Entradas, MasVieja, MasBajaLibre, MasViejaDeTodas, HayEspacio;
    if Entradas(c, pid, |c|) >= cuota {
      ElegirMasVieja(c, cuota, pid);
    } else if HayEspacio(c) {
      ElegirLibre(c, cuota, pid);
    } else {
      ElegirGlobal(c, cuota, pid);
    }
  }

  /** Line `s` is line `t` but for its age. */
  predicate SalvoEdad(s: Slot, t: Slot) {
    s.pid == t.pid && s.pagina == t.pagina && s.contenido == t.contenido && s.refPid == t.refPid
  }

  /**
   * A miss puts the page, with its bytes, on the line that gives way, and touches no other line but for its age: while
   * the process is below its quota and some line is free, the page takes the lowest free one and none is lost.
   */
  lemma FalloEnLinea(c: seq<Slot>, cuota: int, pid: int, pagina: int, bytes: seq<Byte>)
    requires Sana(c) && pid >= 0 && pagina >= 0 && !Presente(c, pid, pagina) && Habilitada(c, cuota)
    ensures exists v :: Cede(c, cuota, pid, v)
    ensures forall v :: Cede(c, cuota, pid, v) ==>
      var r := Acceder(c, cuota, pid, pagina, bytes);
      && 0 <= v < |c| && r[v] == Slot(pid, pagina, bytes, pid, 0)
      && forall j :: 0 <= j < |c| && j != v ==> SalvoEdad(r[j], c[j])
  {
    ElegirDefinido(c, cuota, pid);
    ElegirCede(c, cuota, pid);
    hide Sana, Elegir, Cede;
    forall v | Cede(c, cuota, pid, v)
      ensures v == Elegir(Envejecer(c), cuota, pid)
    {
      CedeUnica(c, cuota, pid, v, Elegir(Envejecer(c), cuota, pid));
    }
  }

  /** A hit, or an access with the cache disabled, moves no page; a hit refreshes the bytes of its own line. */
  lemma AciertoEnLinea(c: seq<Slot>, cuota: int, pid: int, pagina: int, bytes: seq<Byte>, j: nat)
    requires Sana(c) && pid >= 0 && pagina >= 0 && j < |c| && (Presente(c, pid, pagina) || !Habilitada(c, cuota))
    ensures var r := Acceder(c, cuota, pid, pagina, bytes)[j];
      if Coincide(c[j], pid, pagina) then SalvoEdad(r, c[j].(contenido := bytes)) && r.edad == 0 else SalvoEdad(r, c[j])
  {
  }

  lemma AccederEdades(c: seq<Slot>, cuota: int, pid: int, pagina: int, bytes: seq<Byte>, h: seq<int>)
    requires Sana(c) && pid >= 0 && pagina >= 0 && EdadesReales(c, h)
    ensures EdadesReales(Acceder(c, cuota, pid, pagina, bytes), h + [Toque(c, cuota, pid, pagina)])
  {
    var r, v := Acceder(c, cuota, pid, pagina, bytes), Toque(c, cuota, pid, pagina);
    if Habilitada(c, cuota) {
      ElegirDefinido(c, cuota, pid);
    }
    forall i | 0 <= i < |c|
      ensures r[i].edad == if i == v then 0 else Envejecer(c)[i].edad
      ensures c[i].edad >= -1
    {
      assert LineaSana(c[i]);
    }
    AccesoEdades(c, h, r, v);
  }

  /** The age of a line in use is how many accesses were made since the last one to its page, in the list `g` of all
      the pages accessed so far. */
  ghost predicate PaginasReales(c: seq<Slot>, g: seq<(int, int)>) {
    forall i :: 0 <= i < |c| && !Libre(c[i]) ==> PaginaReal(c[i], g)
  }

  predicate PaginaReal(s: Slot, g: seq<(int, int)>) {
    (s.pid, s.pagina) in g && s.edad == Antiguedad(g, (s.pid, s.pagina))
  }

  lemma PaginaEnvejecida(s: Slot, g: seq<(int, int)>, p: (int, int))
    requires PaginaReal(s, g) && s.edad >= 0 && p != (s.pid, s.pagina)
    ensures PaginaReal(s.(edad := s.edad + 1), g + [p])
  {
    assert (g + [p])[..|g|] == g;
    assert (s.pid, s.pagina) in g + [p];
  }

  /** An access keeps the ages of pages true, whatever line it touches. */
  lemma AccederPaginas(c: seq<Slot>, cuota: int, pid: int, pagina: int, bytes: seq<Byte>, g: seq<(int, int)>)
    requires Sana(c) && pid >= 0 && pagina >= 0 && PaginasReales(c, g)
    ensures PaginasReales(Acceder(c, cuota, pid, pagina, bytes), g + [(pid, pagina)])
  {
    var r, v := Acceder(c, cuota, pid, pagina, bytes), Toque(c, cuota, pid, pagina);
    if Habilitada(c, cuota) {
      ElegirDefinido(c, cuota, pid);
    }
    assert (g + [(pid, pagina)])[|g|] == (pid, pagina);
    forall i | 0 <= i < |c| && !Libre(r[i])
      ensures PaginaReal(r[i], g + [(pid, pagina)])
    {
      assert LineaSana(c[i]);
      if i != v {
        assert !Coincide(c[i], pid, pagina);
        PaginaEnvejecida(c[i], g, (pid, pagina));
        hide Acceder, PaginaReal;
      }
    }
  }

  lemma LimpiezasPaginas(c: seq<Slot>, g: seq<(int, int)>, ms: nat, pid: int, pagina: int)
    requires PaginasReales(c, g)
    ensures PaginasReales(Vaciada(c, ms), g) && PaginasReales(SinProceso(c, ms, pid), g)
    ensures PaginasReales(SinPagina(c, pid, pagina), g)
  {
    hide PaginaReal;
  }

  lemma OrdenDePaginas(c: seq<Slot>, g: seq<(int, int)>, v: nat, j: nat)
    requires PaginasReales(c, g) && v < |c| && j < |c| && !Libre(c[v]) && !Libre(c[j])
    ensures (c[v].pid, c[v].pagina) in g && (c[j].pid, c[j].pagina) in g
    ensures c[j].edad < c[v].edad <==> UltimoUso(g, (c[v].pid, c[v].pagina)) < UltimoUso(g, (c[j].pid, c[j].pagina))
  {
    assert PaginaReal(c[v], g) && PaginaReal(c[j], g);
  }

  /**
   * Replacement is least recently used of the requests: on a full cache a process below its quota takes the line of the
   * page whose last access lies furthest back; at its quota it takes, when the line chosen is not a freed one, that of
   * its own resident page whose last access does.
   */
  lemma PaginaReemplazada(c: seq<Slot>, g: seq<(int, int)>, cuota: int, pid: int, j: nat)
    requires Sana(c) && PaginasReales(c, g) && Habilitada(c, cuota) && pid >= 0
    ensures 0 <= Elegir(Envejecer(c), cuota, pid) < |c|
    ensures var v := Elegir(Envejecer(c), cuota, pid);
      j < |c| && j != v && !Libre(c[v]) && !Libre(c[j]) && (Entradas(c, pid, |c|) >= cuota ==> c[j].pid == pid) ==>
        && (c[v].pid, c[v].pagina) in g && (c[j].pid, c[j].pagina) in g
        && (Entradas(c, pid, |c|) >= cuota ==> c[v].pid == pid)
        && UltimoUso(g, (c[v].pid, c[v].pagina)) < UltimoUso(g, (c[j].pid, c[j].pagina))
  {
    ElegirDefinido(c, cuota, pid);
    EntradasEnvejecer(c, pid, |c|);
    var v := Elegir(Envejecer(c), cuota, pid);
    if j < |c| && j != v && !Libre(c[v]) && !Libre(c[j]) && (Entradas(c, pid, |c|) >= cuota ==> c[j].pid == pid) {
      assert LineaSana(c[v]) && LineaSana(c[j]);
      OrdenDePaginas(c, g, v, j);
      OrdenDePaginas(c, g, j, v);
      VictimaCorrecta(Envejecer(c), pid, Entradas(c, pid, |c|) >= cuota, |c|, j);
      MismaEdad(c, g, v, j);
    }
  }

  /** Two pages in use were not last accessed at once. */
  lemma MismaEdad(c: seq<Slot>, g: seq<(int, int)>, v: nat, j: nat)
    requires Sana(c) && PaginasReales(c, g) && v < |c| && j < |c| && v != j && !Libre(c[v]) && !Libre(c[j])
    ensures c[v].edad != c[j].edad
  {
    assert PaginaReal(c[v], g) && PaginaReal(c[j], g);
    assert !Coincide(c[if v < j then j else v], c[if v < j then v else j].pid, c[if v < j then v else j].pagina);
  }

  lemma AccederCuota(c: seq<Slot>, cuota: int, pid: int, pagina: int, bytes: seq<Byte>)
    requires Sana(c) && pid >= 0 && pagina >= 0 && Sincronizada(c) && CuotaRespetada(c, cuota)
    ensures Sincronizada(Acceder(c, cuota, pid, pagina, bytes))
    ensures CuotaRespetada(Acceder(c, cuota, pid, pagina, bytes), cuota)
  {
    var i := Linea(c, pid, pagina);
    if i >= 0 {
      forall q
        ensures Entradas(Reusar(c, i, bytes), q, |c|) == Entradas(c, q, |c|)
      {
        EntradasEnvejecer(c, q, |c|);
        EntradasCambiada(Envejecer(c), i, c[i].(contenido := bytes, edad := 0), q, |c|);
      }
    } else {
      SincronizadaCuota(c, cuota, pid, pagina, bytes);
    }
  }

  lemma MismasEntradas(c: seq<Slot>, r: seq<Slot>, cuota: int)
    requires |r| == |c| && forall q :: Entradas(r, q, |c|) == Entradas(c, q, |c|)
    ensures CuotaRespetada(r, cuota) <==> CuotaRespetada(c, cuota)
  {
  }

  /**
   * An access breaks the quota exactly when it is a miss of a process at its quota whose oldest line, by the
   * administrative entries, has been freed.
   */
  lemma AccederCuotaExacta(c: seq<Slot>, cuota: int, pid: int, pagina: int, bytes: seq<Byte>)
    requires Sana(c) && pid >= 0 && pagina >= 0 && CuotaRespetada(c, cuota)
    ensures !CuotaRespetada(Acceder(c, cuota, pid, pagina, bytes), cuota) <==>
            && !Presente(c, pid, pagina) && Habilitada(c, cuota) && Entradas(c, pid, |c|) >= cuota
            && exists v :: MasVieja(c, pid, v) && Libre(c[v])
  {
    hide Sana, CuotaRespetada, MasVieja;
    var i := Linea(c, pid, pagina);
    if i < 0 && Habilitada(c, cuota) {
      IncorporarCuota(c, cuota, pid, pagina, bytes);
    } else {
      forall q
        ensures Entradas(Acceder(c, cuota, pid, pagina, bytes), q, |c|) == Entradas(c, q, |c|)
      {
        EntradasEnvejecer(c, q, |c|);
        if i >= 0 {
          EntradasCambiada(Envejecer(c), i, c[i].(contenido := bytes, edad := 0), q, |c|);
        }
      }
      MismasEntradas(c, Acceder(c, cuota, pid, pagina, bytes), cuota);
    }
  }

  /** Giving pages back never breaks it. */
  lemma LimpiezasSinExceso(c: seq<Slot>, cuota: int, ms: nat, pid: int, pagina: int)
    requires CuotaRespetada(c, cuota)
    ensures CuotaRespetada(Vaciada(c, ms), cuota) && CuotaRespetada(SinProceso(c, ms, pid), cuota)
    ensures CuotaRespetada(SinPagina(c, pid, pagina), cuota)
  {
    forall q | q >= 0
      ensures Entradas(Vaciada(c, ms), q, |c|) <= Entradas(c, q, |c|)
      ensures Entradas(SinProceso(c, ms, pid), q, |c|) <= Entradas(c, q, |c|)
      ensures Entradas(SinPagina(c, pid, pagina), q, |c|) <= Entradas(c, q, |c|)
    {
      EntradasMenos(c, Vaciada(c, ms), q, |c|);
      EntradasMenos(c, SinProceso(c, ms, pid), q, |c|);
      EntradasMenos(c, SinPagina(c, pid, pagina), q, |c|);
    }
  }

  lemma LimpiezasCuota(c: seq<Slot>, cuota: int, ms: nat, pid: int)
    requires Sincronizada(c) && CuotaRespetada(c, cuota)
    ensures Sincronizada(Vaciada(c, ms)) && CuotaRespetada(Vaciada(c, ms), cuota)
    ensures Sincronizada(SinProceso(c, ms, pid)) && CuotaRespetada(SinProceso(c, ms, pid), cuota)
  {
    LimpiezasSinExceso(c, cuota, ms, pid, 0);
  }

  lemma {:induction false} EntradasMenos(c: seq<Slot>, r: seq<Slot>, q: int, n: nat)
    requires n <= |c| == |r| && q >= 0
    requires forall i :: 0 <= i < |c| ==> r[i].pid == c[i].pid || r[i].pid == NADIE
    ensures Entradas(r, q, n) <= Entradas(c, q, n)
  {
    if n > 0 {
      EntradasMenos(c, r, q, n - 1);
    }
  }
}
