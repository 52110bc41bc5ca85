/** When the numbers of all pages stay distinct: one request, and whole runs. */
module Numeracion {
  import opened Tablas
  import opened Conteo
  import opened Modelo
  import opened Disposicion
  import opened Abstracta
  import opened Corridas

  /** No page is held by two frames. */
  ghost predicate Unicas(a: Vision) {
    forall k: Pagina :: a.veces(k) <= 1
  }

  /** One of the numbers from `desde` to `hasta` is a page of the process. */
  ghost predicate EnUso(a: Vision, pid: nat, desde: nat, hasta: int) {
    exists q :: desde <= q < hasta && Pagina(pid, q) in a.paginas
  }

  /**
   * The request gives a number in use: a script admitted over pages of its process, or pages added after the last one
   * by count when the process has one numbered there.
   */
  ghost predicate Repite(c: Config, a: Vision, o: Orden)
    requires c.ms > 0
  {
    match o
    case Nuevo(pid, mensaje, pila) =>
      var total := PaginasDeGuion(|mensaje| + 2, c.ms) + pila;
      total <= a.libres && EnUso(a, pid, 0, total)
    case PedirPagina(pid) => a.libres > 0 && EnUso(a, pid, a.cuentas(pid), a.cuentas(pid) + 1)
    case Asignar(pid, desde, espacio) =>
      EnUso(a, pid, a.cuentas(pid), a.cuentas(pid) + AgregadasAbs(c, a, pid, desde, espacio))
    case _ => false
  }

  /** Frames taken for pages numbered from `desde` on. */
  lemma TomarUnicas(a: Vision, b: Vision, pid: nat, desde: nat, n: nat)
    requires Coherente(a) && Unicas(a) && TomaMarcos(a, b, pid, desde, n)
    ensures Unicas(b) <==> !EnUso(a, pid, desde, desde + n)
  {
    if EnUso(a, pid, desde, desde + n) {
      var q :| desde <= q < desde + n && Pagina(pid, q) in a.paginas;
      assert a.veces(Pagina(pid, q)) > 0 && b.veces(Pagina(pid, q)) > 1;
    } else {
      forall k: Pagina
        ensures b.veces(k) <= 1
      {
        assert a.veces(k) <= 1;
        if k.pid == pid && desde <= k.numero < desde + n {
          assert Pagina(pid, k.numero) !in a.paginas;
        }
      }
    }
  }

  lemma MismasUnicas(a: Vision, b: Vision)
    requires MismosMarcos(a, b)
    ensures Unicas(b) <==> Unicas(a)
  {
    if Unicas(a) {
      forall k: Pagina
        ensures b.veces(k) <= 1
      {
        assert a.veces(k) <= 1;
      }
    }
    if Unicas(b) {
      forall k: Pagina
        ensures a.veces(k) <= 1
      {
        assert b.veces(k) <= 1;
      }
    }
  }

  lemma MenosUnicas(a: Vision, b: Vision)
    requires Unicas(a) && forall k: Pagina :: b.veces(k) <= a.veces(k)
    ensures Unicas(b)
  {
    forall k: Pagina
      ensures b.veces(k) <= 1
    {
      assert a.veces(k) <= 1;
    }
  }

  lemma AsignarUnicas(c: Config, a: Vision, o: Orden, x: Respuesta, b: Vision)
    requires c.ms > 0 && Coherente(a) && Unicas(a) && PasoAbs(c, a, o, x, b) && o.Asignar?
    ensures Unicas(b) <==> !Repite(c, a, o)
  {
    hide Unicas, Coherente, EnUso, TomaMarcos, MismosMarcos, AgregadasAbs, CabeAbs, ExtiendeEn, Toma, AsignadoEn;
    var n := AgregadasAbs(c, a, o.pid, o.desde, o.espacio);
    var m: Vision :| Extiende(c, a, o.pid, n, m)
                  && AsignarEn(m, o.pid, o.desde, o.espacio, x.pagina, x.direccion, b);
    TomarUnicas(a, m, o.pid, a.cuentas(o.pid), n);
    MismasUnicas(m, b);
  }

  /** From distinct pages, a request leaves them distinct exactly when it gives no number in use. */
  lemma PasoUnicas(c: Config, a: Vision, o: Orden, x: Respuesta, b: Vision)
    requires c.ms > 0 && Coherente(a) && Unicas(a) && PasoAbs(c, a, o, x, b)
    ensures Unicas(b) <==> !Repite(c, a, o)
  {
    hide Unicas, Coherente, EnUso, TomaMarcos, MismosMarcos, ExtiendeEn, AsignarAbs, Admitido;
    match o
    case Nuevo(pid, mensaje, pila) =>
      var total := PaginasDeGuion(|mensaje| + 2, c.ms) + pila;
      if total <= a.libres {
        TomarUnicas(a, b, pid, 0, total);
      } else {
        MismasUnicas(a, b);
      }
    case PedirPagina(pid) =>
      if a.libres > 0 {
        TomarUnicas(a, b, pid, a.cuentas(pid), 1);
      } else {
        MismasUnicas(a, b);
      }
    case Asignar(_, _, _) => AsignarUnicas(c, a, o, x, b);
    case DevolverPagina(_, _) => MenosUnicas(a, b);
    case Terminar(_) => MenosUnicas(a, b);
    case Leer(_, _, _, _) => MismasUnicas(a, b);
    case Escribir(_, _, _, _) => MismasUnicas(a, b);
    case Soltar(_, _, _) => MismasUnicas(a, b);
    case Vaciar => MismasUnicas(a, b);
  }

  // ---- the table of the server ----

  /** Seen from outside: each page counted at most once. */
  lemma UnicasEnTabla(c: Config, e: Estado)
    requires Inv(c, e)
    ensures PaginasUnicas(e.mapa.tabla) <==> Unicas(Ver(c, e))
  {
    hide Inv, Ver, Veces;
    Forma(c, e);
    var t := e.mapa.tabla;
    forall k: Pagina
      ensures Ver(c, e).veces(k) == if k.pid >= 0 then Veces(t, k.pid, k.numero, |t|) else 0
    {
      VerEn(c, e, 0, k);
    }
    if PaginasUnicas(t) {
      forall k: Pagina
        ensures Ver(c, e).veces(k) <= 1
      {
        if k.pid >= 0 {
          UnaVez(t, k.pid, k.numero);
        }
      }
    }
    if Unicas(Ver(c, e)) {
      forall f, g | 0 <= f < g < |t| && t[f].pid >= 0
        ensures !EsPagina(t, g, t[f].pid, t[f].pagina)
      {
        assert Ver(c, e).veces(Pagina(t[f].pid, t[f].pagina)) <= 1;
        assert EsPagina(t, f, t[f].pid, t[f].pagina);
        VecesUna(t, t[f].pid, t[f].pagina, f, |t|);
      }
    }
  }

  lemma UnaVez(t: seq<Entrada>, pid: int, pagina: int)
    requires PaginasUnicas(t) && pid >= 0
    ensures Veces(t, pid, pagina, |t|) <= 1
  {
    VecesCero(t, pid, pagina, |t|);
    if Veces(t, pid, pagina, |t|) > 0 {
      var f :| 0 <= f < |t| && EsPagina(t, f, pid, pagina);
      VecesUna(t, pid, pagina, f, |t|);
      forall g | 0 <= g < |t| && g != f
        ensures !EsPagina(t, g, pid, pagina)
      {
        assert f < g || g < f;
      }
    }
  }

  // ---- runs ----

  /** Page numbers are distinct all along a run. */
  ghost predicate SiempreUnicas(c: Config, e: Estado, os: seq<Orden>)
    requires Inv(c, e) && Ejecutable(c, e, os)
    decreases |os|
  {
    PaginasUnicas(e.mapa.tabla) && (os == [] || SiempreUnicas(c, Hacer(c, e, os[0]).0, os[1..]))
  }

  /** No request of the run gives a number in use. */
  ghost predicate NingunaRepite(c: Config, e: Estado, os: seq<Orden>)
    requires Inv(c, e) && Ejecutable(c, e, os)
    decreases |os|
  {
    os == [] || (c.ms > 0 && !Repite(c, Ver(c, e), os[0]) && NingunaRepite(c, Hacer(c, e, os[0]).0, os[1..]))
  }

  /** Distinct pages stay so all along a run exactly when none of its requests gives a number in use. */
  lemma {:induction false} CorridaUnicas(c: Config, e: Estado, os: seq<Orden>)
    requires Inv(c, e) && Ejecutable(c, e, os) && PaginasUnicas(e.mapa.tabla)
    ensures SiempreUnicas(c, e, os) <==> NingunaRepite(c, e, os)
    decreases |os|
  {
    hide Inv, Ver, Hacer, Puede, PasoAbs, Repite, Unicas, Coherente, PaginasUnicas;
    if os != [] {
      var r := Hacer(c, e, os[0]).0;
      PasoRefina(c, e, os[0]);
      VerCoherente(c, e);
      UnicasEnTabla(c, e);
      UnicasEnTabla(c, r);
      PasoUnicas(c, Ver(c, e), os[0], Hacer(c, e, os[0]).1, Ver(c, r));
      if PaginasUnicas(r.mapa.tabla) {
        CorridaUnicas(c, r, os[1..]);
      } else {
        assert !SiempreUnicas(c, r, os[1..]);
      }
    }
  }

  /** From startup. */
  lemma CorridaUnicasDesdeElArranque(c: Config, e: Estado, os: seq<Orden>)
    requires Arranque(c, e) && Inv(c, e) && Ejecutable(c, e, os)
    ensures SiempreUnicas(c, e, os) <==> NingunaRepite(c, e, os)
  {
    hide Inv, Arranque, Ejecutable, VisionInicial, SiempreUnicas, NingunaRepite;
    ArranqueVisto(c, e);
    assert Unicas(Ver(c, e)) by {
      InicialUnicas(c, Ver(c, e));
    }
    UnicasEnTabla(c, e);
    CorridaUnicas(c, e, os);
  }

  lemma InicialUnicas(c: Config, a: Vision)
    requires VisionInicial(c, a)
    ensures Unicas(a)
  {
  }
}
