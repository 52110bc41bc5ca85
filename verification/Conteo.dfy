/**
 * Entries of the page table counted: free ones, those of a process, those of a page; and what each operation does to
 * them.
 */
module Conteo {
  import opened Tablas

  /** How many frames hold a page. */
  function Veces(t: seq<Entrada>, pid: int, pagina: int, n: nat): (k: nat)
    requires n <= |t|
  {
    if n == 0 then 0 else Veces(t, pid, pagina, n - 1) + if EsPagina(t, n - 1, pid, pagina) then 1 else 0
  }

  lemma {:induction false} VecesCero(t: seq<Entrada>, pid: int, pagina: int, n: nat)
    requires n <= |t|
    ensures Veces(t, pid, pagina, n) == 0 <==> forall f :: 0 <= f < n ==> !EsPagina(t, f, pid, pagina)
  {
    if n > 0 {
      VecesCero(t, pid, pagina, n - 1);
    }
  }

  /** A page is counted once exactly when no second frame holds it. */
  lemma {:induction false} VecesUna(t: seq<Entrada>, pid: int, pagina: int, f: nat, n: nat)
    requires f < n <= |t| && EsPagina(t, f, pid, pagina)
    ensures Veces(t, pid, pagina, n) >= 1
    ensures Veces(t, pid, pagina, n) == 1 <==> forall g :: 0 <= g < n && g != f ==> !EsPagina(t, g, pid, pagina)
  {
    if f == n - 1 {
      VecesCero(t, pid, pagina, n - 1);
    } else {
      VecesUna(t, pid, pagina, f, n - 1);
      if EsPagina(t, n - 1, pid, pagina) {
        assert n - 1 != f;
      }
    }
  }

  /** One entry changes. */
  lemma {:induction false} CambiaUna(t: seq<Entrada>, f: nat, e: Entrada, pid: int, pagina: int, n: nat)
    requires f < |t| && n <= |t|
    ensures var u := t[f := e];
      && Libres(u, n) == Libres(t, n)
           + (if f < n then (if e.pid == LIBRE then 1 else 0) - (if t[f].pid == LIBRE then 1 else 0) else 0)
      && Paginas(u, pid, n) == Paginas(t, pid, n)
           + (if f < n then (if e.pid == pid then 1 else 0) - (if t[f].pid == pid then 1 else 0) else 0)
      && Veces(u, pid, pagina, n) == Veces(t, pid, pagina, n)
           + (if f < n then (if EsPagina(u, f, pid, pagina) then 1 else 0)
                - (if EsPagina(t, f, pid, pagina) then 1 else 0) else 0)
  {
    if n > 0 {
      CambiaUna(t, f, e, pid, pagina, n - 1);
    }
  }

  /** The entries of a process become free. */
  lemma {:induction false} Barrida(t: seq<Entrada>, u: seq<Entrada>, pid: nat, p: nat, pagina: int, n: nat)
    requires n <= |t| == |u|
    requires forall f :: 0 <= f < |t| ==> u[f] == if t[f].pid == pid then Entrada(f, LIBRE, LIBRE) else t[f]
    ensures Libres(u, n) == Libres(t, n) + Paginas(t, pid, n)
    ensures Paginas(u, p, n) == if p == pid then 0 else Paginas(t, p, n)
    ensures Veces(u, p, pagina, n) == if p == pid then 0 else Veces(t, p, pagina, n)
  {
    if n > 0 {
      Barrida(t, u, pid, p, pagina, n - 1);
    }
  }

  lemma SiguienteCuentas(m: Mapa, pid: nat, pagina: nat, p: nat, q: int)
    requires Acuerdo(m) && Libres(m.tabla, |m.tabla|) > 0 && Clave(pid, pagina)
    ensures var r, n := Siguiente(m, pid, pagina).tabla, |m.tabla|;
      && Libres(r, n) == Libres(m.tabla, n) - 1
      && Paginas(r, p, n) == Paginas(m.tabla, p, n) + (if p == pid then 1 else 0)
      && Veces(r, p, q, n) == Veces(m.tabla, p, q, n) + (if p == pid && q == pagina then 1 else 0)
  {
    hide Acuerdo, Hueco, Libres, Paginas, Veces;
    var f := HuecoDePagina(m.tabla, pid, pagina);
    CambiaUna(m.tabla, f, m.tabla[f].(pid := pid, pagina := pagina), p, q, |m.tabla|);
  }

  /** Pages `i..n` of a process are placed. */
  lemma {:induction false} ColocarCuentas(m: Mapa, pid: nat, i: nat, n: nat, p: nat, q: int)
    requires Colocables(m, pid, i, n)
    ensures var r, k := Colocar(m, pid, i, n).tabla, |m.tabla|;
      && Libres(r, k) == Libres(m.tabla, k) - (n - i)
      && Paginas(r, p, k) == Paginas(m.tabla, p, k) + (if p == pid then n - i else 0)
      && Veces(r, p, q, k) == Veces(m.tabla, p, q, k) + (if p == pid && i <= q < n then 1 else 0)
    decreases n - i
  {
    hide Siguiente, Acuerdo, Libres, Paginas, Veces;
    if i < n {
      SiguienteCuentas(m, pid, i, p, q);
      ColocarCuentas(Siguiente(m, pid, i), pid, i + 1, n, p, q);
    }
  }

  /** A table without pages. */
  lemma {:induction false} SinPaginas(t: seq<Entrada>, p: nat, q: int, n: nat)
    requires n <= |t| && forall f :: 0 <= f < |t| ==> t[f].pid < 0
    ensures Paginas(t, p, n) == 0 && Veces(t, p, q, n) == 0
  {
    if n > 0 {
      SinPaginas(t, p, q, n - 1);
    }
  }
}
