/** Bytes, little-endian 32-bit words, and fixed-size regions of a flat buffer. */
module Bytes {

  type Byte = x: int | 0 <= x < 256

  const TOPE32 := 0x1_0000_0000
  const TOPE31 := 0x8000_0000

  /** The four bytes a `memcpy` of a `uint32_t` stores. */
  function U32(v: nat): (b: seq<Byte>)
    requires v < TOPE32
    ensures |b| == 4 && De32(b) == v
  {
    var v1 := v / 256;
    var v2 := v1 / 256;
    var v3 := v2 / 256;
    [v % 256, v1 % 256, v2 % 256, v3]
  }

  function De32(b: seq<Byte>): (v: nat)
    requires |b| == 4
    ensures v < TOPE32
  {
    b[0] as int + 256 * (b[1] as int + 256 * (b[2] as int + 256 * (b[3] as int)))
  }

  lemma Cociente256(r: nat, q: nat)
    requires r < 256
    ensures (r + 256 * q) / 256 == q && (r + 256 * q) % 256 == r
  {
  }

  lemma De32Inverso(b: seq<Byte>)
    requires |b| == 4
    ensures U32(De32(b)) == b
  {
    var v3: nat := b[3];
    var v2: nat := b[2] as int + 256 * v3;
    var v1: nat := b[1] as int + 256 * v2;
    Cociente256(b[2], v3);
    Cociente256(b[1], v2);
    Cociente256(b[0], v1);
  }

  /** The four bytes of an `int32_t`, in two's complement. */
  function I32(v: int): (b: seq<Byte>)
    requires -TOPE31 <= v < TOPE31
    ensures |b| == 4 && DeI32(b) == v
  {
    U32(if v < 0 then v + TOPE32 else v)
  }

  function DeI32(b: seq<Byte>): (v: int)
    requires |b| == 4
    ensures -TOPE31 <= v < TOPE31
  {
    var u := De32(b);
    if u < TOPE31 then u else u - TOPE32
  }

  /** `s` with the bytes `d` copied over it at `pos`. */
  function Empalme<T>(s: seq<T>, pos: nat, d: seq<T>): (r: seq<T>)
    requires pos + |d| <= |s|
    ensures |r| == |s|
  {
    s[..pos] + d + s[pos + |d|..]
  }

  lemma EmpalmeIndices<T>(s: seq<T>, pos: nat, d: seq<T>)
    requires pos + |d| <= |s|
    ensures forall k :: 0 <= k < |s| ==> Empalme(s, pos, d)[k] == if pos <= k < pos + |d| then d[k - pos] else s[k]
  {
  }

  lemma EmpalmeLeido<T>(s: seq<T>, pos: nat, d: seq<T>)
    requires pos + |d| <= |s|
    ensures Empalme(s, pos, d)[pos..pos + |d|] == d
  {
  }

  lemma EmpalmeTotal<T>(s: seq<T>, d: seq<T>)
    requires |d| == |s|
    ensures Empalme(s, 0, d) == d
  {
  }

  lemma ConcatAsocia<T>(a: seq<T>, b: seq<T>, c: seq<T>)
    ensures (a + b) + c == a + (b + c)
  {
  }

  lemma EmpalmeFuera<T>(s: seq<T>, pos: nat, d: seq<T>, lo: nat, hi: nat)
    requires pos + |d| <= |s| && lo <= hi <= |s| && (hi <= pos || pos + |d| <= lo)
    ensures Empalme(s, pos, d)[lo..hi] == s[lo..hi]
  {
  }

  /** Region `f` of a buffer cut into regions of `ms` bytes. */
  function Region(s: seq<Byte>, ms: nat, f: nat): (r: seq<Byte>)
    requires f * ms + ms <= |s|
    ensures |r| == ms
  {
    s[f * ms..f * ms + ms]
  }

  lemma ProductoMonotono(x: nat, a: nat, b: nat)
    requires a <= b
    ensures x * a <= x * b
  {
  }

  lemma UnoMas(x: int, y: int, sb: nat)
    requires x < y
    ensures x * sb + sb <= y * sb
  {
    assert y * sb == x * sb + sb + (y - x - 1) * sb;
  }

  /** Quotient and remainder are determined by their equation. */
  lemma DivisionUnica(sb: nat, x: nat, q: int, r: int)
    requires sb > 0 && x == q * sb + r && 0 <= r < sb
    ensures q == x / sb && r == x % sb
  {
    var p := x / sb;
    assert x == p * sb + x % sb;
    if q < p {
      UnoMas(q, p, sb);
    } else if p < q {
      UnoMas(p, q, sb);
    }
  }

  lemma RegionCabe(n: nat, ms: nat, f: nat)
    requires f < n
    ensures f * ms + ms <= n * ms
  {
    assert n * ms == (f + 1) * ms + (n - f - 1) * ms;
    assert (f + 1) * ms == f * ms + ms;
  }

  lemma RegionesSeparadas(n: nat, ms: nat, f: nat, g: nat)
    requires f < n && g < n
    ensures f * ms + ms <= n * ms && g * ms + ms <= n * ms
    ensures f < g ==> f * ms + ms <= g * ms
    ensures g < f ==> g * ms + ms <= f * ms
  {
    RegionCabe(n, ms, f);
    RegionCabe(n, ms, g);
    if g < f {
      RegionCabe(f, ms, g);
    } else if f < g {
      RegionCabe(g, ms, f);
    }
  }

  /** Two stretches of `ms` bytes that coincide or do not meet, and a copy inside one of them. */
  lemma TramoEmpalme(s: seq<Byte>, x: nat, y: nat, ms: nat, off: nat, d: seq<Byte>, mismo: bool)
    requires x + ms <= |s| && y + ms <= |s| && off + |d| <= ms
    requires if mismo then x == y else x + ms <= y || y + ms <= x
    ensures Empalme(s, x + off, d)[y..y + ms]
         == if mismo then Empalme(s[x..x + ms], off, d) else s[y..y + ms]
  {
  }

  lemma RegionEn(s: seq<Byte>, ms: nat, f: nat, x: nat)
    requires x == f * ms && x + ms <= |s|
    ensures Region(s, ms, f) == s[x..x + ms]
  {
  }

  lemma TramoDeTramo(s: seq<Byte>, a: nat, ms: nat, inicio: nat, largo: nat)
    requires a + ms <= |s| && inicio + largo <= ms
    ensures s[a + inicio..a + inicio + largo] == s[a..a + ms][inicio..inicio + largo]
  {
    var t, u := s[a + inicio..a + inicio + largo], s[a..a + ms];
    forall k | 0 <= k < largo
      ensures t[k] == u[inicio..inicio + largo][k]
    {
      assert u[inicio..inicio + largo][k] == u[inicio + k];
    }
  }

  lemma RegionTrasCopia(s: seq<Byte>, ms: nat, f: nat, g: nat, x: nat, y: nat, off: nat, d: seq<Byte>)
    requires x == f * ms && y == g * ms && x + ms <= |s| && y + ms <= |s| && off + |d| <= ms
    requires if f == g then x == y else x + ms <= y || y + ms <= x
    ensures Region(Empalme(s, x + off, d), ms, g)
         == if g == f then Empalme(Region(s, ms, f), off, d) else Region(s, ms, g)
  {
    hide Empalme, Region;
    TramoEmpalme(s, x, y, ms, off, d, f == g);
    RegionEn(s, ms, f, x);
    RegionEn(s, ms, g, y);
    RegionEn(Empalme(s, x + off, d), ms, g, y);
  }

  /** A copy that stays inside region `f` changes that region alone. */
  lemma RegionEmpalme(s: seq<Byte>, n: nat, ms: nat, f: nat, off: nat, d: seq<Byte>, g: nat)
    requires |s| == n * ms && f < n && g < n && off + |d| <= ms
    ensures f * ms + ms <= |s| && g * ms + ms <= |s|
    ensures Region(Empalme(s, f * ms + off, d), ms, g)
         == if g == f then Empalme(Region(s, ms, f), off, d) else Region(s, ms, g)
  {
    hide Empalme, Region;
    RegionesSeparadas(n, ms, f, g);
    RegionTrasCopia(s, ms, f, g, f * ms, g * ms, off, d);
  }

  /** The regions `desde <= f < n` of a buffer; the ones below are hidden. */
  function Regiones(s: seq<Byte>, n: nat, ms: nat, desde: nat): (r: seq<seq<Byte>>)
    requires |s| == n * ms
    ensures |r| == n
    ensures forall f :: 0 <= f < n ==> |r[f]| == if f < desde then 0 else ms
  {
    seq(n, f requires 0 <= f < n => RegionDesde(s, n, ms, desde, f))
  }

  function RegionDesde(s: seq<Byte>, n: nat, ms: nat, desde: nat, f: nat): (r: seq<Byte>)
    requires |s| == n * ms && f < n
    ensures |r| == if f < desde then 0 else ms
  {
    RegionCabe(n, ms, f);
    if f < desde then [] else Region(s, ms, f)
  }

  lemma RegionDeRegiones(s: seq<Byte>, n: nat, ms: nat, desde: nat, f: nat)
    requires |s| == n * ms && desde <= f < n
    ensures f * ms + ms <= |s| && Regiones(s, n, ms, desde)[f] == Region(s, ms, f)
  {
    RegionCabe(n, ms, f);
    var r := RegionDesde(s, n, ms, desde, f);
    assert r == Region(s, ms, f);
    hide Region, RegionDesde;
    assert Regiones(s, n, ms, desde)[f] == r;
  }

  lemma RegionesEmpalme(s: seq<Byte>, n: nat, ms: nat, desde: nat, f: nat, off: nat, d: seq<Byte>)
    requires |s| == n * ms && desde <= f < n && off + |d| <= ms
    ensures f * ms + ms <= |s|
    ensures Regiones(Empalme(s, f * ms + off, d), n, ms, desde)
         == Regiones(s, n, ms, desde)[f := Empalme(Regiones(s, n, ms, desde)[f], off, d)]
  {
    RegionCabe(n, ms, f);
    var t := Empalme(s, f * ms + off, d);
    hide Empalme;
    forall g | 0 <= g < n
      ensures Regiones(t, n, ms, desde)[g]
           == Regiones(s, n, ms, desde)[f := Empalme(Regiones(s, n, ms, desde)[f], off, d)][g]
    {
      RegionEmpalme(s, n, ms, f, off, d, g);
    }
  }

  /** Copies `d` into `a` byte by byte, as `memcpy` does. */
  method Copiar(a: array<Byte>, pos: nat, d: seq<Byte>)
    requires pos + |d| <= a.Length
    modifies a
    ensures a[..] == Empalme(old(a[..]), pos, d)
  {
    var i := 0;
    assert Empalme(a[..], pos, []) == a[..];
    while i < |d|
      invariant 0 <= i <= |d|
      invariant a[..] == Empalme(old(a[..]), pos, d[..i])
    {
      EmpalmeIndices(old(a[..]), pos, d[..i]);
      EmpalmeIndices(old(a[..]), pos, d[..i + 1]);
      a[pos + i] := d[i];
      i := i + 1;
    }
    assert d[..i] == d;
  }
}
