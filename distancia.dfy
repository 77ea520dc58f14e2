/**
 * Neighbour matcher of the clip detector (Distancia.py): a bounded buffer of
 * the k reference frames closest to one query frame, kept sorted by distance,
 * filled by a linear scan over every frame of every reference video.
 *
 * The distance function is a parameter; `DistanciaL1` is the concrete L1
 * metric of the source, stated over integer vectors of equal length.
 */
module Distancia {

  /** One match: frame `indice` of reference video `comercial`, at `distancia` from the query. */
  datatype Frame = Frame(comercial: string, indice: int, distancia: real)

  /** A reference video: its name and its feature vectors in playback order. */
  datatype Video = Video(nombre: string, frames: seq<seq<int>>)

  /** The "infinite" distance the buffer slots start with. */
  const INFINITO: real := 1000000000.0

  /** The initial slot value: no video, index -1, infinite distance. */
  const Centinela: Frame := Frame("", -1, INFINITO)

  // ---------------------------------------------------------------------------
  // The L1 metric
  // ---------------------------------------------------------------------------

  function Abs(x: int): nat
  {
    if x < 0 then -x else x
  }

  /** Sum of absolute differences of two vectors of the same length. */
  function DistanciaL1(v1: seq<int>, v2: seq<int>): (r: int)
    requires |v1| == |v2|
    ensures r >= 0
  {
    if |v1| == 0 then 0 else Abs(v1[0] - v2[0]) + DistanciaL1(v1[1..], v2[1..])
  }

  lemma {:induction false} DistanciaL1Simetrica(v1: seq<int>, v2: seq<int>)
    requires |v1| == |v2|
    ensures DistanciaL1(v1, v2) == DistanciaL1(v2, v1)
  {
    if |v1| > 0 {
      DistanciaL1Simetrica(v1[1..], v2[1..]);
    }
  }

  /** The distance is zero exactly on identical vectors. */
  lemma {:induction false} DistanciaL1Cero(v1: seq<int>, v2: seq<int>)
    requires |v1| == |v2|
    ensures DistanciaL1(v1, v2) == 0 <==> v1 == v2
  {
    if |v1| > 0 {
      DistanciaL1Cero(v1[1..], v2[1..]);
      if DistanciaL1(v1, v2) == 0 {
        assert v1 == [v1[0]] + v1[1..] && v2 == [v2[0]] + v2[1..];
      }
    }
  }

  // ---------------------------------------------------------------------------
  // The bounded buffer
  // ---------------------------------------------------------------------------

  /** Non-decreasing by distance. */
  predicate Ordenada(s: seq<Frame>)
  {
    forall i, j :: 0 <= i < j < |s| ==> s[i].distancia <= s[j].distancia
  }

  /**
   * Where the right-to-left shift starting at slot `i` stops: the first slot
   * to the left of which the entry is no farther than `d`.
   */
  function Hueco(s: seq<Frame>, d: real, i: nat): (p: nat)
    requires i < |s|
    ensures p <= i
    ensures forall m :: p <= m < i ==> s[m].distancia > d
    ensures p == 0 || s[p - 1].distancia <= d
  {
    if i > 0 && s[i - 1].distancia > d then Hueco(s, d, i - 1) else i
  }

  /**
   * The buffer after offering it `f`: unchanged when `f` is farther than the
   * last slot, otherwise the last slot is dropped and `f` takes the gap.
   */
  function Insertado(s: seq<Frame>, f: Frame): (r: seq<Frame>)
    requires |s| > 0
    ensures |r| == |s|
  {
    var n := |s|;
    if f.distancia > s[n - 1].distancia then s
    else
      var p := Hueco(s, f.distancia, n - 1);
      s[..p] + [f] + s[p..n - 1]
  }

  /** The entry that leaves the buffer when `f` is offered: `f` itself or the old last slot. */
  function Desalojado(s: seq<Frame>, f: Frame): Frame
    requires |s| > 0
  {
    if f.distancia > s[|s| - 1].distancia then f else s[|s| - 1]
  }

  /** Number of entries no farther than `d`. */
  function CuantosHasta(s: seq<Frame>, d: real): (c: nat)
    ensures c <= |s|
  {
    if s == [] then 0 else (if s[0].distancia <= d then 1 else 0) + CuantosHasta(s[1..], d)
  }

  /** A sorted buffer stays sorted. */
  lemma InsertadoOrdenado(s: seq<Frame>, f: Frame)
    requires |s| > 0 && Ordenada(s)
    ensures Ordenada(Insertado(s, f))
  {
    var n := |s|;
    if f.distancia <= s[n - 1].distancia {
      var p := Hueco(s, f.distancia, n - 1);
      assert Insertado(s, f) == s[..p] + [f] + s[p..n - 1];
      OrdenadaCorte(s, p, n - 1, f.distancia);
      OrdenadaEntre(s[..p], f, s[p..n - 1]);
    }
  }

  /** Cutting a sorted sequence at the gap for `d` leaves two sorted runs, no farther and farther than `d`. */
  lemma OrdenadaCorte(s: seq<Frame>, p: nat, e: nat, d: real)
    requires p <= e <= |s| && Ordenada(s)
    requires p == 0 || s[p - 1].distancia <= d
    requires forall m :: p <= m < e ==> s[m].distancia > d
    ensures Ordenada(s[..p]) && Ordenada(s[p..e])
    ensures forall m :: 0 <= m < p ==> s[..p][m].distancia <= d
    ensures forall m :: 0 <= m < e - p ==> d < s[p..e][m].distancia
  {
    forall m | 0 <= m < p ensures s[..p][m].distancia <= d {
      assert s[m].distancia <= s[p - 1].distancia;
    }
  }

  /** Two sorted runs joined by an entry no closer than the first and closer than the second stay sorted. */
  lemma OrdenadaEntre(a: seq<Frame>, f: Frame, b: seq<Frame>)
    requires Ordenada(a) && Ordenada(b)
    requires forall m :: 0 <= m < |a| ==> a[m].distancia <= f.distancia
    requires forall m :: 0 <= m < |b| ==> f.distancia < b[m].distancia
    ensures Ordenada(a + [f] + b)
  {
    var r := a + [f] + b;
    forall i, j | 0 <= i < j < |r| ensures r[i].distancia <= r[j].distancia {
      if j < |a| {
        assert r[i] == a[i] && r[j] == a[j];
      } else if i > |a| {
        assert r[i] == b[i - |a| - 1] && r[j] == b[j - |a| - 1];
      } else if i == |a| {
        assert r[j] == b[j - |a| - 1];
      } else if j == |a| {
        assert r[i] == a[i];
      } else {
        assert r[i] == a[i] && r[j] == b[j - |a| - 1];
      }
    }
  }

  /** With the counted split point of a sorted sequence, the count is that split point. */
  lemma {:induction false} CuantosHastaCorte(t: seq<Frame>, d: real, p: nat)
    requires p <= |t|
    requires forall m :: 0 <= m < p ==> t[m].distancia <= d
    requires forall m :: p <= m < |t| ==> t[m].distancia > d
    ensures CuantosHasta(t, d) == p
  {
    if t != [] {
      if p > 0 {
        CuantosHastaCorte(t[1..], d, p - 1);
      } else {
        CuantosHastaCorte(t[1..], d, 0);
      }
    }
  }

  /**
   * On a sorted buffer an accepted `f` lands at the number of entries in all
   * but the last slot that are no farther than it: earlier equal entries stay
   * ahead of it, the old last slot is dropped.
   */
  lemma InsertadoPosicion(s: seq<Frame>, f: Frame)
    requires |s| > 0 && Ordenada(s)
    requires f.distancia <= s[|s| - 1].distancia
    ensures var p := CuantosHasta(s[..|s| - 1], f.distancia);
      p < |s| && Insertado(s, f) == s[..p] + [f] + s[p..|s| - 1]
  {
    var n := |s|;
    var p := Hueco(s, f.distancia, n - 1);
    var t := s[..n - 1];
    forall m | 0 <= m < p ensures t[m].distancia <= f.distancia {
      assert s[m].distancia <= s[p - 1].distancia;
    }
    CuantosHastaCorte(t, f.distancia, p);
  }

  /**
   * Tie at the last slot: an equal-distance newcomer is accepted and replaces
   * the old last entry, which is dropped.
   */
  lemma InsertadoEmpateFinal(s: seq<Frame>, f: Frame)
    requires |s| > 0 && Ordenada(s)
    requires f.distancia == s[|s| - 1].distancia
    ensures Insertado(s, f) == s[..|s| - 1] + [f]
    ensures Desalojado(s, f) == s[|s| - 1]
  {
    var n := |s|;
    var p := Hueco(s, f.distancia, n - 1);
  }

  /** Putting `x` between `a` and `b` and dropping `y` from the end trades `y` for `x`. */
  lemma MultisetDesplazado(a: seq<Frame>, b: seq<Frame>, x: Frame, y: Frame)
    ensures multiset(a + [x] + b) + multiset{y} == multiset(a + b + [y]) + multiset{x}
  {
    calc {
      multiset(a + [x] + b) + multiset{y};
      multiset(a) + multiset{x} + multiset(b) + multiset{y};
      multiset(a + b + [y]) + multiset{x};
    }
  }

  /** What enters and what leaves: the buffer gains `f` and loses `Desalojado(s, f)`. */
  lemma InsertadoMultiset(s: seq<Frame>, f: Frame)
    requires |s| > 0
    ensures multiset(Insertado(s, f)) + multiset{Desalojado(s, f)} == multiset(s) + multiset{f}
  {
    var n := |s|;
    if f.distancia <= s[n - 1].distancia {
      MultisetHueco(s, f, Hueco(s, f.distancia, n - 1));
    }
  }

  /** Putting `f` in slot `p` and dropping the last slot exchanges the two in the multiset. */
  lemma MultisetHueco(s: seq<Frame>, f: Frame, p: nat)
    requires p < |s|
    ensures multiset(s[..p] + [f] + s[p..|s| - 1]) + multiset{s[|s| - 1]} == multiset(s) + multiset{f}
  {
    var n := |s|;
    var a, b := s[..p], s[p..n - 1];
    assert s == a + b + [s[n - 1]];
    MultisetDesplazado(a, b, f, s[n - 1]);
  }

  /**
   * On a sorted buffer the entry that leaves is no closer than any entry that
   * stays, and the last slot never gets farther.
   */
  lemma InsertadoCota(s: seq<Frame>, f: Frame)
    requires |s| > 0 && Ordenada(s)
    ensures forall x :: x in Insertado(s, f) ==> x.distancia <= Desalojado(s, f).distancia
    ensures Insertado(s, f)[|s| - 1].distancia <= s[|s| - 1].distancia
  {
    var n := |s|;
    InsertadoOrdenado(s, f);
    var r := Insertado(s, f);
    if f.distancia <= s[n - 1].distancia {
      var p := Hueco(s, f.distancia, n - 1);
      if p < n - 1 {
        assert r[n - 1] == s[n - 2];
      } else {
        assert r[n - 1] == f;
      }
    }
    forall x | x in r ensures x.distancia <= Desalojado(s, f).distancia {
      var m :| 0 <= m < n && r[m] == x;
      assert r[m].distancia <= r[n - 1].distancia;
    }
  }

  // ---------------------------------------------------------------------------
  // The scan over the reference library
  // ---------------------------------------------------------------------------

  /** The first `n` frames of `v` as matches against `q`, in index order. */
  function FramesDe(q: seq<int>, v: Video, n: nat, dist: (seq<int>, seq<int>) -> real): (r: seq<Frame>)
    requires n <= |v.frames|
    ensures |r| == n
  {
    if n == 0 then []
    else FramesDe(q, v, n - 1, dist) + [Frame(v.nombre, n - 1, dist(q, v.frames[n - 1]))]
  }

  /** Every frame of every video as matches against `q`: video order, then frame order. */
  function Referencias(q: seq<int>, videos: seq<Video>, dist: (seq<int>, seq<int>) -> real): seq<Frame>
  {
    if videos == [] then []
    else
      var v := videos[|videos| - 1];
      Referencias(q, videos[..|videos| - 1], dist) + FramesDe(q, v, |v.frames|, dist)
  }

  /** The buffer after offering it every entry of `fs` in order. */
  function InsertarTodos(buf: seq<Frame>, fs: seq<Frame>): (r: seq<Frame>)
    requires |buf| > 0
    ensures |r| == |buf|
  {
    if fs == [] then buf
    else Insertado(InsertarTodos(buf, fs[..|fs| - 1]), fs[|fs| - 1])
  }

  /** The entries that left the buffer during `InsertarTodos(buf, fs)`, one per offer. */
  function Desalojados(buf: seq<Frame>, fs: seq<Frame>): (r: seq<Frame>)
    requires |buf| > 0
    ensures |r| == |fs|
  {
    if fs == [] then []
    else Desalojados(buf, fs[..|fs| - 1]) + [Desalojado(InsertarTodos(buf, fs[..|fs| - 1]), fs[|fs| - 1])]
  }

  function Centinelas(k: nat): (r: seq<Frame>)
    ensures |r| == k && forall i :: 0 <= i < k ==> r[i] == Centinela
  {
    seq(k, _ => Centinela)
  }

  /** The k nearest reference frames to `q` as the scan leaves them. */
  function MasCercanos(q: seq<int>, videos: seq<Video>, k: nat, dist: (seq<int>, seq<int>) -> real): (r: seq<Frame>)
    requires k > 0 || Referencias(q, videos, dist) == []
    ensures |r| == k
  {
    if k == 0 then [] else InsertarTodos(Centinelas(k), Referencias(q, videos, dist))
  }

  lemma {:induction false} InsertarTodosOrdenado(buf: seq<Frame>, fs: seq<Frame>)
    requires |buf| > 0 && Ordenada(buf)
    ensures Ordenada(InsertarTodos(buf, fs))
    ensures InsertarTodos(buf, fs)[|buf| - 1].distancia <= buf[|buf| - 1].distancia
  {
    if fs != [] {
      var prev := fs[..|fs| - 1];
      InsertarTodosOrdenado(buf, prev);
      InsertadoOrdenado(InsertarTodos(buf, prev), fs[|fs| - 1]);
      InsertadoCota(InsertarTodos(buf, prev), fs[|fs| - 1]);
    }
  }

  /** The kept and the dropped entries together are the starting buffer and every offered entry. */
  lemma {:induction false} InsertarTodosMultiset(buf: seq<Frame>, fs: seq<Frame>)
    requires |buf| > 0
    ensures multiset(InsertarTodos(buf, fs)) + multiset(Desalojados(buf, fs)) == multiset(buf) + multiset(fs)
  {
    if fs != [] {
      var prev := fs[..|fs| - 1];
      var f := fs[|fs| - 1];
      var b := InsertarTodos(buf, prev);
      InsertarTodosMultiset(buf, prev);
      InsertadoMultiset(b, f);
      assert fs == prev + [f];
      assert multiset(fs) == multiset(prev) + multiset{f};
      assert Desalojados(buf, fs) == Desalojados(buf, prev) + [Desalojado(b, f)];
      assert multiset(Desalojados(buf, fs)) == multiset(Desalojados(buf, prev)) + multiset{Desalojado(b, f)};
      assert InsertarTodos(buf, fs) == Insertado(b, f);
      var mr, md', e := multiset(Insertado(b, f)), multiset(Desalojados(buf, prev)), multiset{Desalojado(b, f)};
      calc {
        multiset(InsertarTodos(buf, fs)) + multiset(Desalojados(buf, fs));
        mr + (md' + e);
        (mr + e) + md';
        (multiset(b) + multiset{f}) + md';
        (multiset(b) + md') + multiset{f};
        (multiset(buf) + multiset(prev)) + multiset{f};
        multiset(buf) + multiset(fs);
      }
    }
  }

  /** On a sorted start, every dropped entry is at least as far as the final last slot. */
  lemma {:induction false} InsertarTodosSepara(buf: seq<Frame>, fs: seq<Frame>)
    requires |buf| > 0 && Ordenada(buf)
    ensures forall y :: y in Desalojados(buf, fs) ==>
      InsertarTodos(buf, fs)[|buf| - 1].distancia <= y.distancia
  {
    if fs != [] {
      var prev := fs[..|fs| - 1];
      var f := fs[|fs| - 1];
      var b := InsertarTodos(buf, prev);
      InsertarTodosSepara(buf, prev);
      InsertarTodosOrdenado(buf, prev);
      InsertadoCota(b, f);
      var r := Insertado(b, f);
      assert r[|r| - 1] in r;
      forall y | y in Desalojados(buf, fs) ensures r[|r| - 1].distancia <= y.distancia {
        if y in Desalojados(buf, prev) {
          assert b[|b| - 1].distancia <= y.distancia;
        } else {
          assert y == Desalojado(b, f);
        }
      }
    }
  }

  /** Every kept entry was in the starting buffer or was offered. */
  lemma {:induction false} InsertarTodosOrigen(buf: seq<Frame>, fs: seq<Frame>)
    requires |buf| > 0
    ensures forall x :: x in InsertarTodos(buf, fs) ==> x in buf || x in fs
  {
    if fs != [] {
      var prev := fs[..|fs| - 1];
      InsertarTodosOrigen(buf, prev);
      InsertadoMultiset(InsertarTodos(buf, prev), fs[|fs| - 1]);
      assert fs == prev + [fs[|fs| - 1]];
      forall x | x in InsertarTodos(buf, fs) ensures x in buf || x in fs {
        assert x in multiset(InsertarTodos(buf, fs));
      }
    }
  }

  /**
   * Starting from sentinels, after offering at most k entries that are all
   * closer than the sentinels, the slots past the offered count are still
   * sentinels.
   */
  lemma {:induction false} InsertarTodosCentinelas(k: nat, fs: seq<Frame>)
    requires 0 < k && |fs| <= k
    requires forall i :: 0 <= i < |fs| ==> fs[i].distancia < INFINITO
    ensures forall i :: |fs| <= i < k ==> InsertarTodos(Centinelas(k), fs)[i] == Centinela
  {
    if fs != [] {
      var j := |fs|;
      var prev := fs[..j - 1];
      var f := fs[j - 1];
      InsertarTodosCentinelas(k, prev);
      var b := InsertarTodos(Centinelas(k), prev);
      assert b[k - 1] == Centinela;
      var p := Hueco(b, f.distancia, k - 1);
      var r := Insertado(b, f);
      assert r == b[..p] + [f] + b[p..k - 1];
      forall i | j <= i < k ensures r[i] == Centinela {
        assert r[i] == b[i - 1];
      }
    }
  }

  lemma {:induction false} FramesDeValidos(q: seq<int>, v: Video, n: nat, dist: (seq<int>, seq<int>) -> real)
    requires n <= |v.frames|
    ensures forall x :: x in FramesDe(q, v, n, dist) ==>
      x.comercial == v.nombre && 0 <= x.indice < |v.frames| && x.distancia == dist(q, v.frames[x.indice])
  {
    if n > 0 {
      FramesDeValidos(q, v, n - 1, dist);
    }
  }

  /** Every reference entry names an existing frame of a video with that name, at its true distance. */
  lemma {:induction false} ReferenciasValidas(q: seq<int>, videos: seq<Video>, dist: (seq<int>, seq<int>) -> real)
    ensures forall x :: x in Referencias(q, videos, dist) ==>
      exists v :: v in videos && v.nombre == x.comercial && 0 <= x.indice < |v.frames| &&
        x.distancia == dist(q, v.frames[x.indice])
  {
    if videos != [] {
      var prev := videos[..|videos| - 1];
      var v := videos[|videos| - 1];
      ReferenciasValidas(q, prev, dist);
      FramesDeValidos(q, v, |v.frames|, dist);
      forall x | x in Referencias(q, videos, dist)
        ensures exists w :: (w in videos && w.nombre == x.comercial && 0 <= x.indice < |w.frames| &&
          x.distancia == dist(q, w.frames[x.indice]))
      {
        if x in Referencias(q, prev, dist) {
          var w :| w in prev && w.nombre == x.comercial && 0 <= x.indice < |w.frames| &&
            x.distancia == dist(q, w.frames[x.indice]);
          assert w in videos;
        } else {
          assert v in videos;
        }
      }
    }
  }

  /** No reference frames at all exactly when every video is empty. */
  lemma {:induction false} ReferenciasVacias(q: seq<int>, videos: seq<Video>, dist: (seq<int>, seq<int>) -> real)
    ensures Referencias(q, videos, dist) == [] <==> forall j :: 0 <= j < |videos| ==> videos[j].frames == []
  {
    if videos != [] {
      var prev := videos[..|videos| - 1];
      ReferenciasVacias(q, prev, dist);
      var v := videos[|videos| - 1];
      if Referencias(q, videos, dist) == [] {
        assert |FramesDe(q, v, |v.frames|, dist)| == 0;
        forall j | 0 <= j < |videos| ensures videos[j].frames == [] {
          if j < |videos| - 1 {
            assert videos[j] == prev[j];
          }
        }
      } else {
        assert forall j :: 0 <= j < |prev| ==> prev[j] == videos[j];
      }
    }
  }

  /** The scan returns k entries sorted by distance. */
  lemma MasCercanosOrdenado(q: seq<int>, videos: seq<Video>, k: nat, dist: (seq<int>, seq<int>) -> real)
    requires k > 0 || Referencias(q, videos, dist) == []
    ensures |MasCercanos(q, videos, k, dist)| == k && Ordenada(MasCercanos(q, videos, k, dist))
  {
    if k > 0 {
      InsertarTodosOrdenado(Centinelas(k), Referencias(q, videos, dist));
    }
  }

  /**
   * The k smallest: the result and the entries the scan dropped together are
   * exactly the k sentinels and the reference entries, and every kept entry
   * is no farther than every dropped one.
   */
  lemma MasCercanosMenores(q: seq<int>, videos: seq<Video>, k: nat, dist: (seq<int>, seq<int>) -> real)
    requires k > 0
    ensures var r := MasCercanos(q, videos, k, dist);
      var fuera := Desalojados(Centinelas(k), Referencias(q, videos, dist));
      multiset(r) + multiset(fuera) == multiset(Centinelas(k)) + multiset(Referencias(q, videos, dist)) &&
      forall x, y :: x in r && y in fuera ==> x.distancia <= y.distancia
  {
    var fs := Referencias(q, videos, dist);
    var r := InsertarTodos(Centinelas(k), fs);
    InsertarTodosMultiset(Centinelas(k), fs);
    InsertarTodosSepara(Centinelas(k), fs);
    InsertarTodosOrdenado(Centinelas(k), fs);
    OrdenadaUltimo(r);
  }

  /**
   * Every entry of the result is a sentinel or names an existing frame of a
   * video with that name, at its distance from the query.
   */
  lemma MasCercanosValidos(q: seq<int>, videos: seq<Video>, k: nat, dist: (seq<int>, seq<int>) -> real)
    requires k > 0 || Referencias(q, videos, dist) == []
    ensures forall x :: x in MasCercanos(q, videos, k, dist) ==>
      (x == Centinela ||
       exists v :: (v in videos && v.nombre == x.comercial && 0 <= x.indice < |v.frames| &&
         x.distancia == dist(q, v.frames[x.indice])))
  {
    if k > 0 {
      InsertarTodosOrigen(Centinelas(k), Referencias(q, videos, dist));
      ReferenciasValidas(q, videos, dist);
    }
  }

  /**
   * With at most k reference frames, all closer than the sentinel
   * distance, the trailing slots stay sentinels.
   */
  lemma MasCercanosPocos(q: seq<int>, videos: seq<Video>, k: nat, dist: (seq<int>, seq<int>) -> real)
    requires |Referencias(q, videos, dist)| <= k
    requires forall x :: x in Referencias(q, videos, dist) ==> x.distancia < INFINITO
    ensures forall i :: |Referencias(q, videos, dist)| <= i < k ==> MasCercanos(q, videos, k, dist)[i] == Centinela
  {
    var fs := Referencias(q, videos, dist);
    if k > 0 {
      assert forall i :: 0 <= i < |fs| ==> fs[i] in fs;
      InsertarTodosCentinelas(k, fs);
    }
  }

  // ---------------------------------------------------------------------------
  // The methods
  // ---------------------------------------------------------------------------

  /**
   * Offers `frame` to the buffer `lista` in place: rejected when farther than
   * the last slot, otherwise shifted in from the right.
   */
  method InsertarMinFrame(lista: array<Frame>, frame: Frame)
    requires lista.Length > 0
    modifies lista
    ensures lista[..] == Insertado(old(lista[..]), frame)
    ensures frame.distancia > old(lista[lista.Length - 1].distancia) ==> lista[..] == old(lista[..])
  {
    var n := lista.Length;
    ghost var antes := lista[..];
    if frame.distancia > lista[n - 1].distancia {
      return;
    }
    var i := n - 1;
    while i > 0 && lista[i - 1].distancia > frame.distancia
      invariant 0 <= i <= n - 1
      invariant forall m :: i <= m < n - 1 ==> antes[m].distancia > frame.distancia
      invariant forall m :: 0 <= m < i ==> lista[m] == antes[m]
      invariant forall m :: i < m < n ==> lista[m] == antes[m - 1]
    {
      lista[i] := lista[i - 1];
      i := i - 1;
    }
    lista[i] := frame;
    DesplazamientoInsertado(antes, lista[..], frame, i);
  }

  /** The array left by the shift loop is the buffer `Insertado` describes. */
  lemma DesplazamientoInsertado(antes: seq<Frame>, despues: seq<Frame>, f: Frame, i: nat)
    requires |antes| == |despues| && i < |antes|
    requires f.distancia <= antes[|antes| - 1].distancia
    requires forall m :: i <= m < |antes| - 1 ==> antes[m].distancia > f.distancia
    requires i == 0 || antes[i - 1].distancia <= f.distancia
    requires forall m :: 0 <= m < i ==> despues[m] == antes[m]
    requires despues[i] == f
    requires forall m :: i < m < |antes| ==> despues[m] == antes[m - 1]
    ensures despues == Insertado(antes, f)
  {
    HuecoCorte(antes, f.distancia, |antes| - 1, i);
    assert despues[..i] == antes[..i];
    assert despues[i + 1..] == antes[i..|antes| - 1];
    assert despues == despues[..i] + [despues[i]] + despues[i + 1..];
  }

  /** The shift from slot `i` stops at `p` when every entry in between is farther than `d` and the one before is not. */
  lemma {:induction false} HuecoCorte(s: seq<Frame>, d: real, i: nat, p: nat)
    requires p <= i < |s|
    requires forall m :: p <= m < i ==> s[m].distancia > d
    requires p == 0 || s[p - 1].distancia <= d
    ensures Hueco(s, d, i) == p
  {
    if i > p {
      HuecoCorte(s, d, i - 1, p);
    }
  }

  /**
   * The k reference frames nearest to `frame`, scanning every frame of every
   * video in order and offering each one to a buffer of k sentinels.
   */
  method FramesMasCercanosFrame(frame: seq<int>, videos: seq<Video>, k: nat, funcion: (seq<int>, seq<int>) -> real)
    returns (cercanos: seq<Frame>)
    requires k > 0 || Referencias(frame, videos, funcion) == []
    ensures cercanos == MasCercanos(frame, videos, k, funcion)
  {
    var lista := new Frame[k](_ => Centinela);
    assert lista[..] == Centinelas(k);
    for v := 0 to |videos|
      invariant k > 0 ==> lista[..] == InsertarTodos(Centinelas(k), Referencias(frame, videos[..v], funcion))
    {
      ReferenciasUno(frame, videos[..v], videos[v], funcion);
      assert videos[..v] + [videos[v]] == videos[..v + 1];
      if k > 0 {
        OfrecerVideo(lista, frame, videos[v], funcion, Centinelas(k), Referencias(frame, videos[..v], funcion));
      } else {
        // With no slot there is nothing to scan: every video is empty.
        ReferenciasVacias(frame, videos, funcion);
        assert videos[v].frames == [];
      }
    }
    assert videos[..|videos|] == videos;
    cercanos := lista[..];
  }

  /** The inner loop of the scan: every frame of `video`, in order, is offered to the buffer. */
  method OfrecerVideo(lista: array<Frame>, frame: seq<int>, video: Video, funcion: (seq<int>, seq<int>) -> real,
                      ghost buf: seq<Frame>, ghost previos: seq<Frame>)
    requires |buf| > 0 && lista[..] == InsertarTodos(buf, previos)
    modifies lista
    ensures lista[..] == InsertarTodos(buf, previos + FramesDe(frame, video, |video.frames|, funcion))
  {
    assert previos + FramesDe(frame, video, 0, funcion) == previos;
    for i := 0 to |video.frames|
      invariant lista[..] == InsertarTodos(buf, previos + FramesDe(frame, video, i, funcion))
    {
      var dist := funcion(frame, video.frames[i]);
      var nuevo := Frame(video.nombre, i, dist);
      ghost var ofrecidos := previos + FramesDe(frame, video, i, funcion);
      InsertarTodosUno(buf, ofrecidos, nuevo);
      InsertarMinFrame(lista, nuevo);
      FramesDeUno(previos, frame, video, i, funcion);
    }
  }

  lemma ReferenciasUno(q: seq<int>, vs: seq<Video>, v: Video, dist: (seq<int>, seq<int>) -> real)
    ensures Referencias(q, vs + [v], dist) == Referencias(q, vs, dist) + FramesDe(q, v, |v.frames|, dist)
  {
    assert (vs + [v])[..|vs|] == vs;
  }

  lemma FramesDeUno(previos: seq<Frame>, q: seq<int>, v: Video, i: nat, dist: (seq<int>, seq<int>) -> real)
    requires i < |v.frames|
    ensures previos + FramesDe(q, v, i + 1, dist) == previos + FramesDe(q, v, i, dist) + [Frame(v.nombre, i, dist(q, v.frames[i]))]
  {
  }

  lemma InsertarTodosUno(buf: seq<Frame>, fs: seq<Frame>, f: Frame)
    requires |buf| > 0
    ensures InsertarTodos(buf, fs + [f]) == Insertado(InsertarTodos(buf, fs), f)
  {
    assert (fs + [f])[..|fs|] == fs;
  }

  /** In a sorted non-empty sequence no entry is farther than the last one. */
  lemma OrdenadaUltimo(s: seq<Frame>)
    requires |s| > 0 && Ordenada(s)
    ensures forall x :: x in s ==> x.distancia <= s[|s| - 1].distancia
  {
    forall x | x in s ensures x.distancia <= s[|s| - 1].distancia {
      var m :| 0 <= m < |s| && s[m] == x;
      assert m < |s| - 1 ==> s[m].distancia <= s[|s| - 1].distancia;
    }
  }
}
