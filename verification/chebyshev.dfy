/** SymmFuncChebyshev's polynomial evaluators: chebyshevFunction fills
    t[0..n) with the Chebyshev polynomials T_i(s) and dt[0..n) with their
    derivatives by the two-term recurrence, in one of five loop shapes
    (not unrolled, unrolled by 2, 4, 6 or 8, chosen at build time);
    chebyshevTrigonometric evaluates the order-n polynomial at s = cos r in
    its cosine form, with a small-angle series for the derivative. */
module Chebyshev {
  import opened Common

  /** Below this angle the derivative uses its Taylor series. */
  const SMALL_ANG: real := 0.00001

  // ---------------------------------------------------------------------
  // The polynomials

  /** Chebyshev polynomial of the first kind, T_i(s), by its recurrence. */
  function T(s: real, i: nat): real
  {
    if i == 0 then 1.0
    else if i == 1 then s
    else 2.0 * s * T(s, i - 1) - T(s, i - 2)
  }

  /** The derivative recurrence carried alongside T. */
  function DT(s: real, i: nat): real
  {
    if i == 0 then 0.0
    else if i == 1 then 1.0
    else 2.0 * (s * DT(s, i - 1) + T(s, i - 1)) - DT(s, i - 2)
  }

  /** Chebyshev polynomial of the second kind, U_i(s): the independent
      reference for what DT computes. */
  function U(s: real, i: nat): real
  {
    if i == 0 then 1.0
    else if i == 1 then 2.0 * s
    else 2.0 * s * U(s, i - 1) - U(s, i - 2)
  }

  /** The recurrences' sliding window at index i >= 1: T_i, T_{i-1},
      DT_i, DT_{i-1}, U_i, U_{i-1} and U_{i-2} (with U_{-1} = 0). */
  datatype Window = Window(t: real, t1: real, d: real, d1: real, u: real, u1: real, u2: real)

  /** One step of all three recurrences. */
  function Slide(s: real, w: Window): Window
  {
    Window(2.0 * s * w.t - w.t1, w.t, 2.0 * (s * w.d + w.t) - w.d1, w.d, 2.0 * s * w.u - w.u1, w.u, w.u1)
  }

  function WindowAt(s: real, i: nat): Window
    requires i >= 1
  {
    if i == 1 then Window(s, 1.0, 1.0, 0.0, 2.0 * s, 1.0, 0.0)
    else Slide(s, WindowAt(s, i - 1))
  }

  /** The relations between the three sequences at index n, as they hold
      of a window: T_n = U_n - s U_{n-1}, DT_n = n U_{n-1}, and likewise
      one index lower. */
  ghost predicate Related(s: real, n: real, w: Window)
  {
    && w.t == w.u - s * w.u1
    && w.t1 == w.u1 - s * w.u2
    && w.d == n * w.u1
    && w.d1 == (n - 1.0) * w.u2
    && w.u == 2.0 * s * w.u1 - w.u2
  }

  /** Sliding keeps the relations: the algebra of the induction step. */
  lemma SlideRelated(s: real, n: real, w: Window)
    requires Related(s, n, w)
    ensures Related(s, n + 1.0, Slide(s, w))
  {
    var w' := Slide(s, w);
    assert w'.t == w'.u - s * w'.u1 by {
      calc {
        w'.t;
        2.0 * s * (w.u - s * w.u1) - (w.u1 - s * w.u2);
        2.0 * s * w.u - w.u1 - s * (2.0 * s * w.u1 - w.u2);
        2.0 * s * w.u - w.u1 - s * w.u;
      }
    }
    assert w'.d == (n + 1.0) * w'.u1 by {
      calc {
        w'.d;
        2.0 * (s * (n * w.u1) + (w.u - s * w.u1)) - (n - 1.0) * w.u2;
        n * (2.0 * s * w.u1 - w.u2) + 2.0 * w.u - 2.0 * s * w.u1 + w.u2;
        n * w.u + w.u;
      }
    }
  }

  lemma {:induction false} WindowRelated(s: real, i: nat)
    requires i >= 1
    ensures Related(s, i as real, WindowAt(s, i))
  {
    if i > 1 {
      WindowRelated(s, i - 1);
      SlideRelated(s, (i - 1) as real, WindowAt(s, i - 1));
    }
  }

  /** The window holds the values of T, DT and U. */
  lemma WindowValues(s: real, i: nat)
    requires i >= 1
    ensures WindowAt(s, i).t == T(s, i) && WindowAt(s, i).t1 == T(s, i - 1)
    ensures WindowAt(s, i).d == DT(s, i) && WindowAt(s, i).d1 == DT(s, i - 1)
    ensures WindowAt(s, i).u == U(s, i) && WindowAt(s, i).u1 == U(s, i - 1)
    ensures WindowAt(s, i).u2 == if i == 1 then 0.0 else U(s, i - 2)
  {
    WindowT(s, i);
    WindowDT(s, i);
    WindowU(s, i);
  }

  lemma {:induction false} WindowT(s: real, i: nat)
    requires i >= 1
    ensures WindowAt(s, i).t == T(s, i) && WindowAt(s, i).t1 == T(s, i - 1)
  {
    if i > 1 {
      WindowT(s, i - 1);
      assert WindowAt(s, i) == Slide(s, WindowAt(s, i - 1));
    }
  }

  lemma {:induction false} WindowDT(s: real, i: nat)
    requires i >= 1
    ensures WindowAt(s, i).d == DT(s, i) && WindowAt(s, i).d1 == DT(s, i - 1)
  {
    if i > 1 {
      WindowT(s, i - 1);
      WindowDT(s, i - 1);
      assert WindowAt(s, i) == Slide(s, WindowAt(s, i - 1));
    }
  }

  lemma {:induction false} WindowU(s: real, i: nat)
    requires i >= 1
    ensures WindowAt(s, i).u == U(s, i) && WindowAt(s, i).u1 == U(s, i - 1)
    ensures WindowAt(s, i).u2 == if i == 1 then 0.0 else U(s, i - 2)
  {
    if i > 1 {
      WindowU(s, i - 1);
    }
  }

  /** T_i = U_i - s U_{i-1}. */
  lemma TFromU(s: real, i: nat)
    requires i >= 1
    ensures T(s, i) == U(s, i) - s * U(s, i - 1)
  {
    WindowRelated(s, i);
    WindowValues(s, i);
  }

  /** What the derivative recurrence computes: d T_i / ds = i U_{i-1}. */
  lemma DTIsDerivative(s: real, i: nat)
    requires i >= 1
    ensures DT(s, i) == (i as real) * U(s, i - 1)
  {
    WindowRelated(s, i);
    WindowValues(s, i);
  }

  /** At s = 1 (the angle r = 0): T_i(1) = 1, U_i(1) = i + 1 and
      DT_i(1) = i^2. */
  lemma {:induction false} AtOne(i: nat)
    ensures T(1.0, i) == 1.0
    ensures U(1.0, i) == (i as real) + 1.0
    ensures DT(1.0, i) == (i as real) * (i as real)
  {
    if i >= 2 {
      AtOne(i - 1);
      AtOne(i - 2);
    }
    if i >= 1 {
      DTIsDerivative(1.0, i);
    }
  }

  // ---------------------------------------------------------------------
  // Loop bounds of the unrolled variants

  /** Entries chebyshevFunction writes: the two seeds always, then up to n. */
  function Top(n: int): nat
  {
    if n < 2 then 2 else n
  }

  /** The end n - ((n - lo) % w) that chebyshevFunction computes, with C's
      remainder, for a loop that starts at lo and steps by w: when lo <= n
      it lies in (n - w, n] at a whole number of steps from lo; when
      n < lo it lies in [n, lo], so the loop does not run. */
  lemma UnrollBound(n: int, lo: int, w: int)
    requires w > 0
    ensures lo <= n ==> lo <= n - CRem(n - lo, w) <= n && CRem(n - lo, w) < w
    ensures n < lo ==> n <= n - CRem(n - lo, w) <= lo
    ensures n - CRem(n - lo, w) - lo == CDiv(n - lo, w) * w
  {
    var q := CDiv(n - lo, w);
    if n < lo {
      assert q <= 0;
      NonPositiveMultiple(q, w);
    }
  }

  lemma NonPositiveMultiple(q: int, w: int)
    requires q <= 0 < w
    ensures q * w <= 0
  {
  }

  /** The unroll-2 bound m = n - ((n - 2) % 2). */
  lemma Unroll2Bound(n: int)
    ensures (n - CRem(n - 2, 2) - 2) % 2 == 0
    ensures n >= 2 ==> 2 <= n - CRem(n - 2, 2) <= n
    ensures n < 2 ==> n <= n - CRem(n - 2, 2) <= 2
  {
    UnrollBound(n, 2, 2);
    assert (CDiv(n - 2, 2) * 2) % 2 == 0;
  }

  /** The unroll-4 bound m = n - ((n - 2) % 4): for n >= 2 it satisfies
      2 <= m <= n and (m - 2) % 4 == 0, so the step-4 loop ends exactly
      at m and the tail covers m .. n-1. */
  lemma Unroll4Bound(n: int)
    ensures (n - CRem(n - 2, 4) - 2) % 4 == 0
    ensures n >= 2 ==> 2 <= n - CRem(n - 2, 4) <= n
    ensures n < 2 ==> n <= n - CRem(n - 2, 4) <= 2
  {
    UnrollBound(n, 2, 4);
    assert (CDiv(n - 2, 4) * 4) % 4 == 0;
  }

  /** The unroll-6 bounds l = n - ((n - 2) % 6) and m = n - ((n - l) % 4):
      for n >= 2, 2 <= l <= m <= n, so the step-4 cleanup loop starts at
      l and never passes n. */
  lemma Unroll6Bound(n: int)
    ensures (n - CRem(n - 2, 6) - 2) % 6 == 0
    ensures (n - CRem(n - (n - CRem(n - 2, 6)), 4) - (n - CRem(n - 2, 6))) % 4 == 0
    ensures n >= 2 ==> 2 <= n - CRem(n - 2, 6) <= n - CRem(n - (n - CRem(n - 2, 6)), 4) <= n
    ensures n < 2 ==> n <= n - CRem(n - (n - CRem(n - 2, 6)), 4) <= n - CRem(n - 2, 6) <= 2
  {
    var l := n - CRem(n - 2, 6);
    UnrollBound(n, 2, 6);
    assert (CDiv(n - 2, 6) * 6) % 6 == 0;
    UnrollBound(n, l, 4);
    assert (CDiv(n - l, 4) * 4) % 4 == 0;
  }

  /** The unroll-8 bounds l = n - ((n - 2) % 8) and m = n - ((n - l) % 4),
      as for unroll-6. */
  lemma Unroll8Bound(n: int)
    ensures (n - CRem(n - 2, 8) - 2) % 8 == 0
    ensures (n - CRem(n - (n - CRem(n - 2, 8)), 4) - (n - CRem(n - 2, 8))) % 4 == 0
    ensures n >= 2 ==> 2 <= n - CRem(n - 2, 8) <= n - CRem(n - (n - CRem(n - 2, 8)), 4) <= n
    ensures n < 2 ==> n <= n - CRem(n - (n - CRem(n - 2, 8)), 4) <= n - CRem(n - 2, 8) <= 2
  {
    var l := n - CRem(n - 2, 8);
    UnrollBound(n, 2, 8);
    assert (CDiv(n - 2, 8) * 8) % 8 == 0;
    UnrollBound(n, l, 4);
    assert (CDiv(n - l, 4) * 4) % 4 == 0;
  }

  // ---------------------------------------------------------------------
  // The in-place evaluators

  /** t and dt after a call: the first Top(n) entries hold the polynomials
      and their derivatives, the rest is as before. */
  function Filled(s: real, n: int, before: seq<real>, deriv: bool): (a: seq<real>)
    requires |before| >= Top(n)
    ensures |a| == |before|
    ensures forall j :: 0 <= j < Top(n) ==> a[j] == if deriv then DT(s, j) else T(s, j)
    ensures forall j :: Top(n) <= j < |a| ==> a[j] == before[j]
  {
    seq(|before|, j requires 0 <= j < |before| => if j < Top(n) then (if deriv then DT(s, j) else T(s, j)) else before[j])
  }

  /** Entries 0 .. hi-1 of t hold T_0 .. T_{hi-1}. */
  ghost predicate TUpTo(t: array<real>, s: real, hi: int)
    reads t
  {
    hi <= t.Length && forall j :: 0 <= j < hi ==> t[j] == T(s, j)
  }

  /** Entries 0 .. hi-1 of dt hold DT_0 .. DT_{hi-1}. */
  ghost predicate DTUpTo(dt: array<real>, s: real, hi: int)
    reads dt
  {
    hi <= dt.Length && forall j :: 0 <= j < hi ==> dt[j] == DT(s, j)
  }

  /** The indices lo .. hi-1 in increasing order. */
  function Range(lo: int, hi: int): (r: seq<int>)
    ensures |r| == if hi < lo then 0 else hi - lo
    ensures forall j :: 0 <= j < |r| ==> r[j] == lo + j
  {
    seq(if hi < lo then 0 else hi - lo, j => lo + j)
  }

  lemma RangeSplit(lo: int, mid: int, hi: int)
    requires lo <= mid <= hi
    ensures Range(lo, mid) + Range(mid, hi) == Range(lo, hi)
  {
  }

  /** The seeds, the unrolled loop up to m and the tail write 0 .. Top(n)-1
      in order. */
  lemma WriteOrder(n: int, m: int)
    requires (n >= 2 ==> 2 <= m <= n) && (n < 2 ==> n <= m <= 2)
    ensures [0, 1] + Range(2, m) + Range(m, n) == Range(0, Top(n))
  {
    if n >= 2 {
      RangeSplit(0, 2, m);
      RangeSplit(0, m, n);
    }
  }

  /** The same with a cleanup loop from l to m between the unrolled loop
      and the tail. */
  lemma WriteOrderCleanup(n: int, l: int, m: int)
    requires (n >= 2 ==> 2 <= l <= m <= n) && (n < 2 ==> n <= m <= l <= 2)
    ensures [0, 1] + Range(2, l) + Range(l, m) + Range(m, n) == Range(0, Top(n))
  {
    if n >= 2 {
      RangeSplit(0, 2, l);
      RangeSplit(0, l, m);
      RangeSplit(0, m, n);
    }
  }

  /** The whole-array form of the result: after seeding and the loops,
      the arrays are the Filled images of what they held before. */
  lemma FilledFrom(t: array<real>, dt: array<real>, s: real, n: int, tBefore: seq<real>, dtBefore: seq<real>)
    requires |tBefore| == t.Length >= Top(n) && |dtBefore| == dt.Length >= Top(n)
    requires TUpTo(t, s, Top(n)) && DTUpTo(dt, s, Top(n))
    requires forall j :: Top(n) <= j < t.Length ==> t[j] == tBefore[j]
    requires forall j :: Top(n) <= j < dt.Length ==> dt[j] == dtBefore[j]
    ensures t[..] == Filled(s, n, tBefore, false) && dt[..] == Filled(s, n, dtBefore, true)
  {
  }

  /** The seeds, t[0..2) = [1, s] and dt[0..2) = [0, 1]. */
  method Seed(t: array<real>, dt: array<real>, s: real)
    requires t != dt && t.Length >= 2 && dt.Length >= 2
    modifies t, dt
    ensures TUpTo(t, s, 2) && DTUpTo(dt, s, 2)
    ensures forall j :: 2 <= j < t.Length ==> t[j] == old(t[j])
    ensures forall j :: 2 <= j < dt.Length ==> dt[j] == old(dt[j])
  {
    t[0] := 1.0;
    t[1] := s;
    dt[0] := 0.0;
    dt[1] := 1.0;
  }

  /** One step of the polynomial recurrence, t[i] = 2 s t[i-1] - t[i-2]. */
  method NextT(t: array<real>, s: real, i: nat)
    requires 2 <= i < t.Length && TUpTo(t, s, i)
    modifies t
    ensures TUpTo(t, s, i + 1)
    ensures forall j :: 0 <= j < t.Length && j != i ==> t[j] == old(t[j])
  {
    assert t[i - 1] == T(s, i - 1) && t[i - 2] == T(s, i - 2);
    t[i] := 2.0 * s * t[i - 1] - t[i - 2];
    assert t[i] == T(s, i);
  }

  /** One step of the derivative recurrence,
      dt[i] = 2 (s dt[i-1] + t[i-1]) - dt[i-2]. */
  method NextDT(t: array<real>, dt: array<real>, s: real, i: nat)
    requires t != dt && 2 <= i < dt.Length && TUpTo(t, s, i) && DTUpTo(dt, s, i)
    modifies dt
    ensures DTUpTo(dt, s, i + 1)
    ensures forall j :: 0 <= j < dt.Length && j != i ==> dt[j] == old(dt[j])
  {
    assert dt[i - 1] == DT(s, i - 1) && t[i - 1] == T(s, i - 1) && dt[i - 2] == DT(s, i - 2);
    dt[i] := 2.0 * (s * dt[i - 1] + t[i - 1]) - dt[i - 2];
    assert dt[i] == DT(s, i);
  }

  /** One pass of the loop unrolled by 2: t[i..i+2), then dt[i..i+2). */
  method Pass2(t: array<real>, dt: array<real>, s: real, i: nat)
    requires t != dt && 2 <= i && i + 2 <= t.Length && i + 2 <= dt.Length
    requires TUpTo(t, s, i) && DTUpTo(dt, s, i)
    modifies t, dt
    ensures TUpTo(t, s, i + 2) && DTUpTo(dt, s, i + 2)
    ensures forall j :: i + 2 <= j < t.Length ==> t[j] == old(t[j])
    ensures forall j :: i + 2 <= j < dt.Length ==> dt[j] == old(dt[j])
  {
    NextT(t, s, i);
    NextT(t, s, i + 1);
    NextDT(t, dt, s, i);
    NextDT(t, dt, s, i + 1);
  }

  /** One pass of a loop unrolled by 4: t[i..i+4), then dt[i..i+4). */
  method Pass4(t: array<real>, dt: array<real>, s: real, i: nat)
    requires t != dt && 2 <= i && i + 4 <= t.Length && i + 4 <= dt.Length
    requires TUpTo(t, s, i) && DTUpTo(dt, s, i)
    modifies t, dt
    ensures TUpTo(t, s, i + 4) && DTUpTo(dt, s, i + 4)
    ensures forall j :: i + 4 <= j < t.Length ==> t[j] == old(t[j])
    ensures forall j :: i + 4 <= j < dt.Length ==> dt[j] == old(dt[j])
  {
    NextT(t, s, i);
    NextT(t, s, i + 1);
    NextT(t, s, i + 2);
    NextT(t, s, i + 3);
    NextDT(t, dt, s, i);
    NextDT(t, dt, s, i + 1);
    NextDT(t, dt, s, i + 2);
    NextDT(t, dt, s, i + 3);
  }

  /** One pass of the loop unrolled by 6: t[i..i+6), then dt[i..i+6). */
  method Pass6(t: array<real>, dt: array<real>, s: real, i: nat)
    requires t != dt && 2 <= i && i + 6 <= t.Length && i + 6 <= dt.Length
    requires TUpTo(t, s, i) && DTUpTo(dt, s, i)
    modifies t, dt
    ensures TUpTo(t, s, i + 6) && DTUpTo(dt, s, i + 6)
    ensures forall j :: i + 6 <= j < t.Length ==> t[j] == old(t[j])
    ensures forall j :: i + 6 <= j < dt.Length ==> dt[j] == old(dt[j])
  {
    NextT(t, s, i);
    NextT(t, s, i + 1);
    NextT(t, s, i + 2);
    NextT(t, s, i + 3);
    NextT(t, s, i + 4);
    NextT(t, s, i + 5);
    NextDT(t, dt, s, i);
    NextDT(t, dt, s, i + 1);
    NextDT(t, dt, s, i + 2);
    NextDT(t, dt, s, i + 3);
    NextDT(t, dt, s, i + 4);
    NextDT(t, dt, s, i + 5);
  }

  /** One pass of the loop unrolled by 8: t[i..i+8), then dt[i..i+8). */
  method Pass8(t: array<real>, dt: array<real>, s: real, i: nat)
    requires t != dt && 2 <= i && i + 8 <= t.Length && i + 8 <= dt.Length
    requires TUpTo(t, s, i) && DTUpTo(dt, s, i)
    modifies t, dt
    ensures TUpTo(t, s, i + 8) && DTUpTo(dt, s, i + 8)
    ensures forall j :: i + 8 <= j < t.Length ==> t[j] == old(t[j])
    ensures forall j :: i + 8 <= j < dt.Length ==> dt[j] == old(dt[j])
  {
    NextT(t, s, i);
    NextT(t, s, i + 1);
    NextT(t, s, i + 2);
    NextT(t, s, i + 3);
    NextT(t, s, i + 4);
    NextT(t, s, i + 5);
    NextT(t, s, i + 6);
    NextT(t, s, i + 7);
    NextDT(t, dt, s, i);
    NextDT(t, dt, s, i + 1);
    NextDT(t, dt, s, i + 2);
    NextDT(t, dt, s, i + 3);
    NextDT(t, dt, s, i + 4);
    NextDT(t, dt, s, i + 5);
    NextDT(t, dt, s, i + 6);
    NextDT(t, dt, s, i + 7);
  }

  /** for (i = lo; i < m; i += 2), whose body is one Pass2. */
  method Loop2(t: array<real>, dt: array<real>, s: real, lo: int, m: int) returns (ghost log: seq<int>)
    requires t != dt
    requires m <= lo || (2 <= lo && m <= t.Length && m <= dt.Length && (m - lo) % 2 == 0)
    requires TUpTo(t, s, lo) && DTUpTo(dt, s, lo)
    modifies t, dt
    ensures TUpTo(t, s, if m <= lo then lo else m) && DTUpTo(dt, s, if m <= lo then lo else m)
    ensures forall j :: 0 <= j && (if m <= lo then lo else m) <= j < t.Length ==> t[j] == old(t[j])
    ensures forall j :: 0 <= j && (if m <= lo then lo else m) <= j < dt.Length ==> dt[j] == old(dt[j])
    ensures log == Range(lo, m)
  {
    log := [];
    var i := lo;
    ghost var passes := if m <= lo then 0 else (m - lo) / 2;
    while i < m
      invariant (m <= lo && i == lo) || (lo <= i <= m && m - i == 2 * passes)
      invariant TUpTo(t, s, i) && DTUpTo(dt, s, i)
      invariant forall j :: 0 <= j && i <= j < t.Length ==> t[j] == old(t[j])
      invariant forall j :: 0 <= j && i <= j < dt.Length ==> dt[j] == old(dt[j])
      invariant log == Range(lo, i)
    {
      Pass2(t, dt, s, i);
      RangeSplit(lo, i, i + 2);
      log := log + Range(i, i + 2);
      i := i + 2;
      passes := passes - 1;
    }
  }

  /** for (i = lo; i < m; i += 4), whose body is one Pass4. */
  method Loop4(t: array<real>, dt: array<real>, s: real, lo: int, m: int) returns (ghost log: seq<int>)
    requires t != dt
    requires m <= lo || (2 <= lo && m <= t.Length && m <= dt.Length && (m - lo) % 4 == 0)
    requires TUpTo(t, s, lo) && DTUpTo(dt, s, lo)
    modifies t, dt
    ensures TUpTo(t, s, if m <= lo then lo else m) && DTUpTo(dt, s, if m <= lo then lo else m)
    ensures forall j :: 0 <= j && (if m <= lo then lo else m) <= j < t.Length ==> t[j] == old(t[j])
    ensures forall j :: 0 <= j && (if m <= lo then lo else m) <= j < dt.Length ==> dt[j] == old(dt[j])
    ensures log == Range(lo, m)
  {
    log := [];
    var i := lo;
    ghost var passes := if m <= lo then 0 else (m - lo) / 4;
    while i < m
      invariant (m <= lo && i == lo) || (lo <= i <= m && m - i == 4 * passes)
      invariant TUpTo(t, s, i) && DTUpTo(dt, s, i)
      invariant forall j :: 0 <= j && i <= j < t.Length ==> t[j] == old(t[j])
      invariant forall j :: 0 <= j && i <= j < dt.Length ==> dt[j] == old(dt[j])
      invariant log == Range(lo, i)
    {
      Pass4(t, dt, s, i);
      RangeSplit(lo, i, i + 4);
      log := log + Range(i, i + 4);
      i := i + 4;
      passes := passes - 1;
    }
  }

  /** for (i = lo; i < m; i += 6), whose body is one Pass6. */
  method Loop6(t: array<real>, dt: array<real>, s: real, lo: int, m: int) returns (ghost log: seq<int>)
    requires t != dt
    requires m <= lo || (2 <= lo && m <= t.Length && m <= dt.Length && (m - lo) % 6 == 0)
    requires TUpTo(t, s, lo) && DTUpTo(dt, s, lo)
    modifies t, dt
    ensures TUpTo(t, s, if m <= lo then lo else m) && DTUpTo(dt, s, if m <= lo then lo else m)
    ensures forall j :: 0 <= j && (if m <= lo then lo else m) <= j < t.Length ==> t[j] == old(t[j])
    ensures forall j :: 0 <= j && (if m <= lo then lo else m) <= j < dt.Length ==> dt[j] == old(dt[j])
    ensures log == Range(lo, m)
  {
    log := [];
    var i := lo;
    ghost var passes := if m <= lo then 0 else (m - lo) / 6;
    while i < m
      invariant (m <= lo && i == lo) || (lo <= i <= m && m - i == 6 * passes)
      invariant TUpTo(t, s, i) && DTUpTo(dt, s, i)
      invariant forall j :: 0 <= j && i <= j < t.Length ==> t[j] == old(t[j])
      invariant forall j :: 0 <= j && i <= j < dt.Length ==> dt[j] == old(dt[j])
      invariant log == Range(lo, i)
    {
      Pass6(t, dt, s, i);
      RangeSplit(lo, i, i + 6);
      log := log + Range(i, i + 6);
      i := i + 6;
      passes := passes - 1;
    }
  }

  /** for (i = lo; i < m; i += 8), whose body is one Pass8. */
  method Loop8(t: array<real>, dt: array<real>, s: real, lo: int, m: int) returns (ghost log: seq<int>)
    requires t != dt
    requires m <= lo || (2 <= lo && m <= t.Length && m <= dt.Length && (m - lo) % 8 == 0)
    requires TUpTo(t, s, lo) && DTUpTo(dt, s, lo)
    modifies t, dt
    ensures TUpTo(t, s, if m <= lo then lo else m) && DTUpTo(dt, s, if m <= lo then lo else m)
    ensures forall j :: 0 <= j && (if m <= lo then lo else m) <= j < t.Length ==> t[j] == old(t[j])
    ensures forall j :: 0 <= j && (if m <= lo then lo else m) <= j < dt.Length ==> dt[j] == old(dt[j])
    ensures log == Range(lo, m)
  {
    log := [];
    var i := lo;
    ghost var passes := if m <= lo then 0 else (m - lo) / 8;
    while i < m
      invariant (m <= lo && i == lo) || (lo <= i <= m && m - i == 8 * passes)
      invariant TUpTo(t, s, i) && DTUpTo(dt, s, i)
      invariant forall j :: 0 <= j && i <= j < t.Length ==> t[j] == old(t[j])
      invariant forall j :: 0 <= j && i <= j < dt.Length ==> dt[j] == old(dt[j])
      invariant log == Range(lo, i)
    {
      Pass8(t, dt, s, i);
      RangeSplit(lo, i, i + 8);
      log := log + Range(i, i + 8);
      i := i + 8;
      passes := passes - 1;
    }
  }

  /** The common tail, for (i = m; i < n; ++i), one step at a time. */
  method Tail(t: array<real>, dt: array<real>, s: real, m: int, n: int) returns (ghost log: seq<int>)
    requires t != dt && (m < n ==> 2 <= m && n <= t.Length && n <= dt.Length)
    requires TUpTo(t, s, Top(m)) && DTUpTo(dt, s, Top(m))
    modifies t, dt
    ensures TUpTo(t, s, Top(if m < n then n else m)) && DTUpTo(dt, s, Top(if m < n then n else m))
    ensures forall j :: Top(if m < n then n else m) <= j < t.Length ==> t[j] == old(t[j])
    ensures forall j :: Top(if m < n then n else m) <= j < dt.Length ==> dt[j] == old(dt[j])
    ensures log == Range(m, n)
  {
    log := [];
    var i := m;
    while i < n
      invariant m <= i && (i <= n || i == m)
      invariant TUpTo(t, s, Top(i)) && DTUpTo(dt, s, Top(i))
      invariant forall j :: Top(i) <= j < t.Length ==> t[j] == old(t[j])
      invariant forall j :: Top(i) <= j < dt.Length ==> dt[j] == old(dt[j])
      invariant log == Range(m, i)
    {
      NextT(t, s, i);
      NextDT(t, dt, s, i);
      log := log + [i];
      i := i + 1;
    }
  }

  // ---------------------------------------------------------------------
  // chebyshevFunction, one method per build variant. Each fills t[0..n)
  // and dt[0..n) (the two seeds even when n < 2) with T_i(s) and DT_i(s),
  // leaves every later entry alone, and writes each index once, in
  // increasing order (log). The five share one postcondition, so they
  // produce identical arrays.

  /** CHEBYSHEV_NOT_UNROLL: the seeds, then the tail from m = 2. */
  method ChebyshevPlain(t: array<real>, dt: array<real>, s: real, n: int) returns (ghost log: seq<int>)
    requires t != dt && t.Length >= Top(n) && dt.Length >= Top(n)
    modifies t, dt
    ensures t[..] == Filled(s, n, old(t[..]), false) && dt[..] == Filled(s, n, old(dt[..]), true)
    ensures log == Range(0, Top(n))
  {
    Seed(t, dt, s);
    var m := 2;
    ghost var rest := Tail(t, dt, s, m, n);
    log := [0, 1] + rest;
    FilledFrom(t, dt, s, n, old(t[..]), old(dt[..]));
  }

  /** CHEBYSHEV_UNROLL2: a loop unrolled by 2 up to m = n - ((n - 2) % 2),
      then the tail. */
  method ChebyshevUnroll2(t: array<real>, dt: array<real>, s: real, n: int) returns (ghost log: seq<int>)
    requires t != dt && t.Length >= Top(n) && dt.Length >= Top(n)
    modifies t, dt
    ensures t[..] == Filled(s, n, old(t[..]), false) && dt[..] == Filled(s, n, old(dt[..]), true)
    ensures log == Range(0, Top(n))
  {
    Seed(t, dt, s);
    var m := n - CRem(n - 2, 2);
    Unroll2Bound(n);
    ghost var main := Loop2(t, dt, s, 2, m);
    ghost var rest := Tail(t, dt, s, m, n);
    log := [0, 1] + main + rest;
    WriteOrder(n, m);
    FilledFrom(t, dt, s, n, old(t[..]), old(dt[..]));
  }

  /** CHEBYSHEV_UNROLL4: a loop unrolled by 4 up to m = n - ((n - 2) % 4),
      then the tail. */
  method ChebyshevUnroll4(t: array<real>, dt: array<real>, s: real, n: int) returns (ghost log: seq<int>)
    requires t != dt && t.Length >= Top(n) && dt.Length >= Top(n)
    modifies t, dt
    ensures t[..] == Filled(s, n, old(t[..]), false) && dt[..] == Filled(s, n, old(dt[..]), true)
    ensures log == Range(0, Top(n))
  {
    Seed(t, dt, s);
    var m := n - CRem(n - 2, 4);
    Unroll4Bound(n);
    ghost var main := Loop4(t, dt, s, 2, m);
    ghost var rest := Tail(t, dt, s, m, n);
    log := [0, 1] + main + rest;
    WriteOrder(n, m);
    FilledFrom(t, dt, s, n, old(t[..]), old(dt[..]));
  }

  /** CHEBYSHEV_UNROLL6: a loop unrolled by 6 up to l = n - ((n - 2) % 6),
      a loop unrolled by 4 from l up to m = n - ((n - l) % 4), then the
      tail. */
  method ChebyshevUnroll6(t: array<real>, dt: array<real>, s: real, n: int) returns (ghost log: seq<int>)
    requires t != dt && t.Length >= Top(n) && dt.Length >= Top(n)
    modifies t, dt
    ensures t[..] == Filled(s, n, old(t[..]), false) && dt[..] == Filled(s, n, old(dt[..]), true)
    ensures log == Range(0, Top(n))
  {
    Seed(t, dt, s);
    Unroll6Bound(n);
    var l := n - CRem(n - 2, 6);
    ghost var main := Loop6(t, dt, s, 2, l);
    var m := n - CRem(n - l, 4);
    ghost var cleanup := Loop4(t, dt, s, l, m);
    ghost var rest := Tail(t, dt, s, m, n);
    log := [0, 1] + main + cleanup + rest;
    WriteOrderCleanup(n, l, m);
    FilledFrom(t, dt, s, n, old(t[..]), old(dt[..]));
  }

  /** CHEBYSHEV_UNROLL8: a loop unrolled by 8 up to l = n - ((n - 2) % 8),
      a loop unrolled by 4 from l up to m = n - ((n - l) % 4), then the
      tail. */
  method ChebyshevUnroll8(t: array<real>, dt: array<real>, s: real, n: int) returns (ghost log: seq<int>)
    requires t != dt && t.Length >= Top(n) && dt.Length >= Top(n)
    modifies t, dt
    ensures t[..] == Filled(s, n, old(t[..]), false) && dt[..] == Filled(s, n, old(dt[..]), true)
    ensures log == Range(0, Top(n))
  {
    Seed(t, dt, s);
    Unroll8Bound(n);
    var l := n - CRem(n - 2, 8);
    ghost var main := Loop8(t, dt, s, 2, l);
    var m := n - CRem(n - l, 4);
    ghost var cleanup := Loop4(t, dt, s, l, m);
    ghost var rest := Tail(t, dt, s, m, n);
    log := [0, 1] + main + cleanup + rest;
    WriteOrderCleanup(n, l, m);
    FilledFrom(t, dt, s, n, old(t[..]), old(dt[..]));
  }

  // ---------------------------------------------------------------------
  // chebyshevTrigonometric: the order-n polynomial at s = cos r

  /** The small-angle series k^2 (1 - (k^2 - 1) r^2 / 6) that replaces
      k sin(k r) / sin r below SMALL_ANG. */
  function SmallAngleDeriv(n: int, r: real): real
  {
    (n as real) * (n as real) * (1.0 - ((n as real) * (n as real) - 1.0) / 6.0 * r * r)
  }

  /** The value chebyshevTrigonometric stores in t[0]: T_n(cos r) in its
      cosine form cos(n r). */
  function TrigValue(k: Kernels, r: real, n: int): real
  {
    k.cos((n as real) * r)
  }

  /** The value chebyshevTrigonometric stores in dt[0]: dT_n/ds at
      s = cos r, which is n sin(n r) / sin r, or the series below
      SMALL_ANG. */
  function TrigDeriv(k: Kernels, r: real, n: int): (d: real)
    ensures r < SMALL_ANG ==> d == SmallAngleDeriv(n, r)
    ensures r >= SMALL_ANG && k.sin(r) != 0.0 ==> d * k.sin(r) == (n as real) * k.sin((n as real) * r)
  {
    if r < SMALL_ANG then SmallAngleDeriv(n, r)
    else QuotientForm(k, r, n)
  }

  /** n sin(n r) / sin r. */
  function QuotientForm(k: Kernels, r: real, n: int): (d: real)
    ensures k.sin(r) != 0.0 ==> d * k.sin(r) == (n as real) * k.sin((n as real) * r)
  {
    Quot((n as real) * k.sin((n as real) * r), k.sin(r))
  }

  /** chebyshevTrigonometric: writes t[0] and dt[0] and nothing else.
      The kernel values are taken through TrigValue and TrigDeriv, which
      evaluate exactly chebyshevTrigonometric's two expressions. */
  method ChebyshevTrigonometric(t: array<real>, dt: array<real>, r: real, n: int, k: Kernels)
    requires t != dt && t.Length >= 1 && dt.Length >= 1
    modifies t, dt
    ensures t[0] == TrigValue(k, r, n) && dt[0] == TrigDeriv(k, r, n)
    ensures forall j :: 1 <= j < t.Length ==> t[j] == old(t[j])
    ensures forall j :: 1 <= j < dt.Length ==> dt[j] == old(dt[j])
  {
    t[0] := TrigValue(k, r, n);
    dt[0] := TrigDeriv(k, r, n);
  }

  /** At r = 0 the two evaluators agree: the series gives n^2, which is
      the recurrence's derivative DT_n at s = cos 0 = 1, and cos(n 0) is
      T_n(1) = 1 whenever the cosine kernel has cos 0 = 1. */
  lemma TrigonometricAtZero(n: nat, k: Kernels)
    requires k.cos(0.0) == 1.0
    ensures TrigDeriv(k, 0.0, n) == DT(1.0, n)
    ensures TrigValue(k, 0.0, n) == T(1.0, n)
  {
    AtOne(n);
  }

  /** The series never exceeds its value n^2 at r = 0. */
  lemma SmallAngleBelowLimit(n: int, r: real)
    ensures SmallAngleDeriv(n, r) <= SmallAngleDeriv(n, 0.0) == (n as real) * (n as real)
  {
    var q := (n as real) * (n as real);
    assert q == 0.0 || q >= 1.0 by {
      if n != 0 { SquareAtLeastOne(n); }
    }
    SeriesAlgebra(q, r * r);
  }

  lemma SquareAtLeastOne(n: int)
    requires n != 0
    ensures (n as real) * (n as real) >= 1.0
  {
    assert n * n >= 1 by {
      if n > 0 { assert n * n >= n; } else { assert n * n >= -n; }
    }
    assert (n as real) * (n as real) == (n * n) as real;
  }

  lemma SeriesAlgebra(q: real, r2: real)
    requires q == 0.0 || q >= 1.0
    ensures q * (1.0 - (q - 1.0) / 6.0 * r2) <= q || r2 < 0.0
  {
    if r2 >= 0.0 && q >= 1.0 {
      assert (q - 1.0) / 6.0 * r2 >= 0.0;
    }
  }

  // ---------------------------------------------------------------------
  // The class's basis counts

  /** The state of a SymmFuncChebyshev that this model reads. The
      constructor that sets it lives in nnp_symm_func_chebyshev.cpp, which
      is not part of this model, so the fields are taken as given. */
  class SymmFuncChebyshev {
    var sizeRad: int
    var sizeAng: int
    var numRadBasis: int
    var numAngBasis: int

    /** getNumRadBasis: the stored radial basis count, read-only. */
    function GetNumRadBasis(): (r: int)
      reads this
      ensures r == numRadBasis
    {
      numRadBasis
    }

    /** getNumAngBasis: the stored angular basis count, read-only. */
    function GetNumAngBasis(): (r: int)
      reads this
      ensures r == numAngBasis
    {
      numAngBasis
    }
  }
}
