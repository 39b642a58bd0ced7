/** The neighbour-pair enumeration of the angular part: which pairs the
    loop nest of SymmFuncBehler::calculate visits, in which order, and that
    it visits each unordered pair of distinct neighbours inside the angular
    cutoff exactly once. */
module BehlerPairs {
  import opened Common
  import opened Layout
  import opened BehlerWrites

  /** The orientation in which a pair is visited: by index in the weighted
      layout, by species and then by index in the explicit layout. */
  predicate Ordered(b: Basis, elems: seq<int>, i1: nat, i2: nat)
    requires i1 < |elems| && i2 < |elems|
  {
    if b.elemWeight then i1 < i2
    else elems[i1] < elems[i2] || (elems[i1] == elems[i2] && i1 < i2)
  }

  /** A pair the angular part must visit: both neighbours inside the
      angular cutoff, in visiting orientation. */
  predicate Pairable(b: Basis, numNeighbor: nat, elems: seq<int>, pos: seq<Neighbor>, p: (nat, nat))
    requires numNeighbor <= |elems| && numNeighbor <= |pos|
  {
    && p.0 < numNeighbor && p.1 < numNeighbor
    && pos[p.0].r < b.rcutAng && pos[p.1].r < b.rcutAng
    && Ordered(b, elems, p.0, p.1)
  }

  /** Loop order of the nest: outer index first, then inner index. */
  predicate LoopBefore(p: (nat, nat), q: (nat, nat))
  {
    p.1 < q.1 || (p.1 == q.1 && p.0 < q.0)
  }

  /** The visiting orientation is irreflexive and antisymmetric: a
      neighbour is never paired with itself, and of (a, c) and (c, a) at
      most one is ever visited. */
  lemma OrderedStrict(b: Basis, elems: seq<int>, a: nat, c: nat)
    requires a < |elems| && c < |elems|
    ensures Ordered(b, elems, a, c) ==> a != c && !Ordered(b, elems, c, a)
    ensures a != c ==> Ordered(b, elems, a, c) || Ordered(b, elems, c, a)
  {
  }

  /** The inner loop for outer index i2 over inner indices 0 .. m-1
      visits exactly the inner indices that pass its filters, in
      increasing order. */
  lemma {:induction false} RowPairsSpec(b: Basis, elems: seq<int>, pos: seq<Neighbor>, i2: nat, m: nat)
    requires m <= |elems| && m <= |pos| && i2 < |elems|
    ensures forall j :: 0 <= j < |RowPairs(b, elems, pos, i2, m)| ==>
              && RowPairs(b, elems, pos, i2, m)[j].1 == i2 && RowPairs(b, elems, pos, i2, m)[j].0 < m
              && Visits(b, elems, pos, RowPairs(b, elems, pos, i2, m)[j].0, i2)
    ensures forall a: nat :: a < m && Visits(b, elems, pos, a, i2) ==> (a, i2) in RowPairs(b, elems, pos, i2, m)
    ensures forall j, j' :: 0 <= j < j' < |RowPairs(b, elems, pos, i2, m)| ==>
              RowPairs(b, elems, pos, i2, m)[j].0 < RowPairs(b, elems, pos, i2, m)[j'].0
  {
    if m > 0 {
      RowPairsSpec(b, elems, pos, i2, m - 1);
    }
  }

  /** The outer loop over outer indices 0 .. m-1 visits exactly the
      pairs with outer index below m that pass the filters, in loop order. */
  lemma AngularPairsSpec(b: Basis, numNeighbor: nat, elems: seq<int>, pos: seq<Neighbor>, m: nat)
    requires m <= numNeighbor <= |elems| && numNeighbor <= |pos|
    ensures forall j :: 0 <= j < |AngularPairs(b, numNeighbor, elems, pos, m)| ==>
              && Pairable(b, numNeighbor, elems, pos, AngularPairs(b, numNeighbor, elems, pos, m)[j])
              && AngularPairs(b, numNeighbor, elems, pos, m)[j].1 < m
    ensures forall a: nat, c: nat :: c < m && Pairable(b, numNeighbor, elems, pos, (a, c)) ==>
              (a, c) in AngularPairs(b, numNeighbor, elems, pos, m)
    ensures forall j, j' :: 0 <= j < j' < |AngularPairs(b, numNeighbor, elems, pos, m)| ==>
              LoopBefore(AngularPairs(b, numNeighbor, elems, pos, m)[j], AngularPairs(b, numNeighbor, elems, pos, m)[j'])
  {
    AngularPairsSound(b, numNeighbor, elems, pos, m);
    AngularPairsComplete(b, numNeighbor, elems, pos, m);
    AngularPairsOrdered(b, numNeighbor, elems, pos, m);
  }

  /** The pairs visited by outer indices 0 .. m-1 are the ones before,
      then the row of outer index m-1 unless that neighbour is out of
      the angular cutoff. */
  lemma AngularPairsStep(b: Basis, numNeighbor: nat, elems: seq<int>, pos: seq<Neighbor>, m: nat)
    requires 0 < m <= numNeighbor <= |elems| && numNeighbor <= |pos|
    ensures AngularPairs(b, numNeighbor, elems, pos, m)
            == AngularPairs(b, numNeighbor, elems, pos, m - 1)
               + (if pos[m - 1].r >= b.rcutAng then []
                  else RowPairs(b, elems, pos, m - 1, Mneigh(b, numNeighbor, m - 1)))
  {
  }

  /** Every pair visited is one the angular part must visit. */
  lemma {:induction false} AngularPairsSound(b: Basis, numNeighbor: nat, elems: seq<int>, pos: seq<Neighbor>, m: nat)
    requires m <= numNeighbor <= |elems| && numNeighbor <= |pos|
    ensures forall j :: 0 <= j < |AngularPairs(b, numNeighbor, elems, pos, m)| ==>
              && Pairable(b, numNeighbor, elems, pos, AngularPairs(b, numNeighbor, elems, pos, m)[j])
              && AngularPairs(b, numNeighbor, elems, pos, m)[j].1 < m
  {
    if m > 0 {
      var i2 := m - 1;
      AngularPairsSound(b, numNeighbor, elems, pos, i2);
      AngularPairsStep(b, numNeighbor, elems, pos, m);
      var prev := AngularPairs(b, numNeighbor, elems, pos, i2);
      if pos[i2].r < b.rcutAng {
        var mn := Mneigh(b, numNeighbor, i2);
        var row := RowPairs(b, elems, pos, i2, mn);
        RowPairsSpec(b, elems, pos, i2, mn);
        forall j | 0 <= j < |prev + row|
          ensures Pairable(b, numNeighbor, elems, pos, (prev + row)[j]) && (prev + row)[j].1 < m
        {
          if j >= |prev| {
            assert (prev + row)[j] == row[j - |prev|];
          }
        }
      }
    }
  }

  /** Every pair the angular part must visit with outer index below m is
      visited. */
  lemma {:induction false} AngularPairsComplete(b: Basis, numNeighbor: nat, elems: seq<int>, pos: seq<Neighbor>, m: nat)
    requires m <= numNeighbor <= |elems| && numNeighbor <= |pos|
    ensures forall a: nat, c: nat :: c < m && Pairable(b, numNeighbor, elems, pos, (a, c)) ==>
              (a, c) in AngularPairs(b, numNeighbor, elems, pos, m)
  {
    if m > 0 {
      var i2 := m - 1;
      AngularPairsComplete(b, numNeighbor, elems, pos, i2);
      AngularPairsStep(b, numNeighbor, elems, pos, m);
      var prev := AngularPairs(b, numNeighbor, elems, pos, i2);
      var mn := Mneigh(b, numNeighbor, i2);
      var tail := if pos[i2].r >= b.rcutAng then [] else RowPairs(b, elems, pos, i2, mn);
      assert AngularPairs(b, numNeighbor, elems, pos, m) == prev + tail;
      forall a: nat, c: nat | c < m && Pairable(b, numNeighbor, elems, pos, (a, c))
        ensures (a, c) in prev + tail
      {
        if c == i2 {
          RowPairsSpec(b, elems, pos, i2, mn);
          assert a < mn && Visits(b, elems, pos, a, i2);
          assert (a, c) in tail;
        } else {
          assert (a, c) in prev;
        }
      }
    }
  }

  /** The visited pairs come in loop order. */
  lemma {:induction false} AngularPairsOrdered(b: Basis, numNeighbor: nat, elems: seq<int>, pos: seq<Neighbor>, m: nat)
    requires m <= numNeighbor <= |elems| && numNeighbor <= |pos|
    ensures forall j, j' :: 0 <= j < j' < |AngularPairs(b, numNeighbor, elems, pos, m)| ==>
              LoopBefore(AngularPairs(b, numNeighbor, elems, pos, m)[j], AngularPairs(b, numNeighbor, elems, pos, m)[j'])
  {
    if m > 0 {
      var i2 := m - 1;
      AngularPairsOrdered(b, numNeighbor, elems, pos, i2);
      AngularPairsSound(b, numNeighbor, elems, pos, i2);
      AngularPairsStep(b, numNeighbor, elems, pos, m);
      var prev := AngularPairs(b, numNeighbor, elems, pos, i2);
      var mn := Mneigh(b, numNeighbor, i2);
      var tail := if pos[i2].r >= b.rcutAng then [] else RowPairs(b, elems, pos, i2, mn);
      assert AngularPairs(b, numNeighbor, elems, pos, m) == prev + tail;
      RowPairsSpec(b, elems, pos, i2, mn);
      assert forall j :: 0 <= j < |tail| ==> tail[j].1 == i2;
      forall j, j' | 0 <= j < j' < |prev + tail|
        ensures LoopBefore((prev + tail)[j], (prev + tail)[j'])
      {
        if j' >= |prev| {
          assert (prev + tail)[j'] == tail[j' - |prev|];
          if j >= |prev| {
            assert (prev + tail)[j] == tail[j - |prev|];
          } else {
            assert (prev + tail)[j] == prev[j];
          }
        } else {
          assert (prev + tail)[j] == prev[j] && (prev + tail)[j'] == prev[j'];
        }
      }
    }
  }

  /** Each unordered pair of distinct neighbours inside the angular cutoff
      is visited exactly once, in its visiting orientation, and nothing
      else is visited: never a neighbour with itself, never a pair in both
      orientations, never a pair twice. */
  lemma AngularPairsExactlyOnce(b: Basis, numNeighbor: nat, elems: seq<int>, pos: seq<Neighbor>)
    requires numNeighbor <= |elems| && numNeighbor <= |pos|
    ensures forall p :: p in AngularPairs(b, numNeighbor, elems, pos, numNeighbor)
                        <==> Pairable(b, numNeighbor, elems, pos, p)
    ensures forall j :: 0 <= j < |AngularPairs(b, numNeighbor, elems, pos, numNeighbor)| ==>
              AngularPairs(b, numNeighbor, elems, pos, numNeighbor)[j].0
              != AngularPairs(b, numNeighbor, elems, pos, numNeighbor)[j].1
    ensures forall j, j' :: 0 <= j < j' < |AngularPairs(b, numNeighbor, elems, pos, numNeighbor)| ==>
              && AngularPairs(b, numNeighbor, elems, pos, numNeighbor)[j]
                 != AngularPairs(b, numNeighbor, elems, pos, numNeighbor)[j']
              && AngularPairs(b, numNeighbor, elems, pos, numNeighbor)[j]
                 != (AngularPairs(b, numNeighbor, elems, pos, numNeighbor)[j'].1,
                     AngularPairs(b, numNeighbor, elems, pos, numNeighbor)[j'].0)
    ensures forall a: nat, c: nat :: a < numNeighbor && c < numNeighbor && a != c
                                     && pos[a].r < b.rcutAng && pos[c].r < b.rcutAng ==>
              (a, c) in AngularPairs(b, numNeighbor, elems, pos, numNeighbor)
              || (c, a) in AngularPairs(b, numNeighbor, elems, pos, numNeighbor)
  {
    var ps := AngularPairs(b, numNeighbor, elems, pos, numNeighbor);
    AngularPairsSpec(b, numNeighbor, elems, pos, numNeighbor);
    forall j | 0 <= j < |ps|
      ensures ps[j].0 != ps[j].1
    {
      OrderedStrict(b, elems, ps[j].0, ps[j].1);
    }
    forall j, j' | 0 <= j < j' < |ps|
      ensures ps[j] != ps[j'] && ps[j] != (ps[j'].1, ps[j'].0)
    {
      assert LoopBefore(ps[j], ps[j']);
      OrderedStrict(b, elems, ps[j'].0, ps[j'].1);
    }
    forall a: nat, c: nat | a < numNeighbor && c < numNeighbor && a != c && pos[a].r < b.rcutAng && pos[c].r < b.rcutAng
      ensures (a, c) in ps || (c, a) in ps
    {
      OrderedStrict(b, elems, a, c);
      if Ordered(b, elems, a, c) {
        assert Pairable(b, numNeighbor, elems, pos, (a, c));
      } else {
        assert Pairable(b, numNeighbor, elems, pos, (c, a));
      }
    }
  }

  /** With fewer than two neighbours there is no pair to visit. */
  lemma FewNeighborsNoPairs(b: Basis, numNeighbor: nat, elems: seq<int>, pos: seq<Neighbor>)
    requires numNeighbor <= |elems| && numNeighbor <= |pos| && numNeighbor < 2
    ensures AngularPairs(b, numNeighbor, elems, pos, numNeighbor) == []
  {
    var ps := AngularPairs(b, numNeighbor, elems, pos, numNeighbor);
    AngularPairsSpec(b, numNeighbor, elems, pos, numNeighbor);
    if |ps| > 0 {
      OrderedStrict(b, elems, ps[0].0, ps[0].1);
      assert false;
    }
  }

  /** A neighbour at or beyond the angular cutoff takes part in no pair. */
  lemma FarNeighborUnpaired(b: Basis, numNeighbor: nat, elems: seq<int>, pos: seq<Neighbor>, i: nat)
    requires numNeighbor <= |elems| && numNeighbor <= |pos| && i < numNeighbor
    requires pos[i].r >= b.rcutAng
    ensures forall j :: 0 <= j < |AngularPairs(b, numNeighbor, elems, pos, numNeighbor)| ==>
              AngularPairs(b, numNeighbor, elems, pos, numNeighbor)[j].0 != i
              && AngularPairs(b, numNeighbor, elems, pos, numNeighbor)[j].1 != i
  {
    AngularPairsSpec(b, numNeighbor, elems, pos, numNeighbor);
  }
}
