/** When a segment's turn comes in the census, and that the order goes by turns. */
module CensusTurns {
  import opened Basics
  import opened Bits
  import opened CensusOrder

  // The first volume that starts at a segment.
  predicate StartsAt(vols: seq<Volume>, v: nat, f: int) {
    v < |vols| && Start(vols, v) == f && forall u :: 0 <= u < v ==> Start(vols, u) != f
  }

  /** The first four segments come in order, then the last one, then the head of each volume,
      and after those every other segment when its bits, read backwards, come up. */
  predicate IsTurn(vols: seq<Volume>, f: nat, n: nat)
    requires f < Total(vols)
  {
    if f < 4 then n == f
    else if f == Total(vols) - 1 then n == 4
    else if exists v :: 0 <= v < |vols| && Start(vols, v) == f then n >= 5 && StartsAt(vols, n - 5, f)
    else n == 5 + |vols| + Reverse(f, BitLen(Total(vols) - 1))
  }

  ghost predicate FirstVisit(visits: seq<int>, n: nat, f: int) {
    n < |visits| && visits[n] == f && forall m :: 0 <= m < n ==> visits[m] != f
  }

  ghost predicate InOrder(order: seq<int>, f: int, g: int) {
    exists i, j :: 0 <= i < j < |order| && order[i] == f && order[j] == g
  }

  lemma StillInOrder(a: seq<int>, b: seq<int>, f: int, g: int)
    requires InOrder(a, f, g) && a <= b
    ensures InOrder(b, f, g)
  {
    var i, j :| 0 <= i < j < |a| && a[i] == f && a[j] == g;
    assert b[i] == f && b[j] == g;
  }

  lemma ThenInOrder(a: seq<int>, f: int, g: int)
    requires f in a
    ensures InOrder(a + [g], f, g)
  {
    var i :| 0 <= i < |a| && a[i] == f;
    assert (a + [g])[i] == f && (a + [g])[|a|] == g;
  }

  /** Emitting keeps the order of first visits. */
  lemma {:induction false} EmittedInOrder(vols: seq<Volume>, visits: seq<int>, m: nat, n: nat, f: int, g: int)
    requires FirstVisit(visits, m, f) && FirstVisit(visits, n, g) && m < n
    requires Askable(vols, f) && Askable(vols, g)
    ensures InOrder(Emitted(vols, visits), f, g)
  {
    var k := |visits| - 1;
    var init := visits[..k];
    EmittedExactly(vols, init);
    if n == k {
      SeenIsMember(init, g);
      assert init[m] == f;
      ThenInOrder(Emitted(vols, init), f, g);
    } else {
      EmittedInOrder(vols, init, m, n, f, g);
      StillInOrder(Emitted(vols, init), Emitted(vols, visits), f, g);
    }
  }

  lemma AnchorsAre(vols: seq<Volume>, m: nat)
    requires Total(vols) > 0 && m < 5 + |vols|
    ensures |Anchors(vols)| == 5 + |vols| <= |Visits(vols)|
    ensures Visits(vols)[m] == if m < 4 then m else if m == 4 then Total(vols) - 1 else Start(vols, m - 5)
  {
  }

  lemma OthersAre(vols: seq<Volume>, m: nat)
    requires Total(vols) > 0 && m < Pow2(BitLen(Total(vols) - 1))
    ensures 5 + |vols| + m < |Visits(vols)| && Visits(vols)[5 + |vols| + m] == Reverse(m, BitLen(Total(vols) - 1))
  {
  }

  lemma AnchorsTurn(vols: seq<Volume>, f: nat, n: nat)
    requires f < Total(vols) && IsTurn(vols, f, n) && n < 5 + |vols|
    ensures FirstVisit(Visits(vols), n, f)
  {
    AnchorsAre(vols, n);
    forall m | 0 <= m < n ensures Visits(vols)[m] != f {
      AnchorsAre(vols, m);
    }
  }

  lemma {:induction false} OthersTurn(vols: seq<Volume>, f: nat, n: nat)
    requires f < Total(vols) && IsTurn(vols, f, n) && n >= 5 + |vols|
    ensures FirstVisit(Visits(vols), n, f)
  {
    var k := BitLen(Total(vols) - 1);
    BitLenBounds(Total(vols) - 1);
    ReverseBound(f, k);
    ReverseInvolutive(f, k);
    OthersAre(vols, Reverse(f, k));
    forall m | 0 <= m < n ensures Visits(vols)[m] != f {
      if m < 5 + |vols| {
        AnchorsAre(vols, m);
      } else {
        OthersAre(vols, m - 5 - |vols|);
        ReverseInvolutive(m - 5 - |vols|, k);
      }
    }
  }

  lemma TurnIsFirstVisit(vols: seq<Volume>, f: nat, n: nat)
    requires f < Total(vols) && IsTurn(vols, f, n)
    ensures FirstVisit(Visits(vols), n, f)
  {
    if n < 5 + |vols| {
      AnchorsTurn(vols, f, n);
    } else {
      OthersTurn(vols, f, n);
    }
  }

  /** Every segment has a turn. */
  lemma {:induction false} HasATurn(vols: seq<Volume>, f: nat) returns (n: nat)
    requires f < Total(vols)
    ensures IsTurn(vols, f, n)
  {
    if f < 4 {
      n := f;
    } else if f == Total(vols) - 1 {
      n := 4;
    } else if v :| 0 <= v < |vols| && Start(vols, v) == f {
      var u := FirstStart(vols, v, f);
      n := 5 + u;
    } else {
      n := 5 + |vols| + Reverse(f, BitLen(Total(vols) - 1));
    }
  }

  lemma {:induction false} FirstStart(vols: seq<Volume>, v: nat, f: int) returns (u: nat)
    requires v < |vols| && Start(vols, v) == f
    ensures StartsAt(vols, u, f)
  {
    if w :| 0 <= w < v && Start(vols, w) == f {
      u := FirstStart(vols, w, f);
    } else {
      u := v;
    }
  }

  /** The census asks about one segment before another exactly when its turn comes first: with
      completeness this is the whole order. */
  lemma OrderGoesByTurns(vols: seq<Volume>, f: nat, g: nat, m: nat, n: nat)
    requires Askable(vols, f) && Askable(vols, g) && IsTurn(vols, f, m) && IsTurn(vols, g, n) && f != g
    ensures m != n
    ensures InOrder(FlatOrder(vols), f, g) <==> m < n
  {
    TurnIsFirstVisit(vols, f, m);
    TurnIsFirstVisit(vols, g, n);
    if m < n {
      EmittedInOrder(vols, Visits(vols), m, n, f, g);
    } else {
      EmittedInOrder(vols, Visits(vols), n, m, g, f);
      OrderIsComplete(vols);
    }
  }

  /** The census asks about a segment exactly when it names an article or heads its volume. */
  lemma AskedIsNamedOrHead(vols: seq<Volume>, v: nat, s: nat)
    requires v < |vols| && s < |vols[v].named|
    ensures Start(vols, v) + s in FlatOrder(vols) <==> s == 0 || vols[v].named[s]
  {
    IsAsked(vols, Start(vols, v) + s);
    NamedIsAskable(vols, v, s, Start(vols, v) + s);
  }

  lemma NamedIsAskable(vols: seq<Volume>, v: nat, s: nat, f: int)
    requires v < |vols| && s < |vols[v].named| && f == Start(vols, v) + s
    ensures Askable(vols, f) <==> s == 0 || vols[v].named[s]
  {
    StartsAscend(vols, v + 1, |vols|);
    OwnerIsUnique(vols, Located(vols, f), Point(v, s), f);
  }

  lemma IsAsked(vols: seq<Volume>, f: int)
    ensures f in FlatOrder(vols) <==> Askable(vols, f)
  {
    OrderIsComplete(vols);
  }

  lemma AskedIsInTheFile(vols: seq<Volume>, f: int) returns (p: Point)
    requires f in FlatOrder(vols)
    ensures p.vol < |vols| && p.seg < |vols[p.vol].named| && Start(vols, p.vol) + p.seg == f
  {
    IsAsked(vols, f);
    p := Located(vols, f);
  }
}
