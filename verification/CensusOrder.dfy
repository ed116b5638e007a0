/** The order in which the article census asks about a file's segments: anchors
    first, then a bit-reversal permutation of the flat segment space, so that any
    prefix of the census is spread over the whole file. */
module CensusOrder {
  import opened Basics
  import opened Bits

  // A volume, as the census sees it: for each segment, whether it names an
  // article. A volume that cannot say names one for every segment.
  datatype Volume = Volume(name: string, named: seq<bool>)

  datatype Point = Point(vol: nat, seg: nat)

  const CENSUS_ANCHOR_HEAD: nat := 4
  const UINT_SIZE: nat := 64

  /** The flat index of a volume's first segment. */
  function Start(vols: seq<Volume>, i: nat): nat
    requires i <= |vols|
  {
    if i == 0 then 0 else Start(vols, i - 1) + |vols[i - 1].named|
  }

  function Total(vols: seq<Volume>): nat {
    Start(vols, |vols|)
  }

  predicate Owns(vols: seq<Volume>, p: Point, flat: int) {
    p.vol < |vols| && p.seg < |vols[p.vol].named| && Start(vols, p.vol) + p.seg == flat
  }

  lemma {:induction false} StartsAscend(vols: seq<Volume>, i: nat, j: nat)
    requires i <= j <= |vols|
    ensures Start(vols, i) <= Start(vols, j)
    decreases j
  {
    if i < j { StartsAscend(vols, i, j - 1); }
  }

  /** No segment has two owners, however many empty volumes share a start. */
  lemma OwnerIsUnique(vols: seq<Volume>, p: Point, q: Point, flat: int)
    requires Owns(vols, p, flat) && Owns(vols, q, flat)
    ensures p == q
  {
    if p.vol < q.vol {
      StartsAscend(vols, p.vol + 1, q.vol);
    } else if q.vol < p.vol {
      StartsAscend(vols, q.vol + 1, p.vol);
    }
  }

  function Where(vols: seq<Volume>, flat: nat, vol: nat): (p: Point)
    requires vol < |vols| && Start(vols, vol) <= flat < Total(vols)
    ensures Owns(vols, p, flat)
    decreases |vols| - vol
  {
    if vol + 1 < |vols| && Start(vols, vol + 1) <= flat then Where(vols, flat, vol + 1)
    else
      Point(vol, flat - Start(vols, vol))
  }

  function Located(vols: seq<Volume>, flat: nat): (p: Point)
    requires flat < Total(vols)
    ensures Owns(vols, p, flat)
  {
    Where(vols, flat, 0)
  }

  /** A hole the NZB itself declares is not asked about, except at a volume's head. */
  predicate Askable(vols: seq<Volume>, flat: int) {
    && 0 <= flat < Total(vols)
    && var p := Located(vols, flat);
       p.seg == 0 || vols[p.vol].named[p.seg]
  }

  // ---------------------------------------------------------------------------
  // The order

  function Anchors(vols: seq<Volume>): seq<int>
    requires Total(vols) > 0
  {
    seq(CENSUS_ANCHOR_HEAD, i => i) + [Total(vols) - 1]
    + seq(|vols|, i requires 0 <= i < |vols| => Start(vols, i))
  }

  /** Every index handed to emit, in sequence. */
  function Visits(vols: seq<Volume>): seq<int>
    requires Total(vols) > 0
  {
    var k := BitLen(Total(vols) - 1);
    Anchors(vols) + seq(Pow2(k), i requires 0 <= i => Reverse(i, k))
  }

  /** What emit has let through after some visits: first visits only, in range,
      and askable. */
  function Emitted(vols: seq<Volume>, visits: seq<int>): seq<int> {
    if visits == [] then []
    else
      var n := |visits| - 1;
      var v := visits[n];
      Emitted(vols, visits[..n]) + if !Seen(visits[..n], v) && Askable(vols, v) then [v] else []
  }

  predicate Seen(visits: seq<int>, f: int) {
    visits != [] && (visits[|visits| - 1] == f || Seen(visits[..|visits| - 1], f))
  }

  lemma {:induction false} SeenIsMember(visits: seq<int>, f: int)
    ensures Seen(visits, f) <==> f in visits
  {
    if visits != [] {
      SeenIsMember(visits[..|visits| - 1], f);
      assert visits == visits[..|visits| - 1] + [visits[|visits| - 1]];
    }
  }

  function FlatOrder(vols: seq<Volume>): seq<int> {
    if Total(vols) == 0 then [] else Emitted(vols, Visits(vols))
  }

  lemma {:induction false} EmittedExactly(vols: seq<Volume>, visits: seq<int>)
    ensures forall f :: f in Emitted(vols, visits) <==> f in visits && Askable(vols, f)
    ensures forall i, j :: 0 <= i < j < |Emitted(vols, visits)| ==> Emitted(vols, visits)[i] != Emitted(vols, visits)[j]
    ensures |Emitted(vols, visits)| <= |visits|
  {
    if visits != [] {
      var n := |visits| - 1;
      EmittedExactly(vols, visits[..n]);
      SeenIsMember(visits[..n], visits[n]);
      assert visits == visits[..n] + [visits[n]];
    }
  }

  lemma {:induction false} EmittedPrefix(vols: seq<Volume>, visits: seq<int>, n: nat)
    requires n <= |visits|
    ensures Emitted(vols, visits[..n]) <= Emitted(vols, visits)
  {
    if n < |visits| {
      var m := |visits| - 1;
      EmittedPrefix(vols, visits[..m], n);
      assert visits[..m][..n] == visits[..n];
    } else {
      assert visits[..n] == visits;
    }
  }

  /** The census asks about exactly the askable segments, each once: every
      volume's segment 0, and every other segment that names an article. */
  lemma OrderIsComplete(vols: seq<Volume>)
    ensures forall f :: f in FlatOrder(vols) <==> Askable(vols, f)
    ensures forall i, j :: 0 <= i < j < |FlatOrder(vols)| ==> FlatOrder(vols)[i] != FlatOrder(vols)[j]
  {
    if Total(vols) > 0 {
      var visits := Visits(vols);
      EmittedExactly(vols, visits);
      forall f | Askable(vols, f) ensures f in visits {
        var k := BitLen(Total(vols) - 1);
        BitLenBounds(Total(vols) - 1);
        ReverseOfMultiples(f, k, k);
        ReverseBound(f, k);
        VisitedBy(vols, f, k);
      }
    }
  }

  /** The position in the sequence of visits where an index below the total is reached. */
  lemma VisitedBy(vols: seq<Volume>, f: nat, j: nat)
    requires f < Total(vols)
    requires j <= BitLen(Total(vols) - 1)
    requires LowZeros(f, BitLen(Total(vols) - 1) - j)
    ensures |Visits(vols)| == CENSUS_ANCHOR_HEAD + 1 + |vols| + Pow2(BitLen(Total(vols) - 1))
    ensures Pow2(j) <= Pow2(BitLen(Total(vols) - 1))
    ensures f in Visits(vols)[..CENSUS_ANCHOR_HEAD + 1 + |vols| + Pow2(j)]
  {
    var k := BitLen(Total(vols) - 1);
    BitLenBounds(Total(vols) - 1);
    Pow2Monotone(j, k);
    ReverseOfMultiples(f, k, j);
    ReverseInvolutive(f, k);
    var at := CENSUS_ANCHOR_HEAD + 1 + |vols| + Reverse(f, k);
    assert Visits(vols)[at] == f;
    assert Visits(vols)[..CENSUS_ANCHOR_HEAD + 1 + |vols| + Pow2(j)][at] == f;
  }

  lemma EarlyVisit(vols: seq<Volume>, j: nat, f: int) returns (i: nat)
    requires Total(vols) > 0 && j <= BitLen(Total(vols) - 1)
    requires Askable(vols, f) && LowZeros(f, BitLen(Total(vols) - 1) - j)
    ensures i < |FlatOrder(vols)| && i < CENSUS_ANCHOR_HEAD + 1 + |vols| + Pow2(j) && FlatOrder(vols)[i] == f
  {
    VisitedBy(vols, f, j);
    var n := CENSUS_ANCHOR_HEAD + 1 + |vols| + Pow2(j);
    var early := Emitted(vols, Visits(vols)[..n]);
    EmittedExactly(vols, Visits(vols)[..n]);
    EmittedPrefix(vols, Visits(vols), n);
    i :| 0 <= i < |early| && early[i] == f;
  }

  // 2^k is the smallest power of two that covers the file; after 2^j steps of the
  // permutation the stride is 2^(k-j).
  function Stride(vols: seq<Volume>, j: nat): nat
    requires Total(vols) > 0 && j <= BitLen(Total(vols) - 1)
  {
    Pow2(BitLen(Total(vols) - 1) - j)
  }

  /** A census cut short has still looked everywhere: for every j, the first 2^j
      entries past the anchors hold every askable multiple of the stride. */
  lemma PrefixIsSpread(vols: seq<Volume>, j: nat, f: int)
    requires Total(vols) > 0 && j <= BitLen(Total(vols) - 1)
    requires Askable(vols, f) && f % Stride(vols, j) == 0
    ensures exists i ::
              0 <= i < |FlatOrder(vols)| && i < CENSUS_ANCHOR_HEAD + 1 + |vols| + Pow2(j) && FlatOrder(vols)[i] == f
  {
    LowZerosIsMultiple(f, BitLen(Total(vols) - 1) - j);
    var i := EarlyVisit(vols, j, f);
  }

  /** So no stretch of askable segments as long as the stride is left unvisited. */
  lemma {:induction false} NoLongGap(vols: seq<Volume>, j: nat, a: nat) returns (i: nat)
    requires Total(vols) > 0 && j <= BitLen(Total(vols) - 1)
    requires forall f :: a <= f < a + Stride(vols, j) ==> Askable(vols, f)
    ensures i < |FlatOrder(vols)| && i < CENSUS_ANCHOR_HEAD + 1 + |vols| + Pow2(j)
    ensures a <= FlatOrder(vols)[i] < a + Stride(vols, j)
  {
    var f := LowZerosNearby(a, BitLen(Total(vols) - 1) - j);
    i := EarlyVisit(vols, j, f);
  }

  /** The anchors come first: the head of the file, its tail, and the first
      segment of every volume that has one. */
  lemma AnchorsComeFirst(vols: seq<Volume>, f: int)
    requires Askable(vols, f)
    requires f < CENSUS_ANCHOR_HEAD || f == Total(vols) - 1 || exists v :: 0 <= v < |vols| && f == Start(vols, v)
    ensures exists i :: 0 <= i < |FlatOrder(vols)| && i < CENSUS_ANCHOR_HEAD + 1 + |vols| && FlatOrder(vols)[i] == f
  {
    var visits := Visits(vols);
    var n := CENSUS_ANCHOR_HEAD + 1 + |vols|;
    var at: nat;
    if f < CENSUS_ANCHOR_HEAD {
      at := f;
    } else if f == Total(vols) - 1 {
      at := CENSUS_ANCHOR_HEAD;
    } else {
      var v :| 0 <= v < |vols| && f == Start(vols, v);
      at := CENSUS_ANCHOR_HEAD + 1 + v;
    }
    assert visits[..n][at] == f;
    var early := Emitted(vols, visits[..n]);
    EmittedExactly(vols, visits[..n]);
    EmittedPrefix(vols, visits, n);
    var i :| 0 <= i < |early| && early[i] == f;
    assert FlatOrder(vols)[i] == f;
  }

  /** A volume's head is asked about whether or not it names an article. */
  lemma {:induction false} HeadsAreAskable(vols: seq<Volume>, v: nat)
    requires v < |vols| && |vols[v].named| > 0
    ensures Askable(vols, Start(vols, v)) && Located(vols, Start(vols, v)) == Point(v, 0)
  {
    StartsAscend(vols, v + 1, |vols|);
    OwnerIsUnique(vols, Located(vols, Start(vols, v)), Point(v, 0), Start(vols, v));
  }

  // ---------------------------------------------------------------------------
  // The loops

  predicate StartsOf(vols: seq<Volume>, starts: seq<nat>) {
    |starts| == |vols| && forall i :: 0 <= i < |vols| ==> starts[i] == Start(vols, i)
  }

  method Locate(vols: seq<Volume>, starts: seq<nat>, flat: nat) returns (p: Point)
    requires flat < Total(vols)
    requires StartsOf(vols, starts)
    ensures p == Located(vols, flat)
  {
    var vol := 0;
    while vol + 1 < |starts| && starts[vol + 1] <= flat
      invariant vol < |vols| && Start(vols, vol) <= flat
      invariant Where(vols, flat, vol) == Located(vols, flat)
    {
      vol := vol + 1;
    }
    p := Point(vol, flat - starts[vol]);
  }

  /** The points of an order of flat indices. */
  ghost predicate PointsOf(vols: seq<Volume>, order: seq<Point>, flats: seq<int>) {
    |order| == |flats| && forall i :: 0 <= i < |flats| ==> Owns(vols, order[i], flats[i])
  }

  ghost predicate Progress(vols: seq<Volume>, emitted: array<bool>, order: seq<Point>, visits: seq<int>)
    reads emitted
  {
    && emitted.Length == Total(vols)
    && (forall f :: 0 <= f < emitted.Length ==> (emitted[f] <==> Seen(visits, f)))
    && PointsOf(vols, order, Emitted(vols, visits))
  }

  method Emit(vols: seq<Volume>, starts: seq<nat>, emitted: array<bool>, order: seq<Point>, flat: int,
              ghost done: seq<int>, ghost now: seq<int>)
    returns (order': seq<Point>)
    requires StartsOf(vols, starts)
    requires Progress(vols, emitted, order, done) && now == done + [flat]
    modifies emitted
    ensures Progress(vols, emitted, order', now)
  {
    order' := order;
    assert now[..|done|] == done;
    if flat < 0 || flat >= emitted.Length || emitted[flat] {
      return;
    }
    emitted[flat] := true;
    var p := Locate(vols, starts, flat);
    if p.seg != 0 && !vols[p.vol].named[p.seg] {
      return;
    }
    order' := order' + [p];
  }

  method CensusOrder(vols: seq<Volume>) returns (order: seq<Point>)
    requires Total(vols) <= 0x7FFF_FFFF_FFFF_FFFF  // the flat space is indexed by an int
    ensures PointsOf(vols, order, FlatOrder(vols))
  {
    var total := 0;
    var starts: seq<nat> := [];
    for i := 0 to |vols|
      invariant total == Start(vols, i) && |starts| == i
      invariant forall v :: 0 <= v < i ==> starts[v] == Start(vols, v)
    {
      starts := starts + [total];
      total := total + |vols[i].named|;
    }
    if total == 0 {
      return [];
    }
    order := EmitAll(vols, starts, total);
  }

  method EmitAll(vols: seq<Volume>, starts: seq<nat>, total: nat) returns (order: seq<Point>)
    requires 0 < total == Total(vols) <= 0x7FFF_FFFF_FFFF_FFFF
    requires StartsOf(vols, starts)
    ensures PointsOf(vols, order, Emitted(vols, Visits(vols)))
  {
    var emitted := new bool[total](_ => false);
    order := EmitAnchors(vols, starts, emitted);
    assert Anchors(vols)[..|Anchors(vols)|] == Anchors(vols);
    var k := BitLen(total - 1);
    WordHoldsTotal(total - 1);
    order := EmitReversed(vols, starts, emitted, order, k, UINT_SIZE, Anchors(vols));
    VisitsAreAnchorsThenReversed(vols, k, UINT_SIZE);
  }

  lemma {:induction false} VisitsAreAnchorsThenReversed(vols: seq<Volume>, k: nat, width: nat)
    requires Total(vols) > 0 && k == BitLen(Total(vols) - 1) <= width
    ensures Anchors(vols) + Reversed(k, width) == Visits(vols)
  {
    forall i | 0 <= i < Pow2(k) ensures Reversed(k, width)[i] == Reverse(i, k) {
      WiderReverse(i, k, width - k);
    }
    assert Reversed(k, width) == seq(Pow2(k), i requires 0 <= i => Reverse(i, k));
  }

  lemma AnchorAt(vols: seq<Volume>, n: nat)
    requires Total(vols) > 0
    ensures |Anchors(vols)| == CENSUS_ANCHOR_HEAD + 1 + |vols|
    ensures n < CENSUS_ANCHOR_HEAD ==> Anchors(vols)[n] == n
    ensures n == CENSUS_ANCHOR_HEAD ==> Anchors(vols)[n] == Total(vols) - 1
    ensures CENSUS_ANCHOR_HEAD < n < |Anchors(vols)| ==> Anchors(vols)[n] == Start(vols, n - CENSUS_ANCHOR_HEAD - 1)
  {
  }

  method EmitAnchors(vols: seq<Volume>, starts: seq<nat>, emitted: array<bool>) returns (order: seq<Point>)
    requires Total(vols) > 0
    requires StartsOf(vols, starts)
    requires Progress(vols, emitted, [], [])
    modifies emitted
    ensures Progress(vols, emitted, order, Anchors(vols)[..|Anchors(vols)|])
  {
    order := [];
    ghost var all := Anchors(vols);
    assert all[..0] == [];
    AnchorAt(vols, 0);
    for i := 0 to CENSUS_ANCHOR_HEAD
      invariant Progress(vols, emitted, order, all[..i])
    {
      AnchorAt(vols, i);
      TakeOneMore(all, i);
      order := Emit(vols, starts, emitted, order, i, all[..i], all[..i + 1]);
    }
    AnchorAt(vols, CENSUS_ANCHOR_HEAD);
    TakeOneMore(all, CENSUS_ANCHOR_HEAD);
    order := Emit(vols, starts, emitted, order, Total(vols) - 1, all[..CENSUS_ANCHOR_HEAD],
                  all[..CENSUS_ANCHOR_HEAD + 1]);
    for v := 0 to |starts|
      invariant Progress(vols, emitted, order, all[..CENSUS_ANCHOR_HEAD + 1 + v])
    {
      AnchorAt(vols, CENSUS_ANCHOR_HEAD + 1 + v);
      TakeOneMore(all, CENSUS_ANCHOR_HEAD + 1 + v);
      order := Emit(vols, starts, emitted, order, starts[v], all[..CENSUS_ANCHOR_HEAD + 1 + v],
                    all[..CENSUS_ANCHOR_HEAD + 2 + v]);
    }
  }

  // bits.Reverse on a whole machine word, then a shift down by the unused bits.
  function ReversedIndex(i: nat, k: nat, width: nat): nat
    requires k <= width
  {
    if k == 0 then 0 else ShiftRight(Reverse(i, width), width - k)
  }

  function Reversed(k: nat, width: nat): seq<int>
    requires k <= width
  {
    seq(Pow2(k), i requires 0 <= i => ReversedIndex(i, k, width))
  }

  // What has been visited once `done` is followed by the first `i` reversed indices.
  ghost function SeenBy(done: seq<int>, k: nat, width: nat, i: nat): seq<int>
    requires k <= width && i <= Pow2(k)
  {
    done + Reversed(k, width)[..i]
  }

  lemma SeenAtEnds(done: seq<int>, k: nat, width: nat)
    requires k <= width
    ensures SeenBy(done, k, width, 0) == done && SeenBy(done, k, width, Pow2(k)) == done + Reversed(k, width)
  {
    assert Reversed(k, width)[..Pow2(k)] == Reversed(k, width);
  }

  lemma SeenOneMore(done: seq<int>, k: nat, width: nat, i: nat)
    requires k <= width && i < Pow2(k)
    ensures SeenBy(done, k, width, i) + [ReversedIndex(i, k, width)] == SeenBy(done, k, width, i + 1)
  {
    assert Reversed(k, width)[i] == ReversedIndex(i, k, width);
    TakeOneMore(Reversed(k, width), i);
  }

  method EmitReversed(vols: seq<Volume>, starts: seq<nat>, emitted: array<bool>, order0: seq<Point>, k: nat, width: nat,
                      ghost done: seq<int>)
    returns (order: seq<Point>)
    requires StartsOf(vols, starts)
    requires k <= width
    requires Progress(vols, emitted, order0, done)
    modifies emitted
    ensures Progress(vols, emitted, order, done + Reversed(k, width))
  {
    order := order0;
    SeenAtEnds(done, k, width);
    for i := 0 to Pow2(k)
      invariant Progress(vols, emitted, order, SeenBy(done, k, width, i))
    {
      SeenOneMore(done, k, width, i);
      order := Emit(vols, starts, emitted, order, ReversedIndex(i, k, width), SeenBy(done, k, width, i),
                    SeenBy(done, k, width, i + 1));
    }
  }

  lemma WordHoldsTotal(n: nat)
    requires n <= 0x7FFF_FFFF_FFFF_FFFF
    ensures BitLen(n) <= UINT_SIZE
  {
    BitLenBounds(n);
    if BitLen(n) > UINT_SIZE {
      Pow2Monotone(UINT_SIZE, BitLen(n) - 1);
      WordPower();
    }
  }

  lemma WordPower()
    ensures Pow2(UINT_SIZE) == 0x1_0000_0000_0000_0000
  {
    assert Pow2(8) == 256;
    Pow2Add(8, 8);
    assert Pow2(16) == 65536;
    Pow2Add(16, 16);
    assert Pow2(32) == 0x1_0000_0000;
    Pow2Add(32, 32);
  }
}
