/** The order of the copies inside one group: the highest rank first, then the most
    grabs, then the latest date, then the place in the input. It is a strict total
    order on copies at different places, so a group has one sorted order and no sorting
    algorithm can be told from another. */
module MergeRanking {
  import opened Basics
  import opened Release

  // A copy and its place in the input, which breaks the last ties.
  datatype Entry = Entry(copy: Copy, at: nat)

  /** `a` goes before `b`: higher rank, more grabs, a known and later date, earlier in the input. */
  predicate Before(env: Env, a: Entry, b: Entry) {
    var ra, rb := env.rank(a.copy), env.rank(b.copy);
    var da, db := env.parseDate(a.copy.pubDate), env.parseDate(b.copy.pubDate);
    if ra != rb then ra > rb
    else if a.copy.grabs != b.copy.grabs then a.copy.grabs > b.copy.grabs
    else if da.Some? && db.Some? && da.value != db.value then da.value > db.value
    else if da.Some? != db.Some? then da.Some?
    else a.at < b.at
  }

  /** The comparator is a strict total order on entries at different places. */
  lemma BeforeIsTotal(env: Env, a: Entry, b: Entry, c: Entry)
    ensures !Before(env, a, a)
    ensures a.at != b.at ==> (Before(env, a, b) <==> !Before(env, b, a))
    ensures Before(env, a, b) && Before(env, b, c) ==> Before(env, a, c)
  {
  }

  function Insert(env: Env, sorted: seq<Entry>, e: Entry): seq<Entry> {
    if sorted == [] then [e]
    else
      var n := |sorted| - 1;
      if Before(env, sorted[n], e) then sorted + [e] else Insert(env, sorted[..n], e) + [sorted[n]]
  }

  function Sort(env: Env, entries: seq<Entry>): seq<Entry> {
    if entries == [] then []
    else Insert(env, Sort(env, entries[..|entries| - 1]), entries[|entries| - 1])
  }

  ghost predicate Sorted(env: Env, entries: seq<Entry>) {
    forall i, j :: 0 <= i < j < |entries| ==> Before(env, entries[i], entries[j])
  }

  ghost predicate Distinct(entries: seq<Entry>) {
    forall i, j :: 0 <= i < j < |entries| ==> entries[i].at != entries[j].at
  }

  // ---------------------------------------------------------------------------
  // Sorting

  lemma {:induction false} InsertAdds(env: Env, sorted: seq<Entry>, e: Entry)
    ensures multiset(Insert(env, sorted, e)) == multiset(sorted) + multiset{e}
  {
    if sorted != [] {
      var n := |sorted| - 1;
      InsertAdds(env, sorted[..n], e);
      InitAndLast(sorted);
    }
  }

  lemma InsertHolds(env: Env, sorted: seq<Entry>, e: Entry, x: Entry)
    requires x in Insert(env, sorted, e)
    ensures x == e || x in sorted
  {
    InsertAdds(env, sorted, e);
    assert x in multiset(Insert(env, sorted, e));
  }

  lemma SortedOneMore(env: Env, entries: seq<Entry>, last: Entry)
    requires Sorted(env, entries) && forall x :: x in entries ==> Before(env, x, last)
    ensures Sorted(env, entries + [last])
  {
  }

  lemma {:induction false} InsertKeepsSorted(env: Env, sorted: seq<Entry>, e: Entry)
    requires Sorted(env, sorted) && forall x :: x in sorted ==> x.at != e.at
    ensures Sorted(env, Insert(env, sorted, e))
  {
    if sorted != [] {
      var n := |sorted| - 1;
      if Before(env, sorted[n], e) {
        forall x | x in sorted ensures Before(env, x, e) {
          BeforeIsTotal(env, x, sorted[n], e);
        }
        SortedOneMore(env, sorted, e);
      } else {
        InsertKeepsSorted(env, sorted[..n], e);
        forall x | x in Insert(env, sorted[..n], e) ensures Before(env, x, sorted[n]) {
          InsertHolds(env, sorted[..n], e, x);
          BeforeIsTotal(env, e, sorted[n], e);
        }
        SortedOneMore(env, Insert(env, sorted[..n], e), sorted[n]);
      }
    }
  }

  lemma {:induction false} SortPermutes(env: Env, entries: seq<Entry>)
    ensures multiset(Sort(env, entries)) == multiset(entries)
  {
    if entries != [] {
      var n := |entries| - 1;
      SortPermutes(env, entries[..n]);
      InsertAdds(env, Sort(env, entries[..n]), entries[n]);
      InitAndLast(entries);
    }
  }

  lemma {:induction false} SortSorts(env: Env, entries: seq<Entry>)
    requires Distinct(entries)
    ensures Sorted(env, Sort(env, entries))
  {
    if entries != [] {
      var n := |entries| - 1;
      SortSorts(env, entries[..n]);
      SortPermutes(env, entries[..n]);
      forall x | x in Sort(env, entries[..n]) ensures x.at != entries[n].at {
        assert x in multiset(entries[..n]);
      }
      InsertKeepsSorted(env, Sort(env, entries[..n]), entries[n]);
    }
  }

  lemma {:induction false} LastsAgree(env: Env, a: seq<Entry>, b: seq<Entry>)
    requires Sorted(env, a) && Sorted(env, b) && multiset(a) == multiset(b) && a != [] && b != []
    ensures a[|a| - 1] == b[|b| - 1]
  {
    var x, y := a[|a| - 1], b[|b| - 1];
    assert x in multiset(b) && y in multiset(a);
    BeforeIsTotal(env, x, y, x);
  }

  lemma WithoutLast(a: seq<Entry>, b: seq<Entry>)
    requires multiset(a) == multiset(b) && a != [] && b != [] && a[|a| - 1] == b[|b| - 1]
    ensures multiset(a[..|a| - 1]) == multiset(b[..|b| - 1])
  {
    var m, n := |a| - 1, |b| - 1;
    assert a == a[..m] + [a[m]];
    assert b == b[..n] + [b[n]];
    assert multiset(a[..m]) == multiset(a) - multiset{a[m]};
  }

  /** There is one sorted order, so which sorting algorithm ran cannot be told. */
  lemma {:induction false} SortedOrderIsUnique(env: Env, a: seq<Entry>, b: seq<Entry>)
    requires Sorted(env, a) && Sorted(env, b) && multiset(a) == multiset(b)
    ensures a == b
  {
    assert |multiset(a)| == |a| && |multiset(b)| == |b|;
    if a != [] {
      LastsAgree(env, a, b);
      WithoutLast(a, b);
      SortedOrderIsUnique(env, a[..|a| - 1], b[..|b| - 1]);
      assert a == a[..|a| - 1] + [a[|a| - 1]];
      assert b == b[..|b| - 1] + [b[|b| - 1]];
    }
  }

  lemma {:induction false} SortOfSorted(env: Env, entries: seq<Entry>)
    requires Sorted(env, entries)
    ensures Sort(env, entries) == entries
  {
    if entries != [] {
      SortOfSorted(env, entries[..|entries| - 1]);
    }
  }

  // ---------------------------------------------------------------------------
  // Ranking the copies of a group

  function Entries(group: seq<Copy>): seq<Entry> {
    seq(|group|, i requires 0 <= i < |group| => Entry(group[i], i))
  }

  function CopiesIn(entries: seq<Entry>): seq<Copy> {
    seq(|entries|, i requires 0 <= i < |entries| => entries[i].copy)
  }

  /** The copies of a group, best first. */
  function Ranked(env: Env, group: seq<Copy>): seq<Copy> {
    CopiesIn(Sort(env, Entries(group)))
  }

  /** Every pair of ranked copies is in order, by the places they had. */
  lemma RankedIsSorted(env: Env, group: seq<Copy>) returns (sorted: seq<Entry>)
    ensures Ranked(env, group) == CopiesIn(sorted) && |sorted| == |group|
    ensures Sorted(env, sorted) && multiset(sorted) == multiset(Entries(group))
    ensures forall i :: 0 <= i < |sorted| ==> sorted[i].at < |group| && sorted[i].copy == group[sorted[i].at]
  {
    sorted := Sort(env, Entries(group));
    SortSorts(env, Entries(group));
    SortPermutes(env, Entries(group));
    assert |multiset(sorted)| == |multiset(Entries(group))|;
    forall i | 0 <= i < |sorted| ensures sorted[i].at < |group| && sorted[i].copy == group[sorted[i].at] {
      assert sorted[i] in multiset(Entries(group));
    }
  }

  lemma {:induction false} InsertAddsCopy(env: Env, sorted: seq<Entry>, e: Entry)
    ensures multiset(CopiesIn(Insert(env, sorted, e))) == multiset(CopiesIn(sorted)) + multiset{e.copy}
  {
    if sorted == [] {
      assert CopiesIn([e]) == [e.copy];
    } else {
      var n := |sorted| - 1;
      assert CopiesIn(sorted) == CopiesIn(sorted[..n]) + [sorted[n].copy];
      if Before(env, sorted[n], e) {
        assert CopiesIn(sorted + [e]) == CopiesIn(sorted) + [e.copy];
      } else {
        InsertAddsCopy(env, sorted[..n], e);
        var front := Insert(env, sorted[..n], e);
        assert CopiesIn(front + [sorted[n]]) == CopiesIn(front) + [sorted[n].copy];
      }
    }
  }

  /** Ranking permutes a group. */
  lemma {:induction false} RankedPermutes(env: Env, group: seq<Copy>)
    ensures multiset(Ranked(env, group)) == multiset(group) && |Ranked(env, group)| == |group|
  {
    if group != [] {
      var n := |group| - 1;
      RankedPermutes(env, group[..n]);
      assert Entries(group)[..n] == Entries(group[..n]);
      InsertAddsCopy(env, Sort(env, Entries(group[..n])), Entries(group)[n]);
      assert group == group[..n] + [group[n]];
      assert |multiset(Ranked(env, group))| == |multiset(group)|;
    }
  }

  // ---------------------------------------------------------------------------
  // Which copy wins

  /** A copy may stand before another: its rank is no lower; at the same rank it has no
      fewer grabs; with as many of these it is no older, and dated if the other is; and
      with all of these alike it came earlier in the input. */
  predicate Preferred(env: Env, a: Copy, atA: nat, b: Copy, atB: nat) {
    var da, db := env.parseDate(a.pubDate), env.parseDate(b.pubDate);
    && env.rank(a) >= env.rank(b)
    && (env.rank(a) == env.rank(b) ==> a.grabs >= b.grabs)
    && (env.rank(a) == env.rank(b) && a.grabs == b.grabs && db.Some? ==> da.Some? && da.value >= db.value)
    && (env.rank(a) == env.rank(b) && a.grabs == b.grabs && da == db ==> atA < atB)
  }

  // These places of a list, each preferred to all that follow it.
  ghost predicate BestFirst(env: Env, copies: seq<Copy>, order: seq<nat>) {
    && (forall i :: 0 <= i < |order| ==> order[i] < |copies|)
    && forall i, j :: 0 <= i < j < |order| ==> Preferred(env, copies[order[i]], order[i], copies[order[j]], order[j])
  }

  /** A list of copies is a group in the order of preference, every place of it once. */
  ghost predicate RankedFrom(env: Env, group: seq<Copy>, ranked: seq<Copy>, order: seq<nat>) {
    && BestFirst(env, group, order) && |order| == |group| == |ranked|
    && (forall at: nat :: at < |group| ==> at in order)
    && forall i :: 0 <= i < |order| ==> ranked[i] == group[order[i]]
  }

  lemma BeforeIsPreferred(env: Env, a: Entry, b: Entry)
    ensures Before(env, a, b) <==> Preferred(env, a.copy, a.at, b.copy, b.at)
  {
  }

  /** Ranking puts the preferred copies first. */
  lemma RankedIsBestFirst(env: Env, group: seq<Copy>) returns (order: seq<nat>)
    ensures RankedFrom(env, group, Ranked(env, group), order)
  {
    var sorted := RankedIsSorted(env, group);
    order := seq(|sorted|, i requires 0 <= i < |sorted| => sorted[i].at);
    forall i, j | 0 <= i < j < |order|
      ensures Preferred(env, group[order[i]], order[i], group[order[j]], order[j])
    {
      BeforeIsPreferred(env, sorted[i], sorted[j]);
    }
    forall at: nat | at < |group| ensures at in order {
      assert Entries(group)[at] in multiset(sorted);
      var i :| 0 <= i < |sorted| && sorted[i] == Entries(group)[at];
      assert order[i] == at;
    }
  }
}
