/** Merging a listing: grouping the copies, ranking each group, folding the rest of
    the group into its best copy. What merging a second time does. */
module MergeResult {
  import opened Basics
  import opened Release
  import opened MergeGroups
  import opened MergeFold
  import opened MergeRanking

  function MergedGroup(env: Env, group: seq<Copy>): Release
    requires group != []
  {
    RankedPermutes(env, group);
    var ranked := Ranked(env, group);
    Release(FillAll(env, ranked[0], ranked[1..]), AllPresent(ranked[1..]))
  }

  function MergeEach(env: Env, groups: seq<seq<Copy>>): seq<Release>
    requires NonEmpty(groups)
  {
    seq(|groups|, i requires 0 <= i < |groups| => MergedGroup(env, groups[i]))
  }

  function Merge(env: Env, releases: seq<Option<Release>>): seq<Release> {
    AlwaysIndexed(Flatten(releases));
    MergeEach(env, Groups(Flatten(releases)))
  }

  function Listed(releases: seq<Release>): seq<Option<Release>> {
    seq(|releases|, i requires 0 <= i < |releases| => Some(releases[i]))
  }

  function DistinctReleaseCount(releases: seq<Option<Release>>): nat {
    |Groups(Flatten(releases))|
  }

  // ---------------------------------------------------------------------------
  // The copies of a merged list

  // The copies of one merged group: the filled primary, then the others as they were.
  function Settled(env: Env, group: seq<Copy>): seq<Copy>
    requires group != []
  {
    CopiesOf(MergedGroup(env, group))
  }

  function SettleEach(env: Env, groups: seq<seq<Copy>>): seq<seq<Copy>>
    requires NonEmpty(groups)
  {
    seq(|groups|, i requires 0 <= i < |groups| => Settled(env, groups[i]))
  }

  /** A merged group lists its ranked copies; only the first of them has been filled. */
  lemma SettledIsRanked(env: Env, group: seq<Copy>)
    requires group != []
    ensures var ranked := Ranked(env, group);
            && |ranked| == |group|
            && Settled(env, group) == [FillAll(env, ranked[0], ranked[1..])] + ranked[1..]
  {
    RankedPermutes(env, group);
    PresentOfAll(Ranked(env, group)[1..]);
  }

  lemma FlattenOneMore(releases: seq<Release>, r: Release)
    ensures Flatten(Listed(releases + [r])) == Flatten(Listed(releases)) + CopiesOf(r)
  {
    var all := Listed(releases + [r]);
    assert all[..|releases|] == Listed(releases);
  }

  lemma ConcatOneMore(groups: seq<seq<Copy>>, group: seq<Copy>)
    ensures Concat(groups + [group]) == Concat(groups) + group
  {
    assert (groups + [group])[..|groups|] == groups;
  }

  lemma EachOneMore(env: Env, groups: seq<seq<Copy>>, group: seq<Copy>)
    requires NonEmpty(groups) && group != []
    ensures MergeEach(env, groups + [group]) == MergeEach(env, groups) + [MergedGroup(env, group)]
    ensures SettleEach(env, groups + [group]) == SettleEach(env, groups) + [Settled(env, group)]
  {
  }

  lemma {:induction false} FlattenMergedOneMore(env: Env, groups: seq<seq<Copy>>, group: seq<Copy>)
    requires NonEmpty(groups) && group != []
    requires Flatten(Listed(MergeEach(env, groups))) == Concat(SettleEach(env, groups))
    ensures Flatten(Listed(MergeEach(env, groups + [group]))) == Concat(SettleEach(env, groups + [group]))
  {
    EachOneMore(env, groups, group);
    FlattenOneMore(MergeEach(env, groups), MergedGroup(env, group));
    ConcatOneMore(SettleEach(env, groups), Settled(env, group));
  }

  lemma FlattenMergedNone(env: Env)
    ensures Flatten(Listed(MergeEach(env, []))) == Concat(SettleEach(env, []))
  {
    assert SettleEach(env, []) == [];
  }

  lemma {:induction false} FlattenMerged(env: Env, groups: seq<seq<Copy>>)
    requires NonEmpty(groups)
    ensures Flatten(Listed(MergeEach(env, groups))) == Concat(SettleEach(env, groups))
  {
    if groups != [] {
      var n := |groups| - 1;
      FlattenMerged(env, groups[..n]);
      FlattenMergedOneMore(env, groups[..n], groups[n]);
      InitAndLast(groups);
    } else {
      FlattenMergedNone(env);
    }
  }

  function RankEach(env: Env, groups: seq<seq<Copy>>): seq<seq<Copy>> {
    seq(|groups|, i requires 0 <= i < |groups| => Ranked(env, groups[i]))
  }

  lemma RankEachOneMore(env: Env, groups: seq<seq<Copy>>, group: seq<Copy>)
    ensures RankEach(env, groups + [group]) == RankEach(env, groups) + [Ranked(env, group)]
  {
  }

  lemma RankOneMorePermutes(env: Env, groups: seq<seq<Copy>>, group: seq<Copy>)
    requires multiset(Concat(RankEach(env, groups))) == multiset(Concat(groups))
    ensures multiset(Concat(RankEach(env, groups + [group]))) == multiset(Concat(groups + [group]))
  {
    RankedPermutes(env, group);
    RankEachOneMore(env, groups, group);
    ConcatOneMore(groups, group);
    ConcatOneMore(RankEach(env, groups), Ranked(env, group));
  }

  lemma {:induction false} RankEachPermutes(env: Env, groups: seq<seq<Copy>>)
    ensures multiset(Concat(RankEach(env, groups))) == multiset(Concat(groups))
  {
    if groups != [] {
      var n := |groups| - 1;
      RankEachPermutes(env, groups[..n]);
      RankOneMorePermutes(env, groups[..n], groups[n]);
      InitAndLast(groups);
    } else {
      assert RankEach(env, groups) == [];
    }
  }

  // Copy by copy, a merged list is the ranked groups with some primaries filled.
  ghost predicate FilledFrom(env: Env, out: seq<Copy>, ranked: seq<Copy>, merged: seq<Release>) {
    && |out| == |ranked|
    && forall i :: 0 <= i < |out| ==>
         && out[i].id == ranked[i].id
         && (out[i] == ranked[i] || exists g :: 0 <= g < |merged| && merged[g].primary == out[i])
  }

  lemma {:induction false} FillKeepsIdentity(env: Env, p: Copy, variants: seq<Copy>)
    ensures FillAll(env, p, variants).id == p.id
  {
    if variants != [] {
      FillKeepsIdentity(env, p, variants[..|variants| - 1]);
    }
  }

  lemma FilledFromMore(env: Env, out: seq<Copy>, ranked: seq<Copy>, merged: seq<Release>, group: seq<Copy>)
    requires group != [] && FilledFrom(env, out, ranked, merged)
    ensures FilledFrom(env, out + Settled(env, group), ranked + Ranked(env, group), merged + [MergedGroup(env, group)])
  {
    SettledIsRanked(env, group);
    var r := Ranked(env, group);
    FillKeepsIdentity(env, r[0], r[1..]);
    var out', ranked', merged' := out + Settled(env, group), ranked + r, merged + [MergedGroup(env, group)];
    forall i | 0 <= i < |out'|
      ensures out'[i].id == ranked'[i].id
      ensures out'[i] == ranked'[i] || exists g :: 0 <= g < |merged'| && merged'[g].primary == out'[i]
    {
      if i < |out| {
        if out[i] != ranked[i] {
          var g :| 0 <= g < |merged| && merged[g].primary == out[i];
          assert merged'[g].primary == out'[i];
        }
      } else if i == |out| {
        assert merged'[|merged|].primary == out'[i];
      }
    }
  }

  lemma {:induction false} MergedIsFilled(env: Env, groups: seq<seq<Copy>>)
    requires NonEmpty(groups)
    ensures FilledFrom(env, Concat(SettleEach(env, groups)), Concat(RankEach(env, groups)), MergeEach(env, groups))
  {
    if groups != [] {
      var n := |groups| - 1;
      MergedIsFilled(env, groups[..n]);
      FilledFromMore(env, Concat(SettleEach(env, groups[..n])), Concat(RankEach(env, groups[..n])),
                     MergeEach(env, groups[..n]), groups[n]);
      EachOneMore(env, groups[..n], groups[n]);
      ConcatOneMore(SettleEach(env, groups[..n]), Settled(env, groups[n]));
      RankEachOneMore(env, groups[..n], groups[n]);
      ConcatOneMore(RankEach(env, groups[..n]), Ranked(env, groups[n]));
      InitAndLast(groups);
    }
  }

  /** The copies of the merged list are a permutation of the copies that went in;
      only primaries differ from what went in, and never in what identifies them. The
      length of the merged list is the distinct release count. */
  lemma {:induction false} CopiesAreConserved(env: Env, releases: seq<Option<Release>>) returns (ranked: seq<Copy>)
    ensures multiset(ranked) == multiset(Flatten(releases))
    ensures FilledFrom(env, Flatten(Listed(Merge(env, releases))), ranked, Merge(env, releases))
    ensures |Merge(env, releases)| == DistinctReleaseCount(releases)
  {
    var copies := Flatten(releases);
    AlwaysIndexed(copies);
    ranked := Concat(RankEach(env, Groups(copies)));
    RankEachPermutes(env, Groups(copies));
    GroupsConserveCopies(copies);
    MergedIsFilled(env, Groups(copies));
    FlattenMerged(env, Groups(copies));
  }

  // ---------------------------------------------------------------------------
  // One group, merged again

  /** The best copy of a group, its metadata filled in, still goes before the runner-up. */
  predicate StaysFirst(env: Env, group: seq<Copy>)
    requires group != []
  {
    RankedPermutes(env, group);
    var ranked := Ranked(env, group);
    |ranked| > 1 ==> Before(env, Entry(FillAll(env, ranked[0], ranked[1..]), 0), Entry(ranked[1], 1))
  }

  /** What is enough for that: filling in metadata never costs a copy its rank, and an
      empty date is no date. */
  ghost predicate Steady(env: Env) {
    && (forall p, v :: env.rank(p) <= env.rank(Fill(env, p, v)))
    && env.parseDate("") == None
  }

  /** A rank that reads only what the merge never writes is steady. */
  lemma RankByIdentityIsSteady(env: Env, score: Ident -> int)
    requires forall c :: env.rank(c) == score(c.id)
    requires env.parseDate("") == None
    ensures Steady(env)
  {
    forall p, v ensures env.rank(p) <= env.rank(Fill(env, p, v)) {
      assert Fill(env, p, v).id == p.id;
    }
  }

  lemma {:induction false} FillingOnlyRaises(env: Env, p: Copy, variants: seq<Copy>)
    requires Steady(env)
    ensures var f := FillAll(env, p, variants);
            env.rank(p) <= env.rank(f) && p.grabs <= f.grabs && (p.pubDate != "" ==> f.pubDate == p.pubDate)
  {
    if variants != [] {
      FillingOnlyRaises(env, p, variants[..|variants| - 1]);
      assert env.rank(FillAll(env, p, variants[..|variants| - 1])) <= env.rank(FillAll(env, p, variants));
    }
  }

  lemma SteadyStaysFirst(env: Env, group: seq<Copy>)
    requires Steady(env) && group != []
    ensures StaysFirst(env, group)
  {
    RankedPermutes(env, group);
    var sorted := RankedIsSorted(env, group);
    var ranked := Ranked(env, group);
    FillingOnlyRaises(env, ranked[0], ranked[1..]);
    if |ranked| > 1 {
      assert Before(env, sorted[0], sorted[1]);
    }
  }

  // Behind the first, ranked copies are in order at their new places.
  lemma TailIsSorted(env: Env, group: seq<Copy>, i: nat, j: nat)
    requires group != [] && 0 < i < j < |group|
    ensures |Settled(env, group)| == |group|
    ensures Before(env, Entry(Settled(env, group)[i], i), Entry(Settled(env, group)[j], j))
  {
    SettledIsRanked(env, group);
    var sorted := RankedIsSorted(env, group);
    assert Before(env, sorted[i], sorted[j]);
  }

  lemma SettledIsSorted(env: Env, group: seq<Copy>)
    requires group != [] && StaysFirst(env, group)
    ensures Sorted(env, Entries(Settled(env, group)))
  {
    SettledIsRanked(env, group);
    var settled := Settled(env, group);
    forall i, j | 0 <= i < j < |settled| ensures Before(env, Entry(settled[i], i), Entry(settled[j], j)) {
      if i > 0 {
        TailIsSorted(env, group, i, j);
      } else if j > 1 {
        TailIsSorted(env, group, 1, j);
        BeforeIsTotal(env, Entry(settled[0], 0), Entry(settled[1], 1), Entry(settled[j], j));
      }
    }
  }

  lemma FirstStands(env: Env, group: seq<Copy>)
    requires group != [] && StaysFirst(env, group)
    ensures MergedGroup(env, Settled(env, group)) == MergedGroup(env, group)
  {
    SettledIsRanked(env, group);
    SettledIsSorted(env, group);
    var settled, ranked := Settled(env, group), Ranked(env, group);
    SortOfSorted(env, Entries(settled));
    assert Ranked(env, settled) == settled;
    assert settled[1..] == ranked[1..];
    FillIsStable(env, ranked[0], ranked[1..]);
  }

  // An entry that goes before all others is sorted first.
  lemma LeastIsFirst(env: Env, group: seq<Copy>, k: nat)
    requires k < |group|
    requires forall j :: 0 <= j < |group| && j != k ==> Before(env, Entry(group[k], k), Entry(group[j], j))
    ensures |Ranked(env, group)| == |group| && Ranked(env, group)[0] == group[k]
  {
    var sorted := RankedIsSorted(env, group);
    var least := Entries(group)[k];
    assert least in multiset(Entries(group));
    var at :| 0 <= at < |sorted| && sorted[at] == least;
    var first := sorted[0];
    assert first == Entry(group[first.at], first.at);
    BeforeIsTotal(env, least, first, least);
  }

  lemma AllPresentIsInjective(a: seq<Copy>, b: seq<Copy>)
    requires AllPresent(a) == AllPresent(b)
    ensures a == b
  {
    PresentOfAll(a);
    PresentOfAll(b);
  }

  lemma RunnerUpTakesOver(env: Env, group: seq<Copy>)
    requires group != [] && !StaysFirst(env, group)
    ensures |Ranked(env, group)| == |Ranked(env, Settled(env, group))| == |group| > 1
    ensures Ranked(env, Settled(env, group))[0] == Ranked(env, group)[1]
  {
    SettledIsRanked(env, group);
    var settled := Settled(env, group);
    BeforeIsTotal(env, Entry(settled[0], 0), Entry(settled[1], 1), Entry(settled[1], 1));
    forall j | 0 <= j < |settled| && j != 1 ensures Before(env, Entry(settled[1], 1), Entry(settled[j], j)) {
      if j > 1 {
        TailIsSorted(env, group, 1, j);
      }
    }
    LeastIsFirst(env, settled, 1);
  }

  lemma SameRestSameFirst(a: seq<Copy>, b: seq<Copy>)
    requires a != [] && b != [] && multiset(a) == multiset(b) && a[1..] == b[1..]
    ensures a[0] == b[0]
  {
    assert a == [a[0]] + a[1..] && b == [b[0]] + b[1..];
    assert multiset{a[0]} == multiset(a) - multiset(a[1..]);
    assert multiset{b[0]} == multiset(b) - multiset(b[1..]);
    assert a[0] in multiset{b[0]};
  }

  lemma OvertakenDoesNotStand(env: Env, group: seq<Copy>)
    requires group != [] && !StaysFirst(env, group)
    ensures MergedGroup(env, Settled(env, group)) != MergedGroup(env, group)
  {
    RunnerUpTakesOver(env, group);
    SettledIsRanked(env, group);
    var settled, ranked := Settled(env, group), Ranked(env, group);
    var again := Ranked(env, settled);
    RankedPermutes(env, settled);
    if MergedGroup(env, settled) == MergedGroup(env, group) {
      AllPresentIsInjective(again[1..], ranked[1..]);
      assert settled[1..] == ranked[1..];
      SameRestSameFirst(again, settled);
    }
  }

  /** Merging the copies of a merged group gives that group back, with the same primary,
      metadata and variant order, exactly when its filled primary stays first. */
  lemma MergedGroupStandsExactlyWhen(env: Env, group: seq<Copy>)
    requires group != []
    ensures MergedGroup(env, Settled(env, group)) == MergedGroup(env, group) <==> StaysFirst(env, group)
  {
    if StaysFirst(env, group) {
      FirstStands(env, group);
    } else {
      OvertakenDoesNotStand(env, group);
    }
  }

  // ---------------------------------------------------------------------------
  // A listing, merged again

  ghost predicate SameIdentities(a: seq<Copy>, b: seq<Copy>) {
    |a| == |b| && forall i :: 0 <= i < |a| ==> exists j :: 0 <= j < |b| && a[i].id == b[j].id
  }

  lemma SettledKeepsIdentities(env: Env, group: seq<Copy>)
    requires group != []
    ensures SameIdentities(Settled(env, group), group)
  {
    SettledIsRanked(env, group);
    var sorted := RankedIsSorted(env, group);
    var ranked, settled := Ranked(env, group), Settled(env, group);
    FillKeepsIdentity(env, ranked[0], ranked[1..]);
    forall i | 0 <= i < |settled| ensures exists j :: 0 <= j < |group| && settled[i].id == group[j].id {
      assert settled[i].id == ranked[i].id;
      assert settled[i].id == group[sorted[i].at].id;
    }
  }

  lemma ShareByIdentity(a: Copy, b: Copy, a': Copy, b': Copy)
    requires a.id == a'.id && b.id == b'.id
    ensures Share(a, b) == Share(a', b')
  {
    assert Keys(a) == Keys(a') && Keys(b) == Keys(b');
  }

  // In a class of two or more every copy has a key, so it shares one with itself too.
  lemma ClassmatesShare(groups: seq<seq<Copy>>, g: nat, i: nat, j: nat)
    requires Classes(groups) && g < |groups| && i < |groups[g]| && j < |groups[g]| && |groups[g]| > 1
    ensures Share(groups[g][i], groups[g][j])
  {
    if i == j {
      var o := if i == 0 then 1 else 0;
      assert Share(groups[g][i], groups[g][o]);
    }
  }

  lemma SameIdentitiesSameClasses(groups: seq<seq<Copy>>, groups': seq<seq<Copy>>)
    requires Classes(groups) && |groups'| == |groups|
    requires forall g :: 0 <= g < |groups| ==> SameIdentities(groups'[g], groups[g])
    ensures Classes(groups')
  {
    forall g, i, j | 0 <= g < |groups| && 0 <= i < |groups'[g]| && 0 <= j < |groups'[g]| && i != j
      ensures Share(groups'[g][i], groups'[g][j])
    {
      var i' :| 0 <= i' < |groups[g]| && groups'[g][i].id == groups[g][i'].id;
      var j' :| 0 <= j' < |groups[g]| && groups'[g][j].id == groups[g][j'].id;
      ClassmatesShare(groups, g, i', j');
      ShareByIdentity(groups'[g][i], groups'[g][j], groups[g][i'], groups[g][j']);
    }
    forall g, h, i, j |
      0 <= g < |groups| && 0 <= h < |groups| && g != h && 0 <= i < |groups'[g]| && 0 <= j < |groups'[h]|
      ensures !Share(groups'[g][i], groups'[h][j])
    {
      var i' :| 0 <= i' < |groups[g]| && groups'[g][i].id == groups[g][i'].id;
      var j' :| 0 <= j' < |groups[h]| && groups'[h][j].id == groups[h][j'].id;
      ShareByIdentity(groups'[g][i], groups'[h][j], groups[g][i'], groups[h][j']);
    }
  }

  lemma MergeEachStands(env: Env, groups: seq<seq<Copy>>)
    requires NonEmpty(groups) && forall g :: 0 <= g < |groups| ==> StaysFirst(env, groups[g])
    ensures NonEmpty(SettleEach(env, groups)) && MergeEach(env, SettleEach(env, groups)) == MergeEach(env, groups)
  {
    forall g | 0 <= g < |groups| ensures MergedGroup(env, Settled(env, groups[g])) == MergedGroup(env, groups[g]) {
      FirstStands(env, groups[g]);
    }
  }

  // Copies from a pool, any two of which share a key.
  ghost predicate Clique(group: seq<Copy>, pool: set<Copy>) {
    && group != [] && (forall c :: c in group ==> c in pool)
    && forall i, j {:trigger Share(group[i], group[j])} ::
         0 <= i < |group| && 0 <= j < |group| && i != j ==> Share(group[i], group[j])
  }

  /** In no group of copies that belong together does filling in metadata put the best
      behind the runner-up. */
  ghost predicate PrimariesStay(env: Env, pool: set<Copy>) {
    forall group: seq<Copy> :: Clique(group, pool) ==> StaysFirst(env, group)
  }

  lemma SteadyPrimariesStay(env: Env, pool: set<Copy>)
    requires Steady(env)
    ensures PrimariesStay(env, pool)
  {
    forall group: seq<Copy> | Clique(group, pool) ensures StaysFirst(env, group) {
      SteadyStaysFirst(env, group);
    }
  }

  lemma ClassIsClique(groups: seq<seq<Copy>>, g: nat, pool: set<Copy>)
    requires Classes(groups) && Within(groups, pool) && NonEmpty(groups) && g < |groups|
    ensures Clique(groups[g], pool)
  {
    forall c | c in groups[g] ensures c in pool {
      var i :| 0 <= i < |groups[g]| && groups[g][i] == c;
      assert groups[g][i] in pool;
    }
  }

  /** Where sharing a key is transitive and primaries stay first, merging a merged list
      returns that list: the same groups, primaries, variant order and metadata. */
  lemma {:induction false} MergeIsIdempotent(env: Env, releases: seq<Option<Release>>, pool: set<Copy>)
    requires Transitive(pool) && PrimariesStay(env, pool) && forall c :: c in Flatten(releases) ==> c in pool
    ensures Merge(env, Listed(Merge(env, releases))) == Merge(env, releases)
  {
    var groups := Groups(Flatten(releases));
    AlwaysIndexed(Flatten(releases));
    GroupsAreClasses(Flatten(releases), pool);
    forall g | 0 <= g < |groups| ensures StaysFirst(env, groups[g]) {
      ClassIsClique(groups, g, pool);
    }
    MergeEachStands(env, groups);
    forall g | 0 <= g < |groups| ensures SameIdentities(Settled(env, groups[g]), groups[g]) {
      SettledKeepsIdentities(env, groups[g]);
    }
    SameIdentitiesSameClasses(groups, SettleEach(env, groups));
    RegroupClasses(SettleEach(env, groups));
    FlattenMerged(env, groups);
  }

  // ---------------------------------------------------------------------------
  // A bridging copy breaks it

  function Single(c: Copy): Option<Release> {
    Some(Release(c, []))
  }

  function Three(a: Copy, b: Copy, c: Copy): seq<Option<Release>> {
    [Single(a), Single(b), Single(c)]
  }

  lemma FlattenSingle(releases: seq<Option<Release>>, c: Copy)
    ensures Flatten(releases + [Single(c)]) == Flatten(releases) + [c]
  {
    assert (releases + [Single(c)])[..|releases|] == releases;
    assert CopiesOf(Release(c, [])) == [c];
  }

  lemma FlattenThree(a: Copy, b: Copy, c: Copy)
    ensures Flatten(Three(a, b, c)) == [a, b, c]
  {
    FlattenSingle([], a);
    FlattenSingle([] + [Single(a)], b);
    FlattenSingle([] + [Single(a)] + [Single(b)], c);
    assert Three(a, b, c) == [] + [Single(a)] + [Single(b)] + [Single(c)];
  }

  lemma GroupOfOne(a: Copy)
    ensures Grouped([a]).groups == [[a]]
    ensures forall k :: k in Grouped([a]).index <==> k in Keys(a)
    ensures forall k :: k in Grouped([a]).index ==> Grouped([a]).index[k] == 0
  {
    assert [a][..0] == [];
    FoundBySomeKey(map[], Keys(a));
  }

  lemma GroupsOfStrangers(a: Copy, b: Copy)
    requires !Share(a, b)
    ensures Grouped([a, b]).groups == [[a], [b]]
    ensures forall k :: k in Grouped([a, b]).index <==> k in Keys(a) || k in Keys(b)
    ensures forall k :: k in Keys(a) ==> Grouped([a, b]).index[k] == 0
    ensures forall k :: k in Keys(b) ==> Grouped([a, b]).index[k] == 1
  {
    assert [a, b][..1] == [a];
    GroupOfOne(a);
    FoundBySomeKey(Grouped([a]).index, Keys(b));
  }

  // The group a bridge between two strangers joins does not depend on their order.
  lemma {:induction false} BridgeJoinsOneOfTwo(keys: seq<Key>, ab: map<Key, nat>, ba: map<Key, nat>)
    requires ab.Keys == ba.Keys
    requires forall k :: k in ab ==> ab[k] < 2 && ba[k] == 1 - ab[k]
    ensures FindGroup(ab, keys).Some? == FindGroup(ba, keys).Some?
    ensures FindGroup(ab, keys).Some? ==>
              FindGroup(ab, keys).value < 2 && FindGroup(ba, keys).value == 1 - FindGroup(ab, keys).value
  {
    if keys != [] && keys[0] !in ab {
      BridgeJoinsOneOfTwo(keys[1..], ab, ba);
    }
  }

  lemma {:induction false} TargetOfBridge(a: Copy, b: Copy, bridge: Copy)
    requires !Share(a, b) && !Share(b, a) && (Share(a, bridge) || Share(b, bridge))
    ensures Target(Grouped([a, b]), bridge) == 0 || Target(Grouped([b, a]), bridge) == 0
  {
    GroupsOfStrangers(a, b);
    GroupsOfStrangers(b, a);
    var ab, ba := Grouped([a, b]).index, Grouped([b, a]).index;
    assert ab.Keys == ba.Keys;
    FoundBySomeKey(ab, Keys(bridge));
    BridgeJoinsOneOfTwo(Keys(bridge), ab, ba);
  }

  lemma GroupsWithBridge(p: Copy, q: Copy, bridge: Copy)
    requires !Share(p, q) && Target(Grouped([p, q]), bridge) == 0
    ensures Groups([p, q, bridge]) == [[p, bridge], [q]]
  {
    GroupsOfStrangers(p, q);
    GroupsOneMore([p, q], bridge);
    assert [p] + [bridge] == [p, bridge];
    assert [p, q] + [bridge] == [p, q, bridge];
  }

  lemma TargetIsTheOnlyGroup(p: Partition, c: Copy, i: nat)
    requires Indexed(p) && |p.groups| == 1 && i < |p.groups[0]| && Share(p.groups[0][i], c)
    ensures Target(p, c) == 0
  {
    TargetShares(p, c);
    var k :| k in Keys(p.groups[0][i]) && k in Keys(c);
    assert Has(p.groups[0], k);
  }

  lemma JoinsTheOnlyGroup(group: seq<Copy>, i: nat, c: Copy)
    requires Groups(group) == [group] && i < |group| && Share(group[i], c)
    ensures Groups(group + [c]) == [group + [c]]
  {
    AlwaysIndexed(group);
    TargetIsTheOnlyGroup(Grouped(group), c, i);
    GroupsOneMore(group, c);
  }

  // Three copies of which the first two share a key, and the third shares one with either of them.
  lemma ChainIsOneGroup(x: Copy, y: Copy, z: Copy)
    requires Share(x, y) && (Share(x, z) || Share(y, z))
    ensures Groups([x, y, z]) == [[x, y, z]]
  {
    GroupOfOne(x);
    JoinsTheOnlyGroup([x], 0, y);
    assert [x] + [y] == [x, y];
    JoinsTheOnlyGroup([x, y], if Share(x, z) then 0 else 1, z);
    assert [x, y] + [z] == [x, y, z];
  }

  // Merged or not, the two copies of a pair share a key.
  lemma SettledPairShares(env: Env, p: Copy, bridge: Copy)
    requires Share(p, bridge) && Share(bridge, p)
    ensures |Settled(env, [p, bridge])| == 2 && Share(Settled(env, [p, bridge])[0], Settled(env, [p, bridge])[1])
  {
    var group := [p, bridge];
    SettledKeepsIdentities(env, group);
    var s := Settled(env, group);
    var j: nat :| j < 2 && s[0].id == group[j].id;
    var k: nat :| k < 2 && s[1].id == group[k].id;
    assert Share(group[j], group[k]);
    ShareByIdentity(s[0], s[1], group[j], group[k]);
  }

  lemma SettledKeepsBridge(env: Env, p: Copy, bridge: Copy) returns (i: nat)
    ensures i < |Settled(env, [p, bridge])| == 2 && Settled(env, [p, bridge])[i].id == bridge.id
  {
    var group := [p, bridge];
    SettledIsRanked(env, group);
    RankedPermutes(env, group);
    var ranked := Ranked(env, group);
    FillKeepsIdentity(env, ranked[0], ranked[1..]);
    assert bridge == group[1] && bridge in multiset(ranked);
    i :| 0 <= i < 2 && ranked[i] == bridge;
  }

  lemma SettledSingle(env: Env, q: Copy)
    ensures |Settled(env, [q])| == 1 && Settled(env, [q])[0].id == q.id
  {
    SettledIsRanked(env, [q]);
    SettledKeepsIdentities(env, [q]);
  }

  lemma ConcatPairAndSingle(x: Copy, y: Copy, z: Copy)
    ensures Concat([[x, y], [z]]) == [x, y, z]
  {
    assert [[x, y], [z]][..1] == [[x, y]];
    assert [[x, y]][..0] == [];
    assert Concat([[x, y]]) == [x, y];
  }

  lemma PairAndSingleAreOneGroup(pair: seq<Copy>, single: seq<Copy>, i: nat)
    requires |pair| == 2 && |single| == 1 && i < 2 && Share(pair[0], pair[1]) && Share(pair[i], single[0])
    ensures |Groups(Concat([pair, single]))| == 1
  {
    assert pair == [pair[0], pair[1]] && single == [single[0]];
    ConcatPairAndSingle(pair[0], pair[1], single[0]);
    ChainIsOneGroup(pair[0], pair[1], single[0]);
  }

  lemma MergedBridgeIsOneGroup(env: Env, p: Copy, q: Copy, bridge: Copy)
    requires Share(p, bridge) && Share(bridge, p) && Share(bridge, q)
    ensures |Groups(Concat(SettleEach(env, [[p, bridge], [q]])))| == 1
  {
    SettledPairShares(env, p, bridge);
    var i := SettledKeepsBridge(env, p, bridge);
    SettledSingle(env, q);
    var pair, single := Settled(env, [p, bridge]), Settled(env, [q]);
    ShareByIdentity(pair[i], single[0], bridge, q);
    PairAndSingleAreOneGroup(pair, single, i);
  }

  /** Two copies that share no key, and one that shares with both and joins the first:
      merging gives two releases, merging those gives one. */
  lemma {:induction false} BridgeMergesLate(env: Env, p: Copy, q: Copy, bridge: Copy)
    requires !Share(p, q) && Share(p, bridge) && Share(bridge, p) && Share(bridge, q)
    requires Target(Grouped([p, q]), bridge) == 0
    ensures |Merge(env, Three(p, q, bridge))| == 2
    ensures |Merge(env, Listed(Merge(env, Three(p, q, bridge))))| == 1
  {
    FlattenThree(p, q, bridge);
    GroupsWithBridge(p, q, bridge);
    FlattenMerged(env, [[p, bridge], [q]]);
    MergedBridgeIsOneGroup(env, p, q, bridge);
  }

  function Known(detailsUrl: string, guid: string): Copy {
    Copy(Ident("", "", "", detailsUrl, guid, "", false, "", false, None, false), 0, 0, "", 0, "", "", [], [])
  }

  /** One such listing: the third copy has the first one's page and the second one's
      GUID. It joins the first; only the second pass sees that the other is the same too. */
  lemma MergingAgainMergesMore(env: Env)
    ensures var listing := Three(Known("page", ""), Known("", "guid"), Known("page", "guid"));
            |Merge(env, listing)| == 2 && |Merge(env, Listed(Merge(env, listing)))| == 1
  {
    var p, q, bridge := Known("page", ""), Known("", "guid"), Known("page", "guid");
    assert Keys(p) == [Details("page")];
    assert Keys(q) == [Guid("guid")];
    assert Keys(bridge) == [Details("page"), Guid("guid")];
    assert Details("page") in Keys(p) && Details("page") in Keys(bridge);
    assert Guid("guid") in Keys(q) && Guid("guid") in Keys(bridge);
    GroupsOfStrangers(p, q);
    BridgeMergesLate(env, p, q, bridge);
  }

  ghost predicate DrawnFrom(releases: seq<Option<Release>>, pool: set<Copy>) {
    forall c :: c in Flatten(releases) ==> c in pool
  }

  ghost predicate Idempotent(env: Env, pool: set<Copy>) {
    forall releases :: DrawnFrom(releases, pool) ==> Merge(env, Listed(Merge(env, releases))) == Merge(env, releases)
  }

  lemma {:induction false} BridgeBreaksIdempotence(env: Env, p: Copy, q: Copy, bridge: Copy, pool: set<Copy>)
    requires p in pool && q in pool && bridge in pool
    requires !Share(p, q) && Share(p, bridge) && Share(bridge, p) && Share(bridge, q)
    requires Target(Grouped([p, q]), bridge) == 0
    ensures !Idempotent(env, pool)
  {
    BridgeMergesLate(env, p, q, bridge);
    FlattenThree(p, q, bridge);
    assert DrawnFrom(Three(p, q, bridge), pool);
  }

  // ---------------------------------------------------------------------------
  // A rank that falls breaks it

  function Singles(group: seq<Copy>): seq<Option<Release>> {
    if group == [] then [] else Singles(group[..|group| - 1]) + [Single(group[|group| - 1])]
  }

  lemma {:induction false} FlattenSingles(group: seq<Copy>)
    ensures Flatten(Singles(group)) == group
  {
    if group != [] {
      var n := |group| - 1;
      FlattenSingles(group[..n]);
      FlattenSingle(Singles(group[..n]), group[n]);
      InitAndLast(group);
    }
  }

  lemma {:induction false} CliqueIsOneGroup(group: seq<Copy>, pool: set<Copy>)
    requires Clique(group, pool)
    ensures Groups(group) == [group]
  {
    var n := |group| - 1;
    if n == 0 {
      assert group == [group[0]];
      GroupOfOne(group[0]);
    } else {
      CliqueIsOneGroup(group[..n], pool);
      assert Share(group[0], group[n]);
      JoinsTheOnlyGroup(group[..n], 0, group[n]);
      InitAndLast(group);
    }
  }

  lemma SettledClique(env: Env, group: seq<Copy>, pool: set<Copy>)
    requires Clique(group, pool)
    ensures Clique(Settled(env, group), set c | c in Settled(env, group))
  {
    SettledKeepsIdentities(env, group);
    SameIdentitiesSameClasses([group], [Settled(env, group)]);
    ClassIsClique([Settled(env, group)], 0, set c | c in Settled(env, group));
  }

  lemma {:induction false} MergeOfOneGroup(env: Env, releases: seq<Option<Release>>, group: seq<Copy>)
    requires group != [] && Flatten(releases) == group && Groups(group) == [group]
    ensures Merge(env, releases) == [MergedGroup(env, group)]
    ensures Flatten(Listed(Merge(env, releases))) == Settled(env, group)
  {
    assert Listed([MergedGroup(env, group)])[..0] == [];
  }

  lemma {:induction false} OvertakenBreaksIdempotence(env: Env, group: seq<Copy>, pool: set<Copy>)
    requires Clique(group, pool) && !StaysFirst(env, group)
    ensures !Idempotent(env, pool)
  {
    var listing := Singles(group);
    FlattenSingles(group);
    CliqueIsOneGroup(group, pool);
    MergeOfOneGroup(env, listing, group);
    SettledIsRanked(env, group);
    SettledClique(env, group, pool);
    CliqueIsOneGroup(Settled(env, group), set c | c in Settled(env, group));
    MergeOfOneGroup(env, Listed(Merge(env, listing)), Settled(env, group));
    OvertakenDoesNotStand(env, group);
    assert DrawnFrom(listing, pool);
  }

  lemma {:induction false} IdempotentIsTransitive(env: Env, pool: set<Copy>)
    requires Idempotent(env, pool)
    ensures Transitive(pool)
  {
    forall a, bridge, c | a in pool && bridge in pool && c in pool && Share(a, bridge) && Share(bridge, c)
      ensures Share(a, c)
    {
      if !Share(a, c) {
        ShareSymmetric(a, bridge);
        ShareSymmetric(bridge, c);
        ShareSymmetric(a, c);
        TargetOfBridge(a, c, bridge);
        if Target(Grouped([a, c]), bridge) == 0 {
          BridgeBreaksIdempotence(env, a, c, bridge, pool);
        } else {
          BridgeBreaksIdempotence(env, c, a, bridge, pool);
        }
      }
    }
  }

  /** For any rank, merging is idempotent on every listing of copies from a pool exactly
      when sharing a key is transitive on that pool and primaries stay first. */
  lemma {:induction false} IdempotentExactlyWhen(env: Env, pool: set<Copy>)
    ensures Idempotent(env, pool) <==> Transitive(pool) && PrimariesStay(env, pool)
  {
    if Transitive(pool) && PrimariesStay(env, pool) {
      forall releases | DrawnFrom(releases, pool)
        ensures Merge(env, Listed(Merge(env, releases))) == Merge(env, releases)
      {
        MergeIsIdempotent(env, releases, pool);
      }
    }
    if Idempotent(env, pool) {
      IdempotentIsTransitive(env, pool);
      forall group: seq<Copy> | Clique(group, pool) ensures StaysFirst(env, group) {
        if !StaysFirst(env, group) {
          OvertakenBreaksIdempotence(env, group, pool);
        }
      }
    }
  }

  /** So with a rank that filling in metadata never lowers, it is idempotent exactly
      when sharing a key is transitive. */
  lemma {:induction false} IdempotentExactlyWhenTransitive(env: Env, pool: set<Copy>)
    requires Steady(env)
    ensures Idempotent(env, pool) <==> Transitive(pool)
  {
    SteadyPrimariesStay(env, pool);
    IdempotentExactlyWhen(env, pool);
  }

  // Prefers copies of unknown size, and then those without a page.
  function SizeUnknownFirst(c: Copy): int {
    if c.size == 0 then 2 else if c.id.detailsUrl == "" then 1 else 0
  }

  const UNSIZED := Known("page", "guid")
  const SIZED := Known("", "guid").(size := 1)

  lemma {:induction false} RankedPair(env: Env, p: Copy, q: Copy)
    requires Before(env, Entry(p, 0), Entry(q, 1))
    ensures Ranked(env, [p, q]) == [p, q]
  {
    SortOfSorted(env, Entries([p, q]));
  }

  lemma {:induction false} FilledFallsBehind(env: Env, p: Copy, q: Copy)
    requires env.rank(p) > env.rank(q) > env.rank(Fill(env, p, q))
    ensures !StaysFirst(env, [p, q])
  {
    RankedPair(env, p, q);
    assert [p, q][1..] == [q];
    assert [q][..0] == [];
    assert FillAll(env, p, [q]) == Fill(env, p, q);
  }

  lemma {:induction false} PoolShares(pool: set<Copy>, k: Key)
    requires forall c :: c in pool ==> k in Keys(c)
    ensures Transitive(pool)
  {
    forall a, b | a in pool && b in pool ensures Share(a, b) {
      assert k in Keys(a) && k in Keys(b);
    }
  }

  lemma {:induction false} PairIsClique(p: Copy, q: Copy, k: Key)
    requires k in Keys(p) && k in Keys(q)
    ensures Clique([p, q], {p, q})
  {
    assert Share(p, q) && Share(q, p);
  }

  /** A rank that falls when a size is filled in: sharing a key is transitive on these
      two copies, and yet merging is not idempotent on them. */
  lemma {:induction false} FallingRankBreaksIdempotence(env: Env)
    requires env.rank == SizeUnknownFirst
    ensures Transitive({UNSIZED, SIZED}) && !Idempotent(env, {UNSIZED, SIZED})
  {
    assert Guid("guid") in Keys(UNSIZED) && Guid("guid") in Keys(SIZED);
    PoolShares({UNSIZED, SIZED}, Guid("guid"));
    PairIsClique(UNSIZED, SIZED, Guid("guid"));
    FilledFallsBehind(env, UNSIZED, SIZED);
    OvertakenBreaksIdempotence(env, [UNSIZED, SIZED], {UNSIZED, SIZED});
  }

  // ---------------------------------------------------------------------------
  // Dropping copies

  predicate Broken(c: Copy, drop: set<string>) {
    c.id.detailsUrl != "" && c.id.detailsUrl in drop
  }

  function Kept(copies: seq<Copy>, drop: set<string>): seq<Copy> {
    if copies == [] then []
    else
      var n := |copies| - 1;
      Kept(copies[..n], drop) + if Broken(copies[n], drop) then [] else [copies[n]]
  }

  function Dropped(release: Option<Release>, drop: set<string>): (Option<Release>, bool) {
    match release
    case None => (None, false)
    case Some(r) =>
      var copies := CopiesOf(r);
      var kept := Kept(copies, drop);
      if |kept| == |copies| then (release, false)
      else if kept == [] then (None, true)
      else (Some(Release(kept[0], AllPresent(kept[1..]))), true)
  }

  lemma {:induction false} KeptHolds(copies: seq<Copy>, drop: set<string>, c: Copy)
    ensures c in Kept(copies, drop) <==> c in copies && !Broken(c, drop)
  {
    if copies != [] {
      var n := |copies| - 1;
      KeptHolds(copies[..n], drop, c);
      assert c in copies <==> c in copies[..n] || c == copies[n];
    }
  }

  lemma {:induction false} KeptCount(copies: seq<Copy>, drop: set<string>)
    ensures |Kept(copies, drop)| <= |copies|
    ensures |Kept(copies, drop)| == |copies| <==> Kept(copies, drop) == copies
  {
    if copies != [] {
      var n := |copies| - 1;
      KeptCount(copies[..n], drop);
      assert copies == copies[..n] + [copies[n]];
    }
  }

  lemma {:induction false} KeptAll(copies: seq<Copy>, drop: set<string>)
    requires forall c :: c in copies ==> !Broken(c, drop)
    ensures Kept(copies, drop) == copies
  {
    if copies != [] {
      var n := |copies| - 1;
      KeptAll(copies[..n], drop);
      assert copies == copies[..n] + [copies[n]];
    }
  }

  lemma KeptIsFilter(copies: seq<Copy>, drop: set<string>)
    ensures |Kept(copies, drop)| <= |copies|
    ensures |Kept(copies, drop)| == |copies| <==> Kept(copies, drop) == copies
    ensures Kept(copies, drop) == copies <==> forall c :: c in copies ==> !Broken(c, drop)
    ensures forall c :: c in Kept(copies, drop) <==> c in copies && !Broken(c, drop)
  {
    KeptCount(copies, drop);
    forall c ensures c in Kept(copies, drop) <==> c in copies && !Broken(c, drop) {
      KeptHolds(copies, drop, c);
    }
    if forall c :: c in copies ==> !Broken(c, drop) {
      KeptAll(copies, drop);
    }
  }

  lemma KeptOneMore(copies: seq<Copy>, c: Copy, drop: set<string>)
    ensures Kept(copies + [c], drop) == Kept(copies, drop) + if Broken(c, drop) then [] else [c]
  {
    assert (copies + [c])[..|copies|] == copies;
  }

  lemma {:induction false} KeptTwice(copies: seq<Copy>, first: set<string>, second: set<string>)
    ensures Kept(Kept(copies, first), second) == Kept(copies, first + second)
  {
    if copies != [] {
      var n := |copies| - 1;
      KeptTwice(copies[..n], first, second);
      if Broken(copies[n], first) {
        assert Kept(copies, first) == Kept(copies[..n], first);
      } else {
        KeptOneMore(Kept(copies[..n], first), copies[n], second);
      }
    }
  }

  lemma CopiesOfDropped(r: Release, drop: set<string>)
    ensures match Dropped(Some(r), drop).0
            case None => Kept(CopiesOf(r), drop) == []
            case Some(left) => CopiesOf(left) == Kept(CopiesOf(r), drop)
  {
    KeptIsFilter(CopiesOf(r), drop);
    var kept := Kept(CopiesOf(r), drop);
    if kept != [] && |kept| != |CopiesOf(r)| {
      PresentOfAll(kept[1..]);
    }
  }

  /** Dropping keeps, in order, exactly the copies that are not broken; it reports a
      removal exactly when some copy was, and nothing is left exactly when all were. */
  lemma DroppedKeepsTheRest(r: Release, drop: set<string>)
    ensures var (left, removed) := Dropped(Some(r), drop);
            && (removed <==> exists c :: c in CopiesOf(r) && Broken(c, drop))
            && (left.None? <==> forall c :: c in CopiesOf(r) ==> Broken(c, drop))
            && (!removed ==> left == Some(r))
            && (left.Some? ==> CopiesOf(left.value) == Kept(CopiesOf(r), drop))
  {
    KeptIsFilter(CopiesOf(r), drop);
    CopiesOfDropped(r, drop);
    assert r.primary in CopiesOf(r);
    var kept := Kept(CopiesOf(r), drop);
    if kept != [] {
      assert kept[0] in CopiesOf(r) && !Broken(kept[0], drop);
    }
  }

  /** Dropping twice is dropping once by both sets, down to the variants that are nil. */
  lemma DropsCompose(release: Option<Release>, first: set<string>, second: set<string>)
    ensures var (once, removed) := Dropped(release, first);
            var (twice, removedToo) := Dropped(once, second);
            Dropped(release, first + second) == (twice, removed || removedToo)
  {
    if release.Some? {
      var copies := CopiesOf(release.value);
      KeptTwice(copies, first, second);
      CopiesOfDropped(release.value, first);
      KeptIsFilter(copies, first);
      KeptIsFilter(Kept(copies, first), second);
      KeptIsFilter(copies, first + second);
    }
  }
}
