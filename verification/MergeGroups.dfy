/** Partitioning copies into releases: one pass over the copies with an index from
    dedupe key to group. */
module MergeGroups {
  import opened Basics
  import opened Release

  datatype Partition = Partition(index: map<Key, nat>, groups: seq<seq<Copy>>)

  function FindGroup(index: map<Key, nat>, keys: seq<Key>): Option<nat> {
    if keys == [] then None
    else if keys[0] in index then Some(index[keys[0]])
    else FindGroup(index, keys[1..])
  }

  function SetAll(index: map<Key, nat>, keys: seq<Key>, g: nat): map<Key, nat> {
    map k | k in index.Keys + (set k | k in keys) :: if k in keys then g else index[k]
  }

  function PutIn(groups: seq<seq<Copy>>, g: nat, c: Copy): seq<seq<Copy>> {
    if g < |groups| then groups[g := groups[g] + [c]] else groups + [[c]]
  }

  // The group a copy goes to: the first one found under its keys, or the next.
  function Target(p: Partition, c: Copy): nat {
    match FindGroup(p.index, Keys(c))
    case Some(g) => g
    case None => |p.groups|
  }

  function Add(p: Partition, c: Copy): Partition {
    var g := Target(p, c);
    Partition(SetAll(p.index, Keys(c), g), PutIn(p.groups, g, c))
  }

  function Grouped(copies: seq<Copy>): Partition {
    if copies == [] then Partition(map[], [])
    else Add(Grouped(copies[..|copies| - 1]), copies[|copies| - 1])
  }

  function Groups(copies: seq<Copy>): seq<seq<Copy>> {
    Grouped(copies).groups
  }

  function Concat(groups: seq<seq<Copy>>): seq<Copy> {
    if groups == [] then [] else Concat(groups[..|groups| - 1]) + groups[|groups| - 1]
  }

  // ---------------------------------------------------------------------------
  // What the index always says

  ghost predicate Has(g: seq<Copy>, k: Key) {
    exists i :: 0 <= i < |g| && k in Keys(g[i])
  }

  /** The index knows exactly the keys seen so far, and sends each to a group that
      holds a copy with it; no group is empty. */
  ghost predicate Indexed(p: Partition) {
    && (forall k :: k in p.index ==> p.index[k] < |p.groups| && Has(p.groups[p.index[k]], k))
    && (forall g, k :: 0 <= g < |p.groups| && Has(p.groups[g], k) ==> k in p.index)
    && (forall g :: 0 <= g < |p.groups| ==> p.groups[g] != [])
  }

  lemma {:induction false} FoundBySomeKey(index: map<Key, nat>, keys: seq<Key>)
    ensures FindGroup(index, keys).Some? <==> exists k :: k in keys && k in index
    ensures FindGroup(index, keys).Some? ==>
              exists k :: k in keys && k in index && index[k] == FindGroup(index, keys).value
  {
    if keys != [] {
      FoundBySomeKey(index, keys[1..]);
      if keys[0] in index {
        assert keys[0] in keys;
      } else {
        assert forall k :: k in keys && k in index ==> k in keys[1..];
        assert forall k :: k in keys[1..] ==> k in keys;
      }
    }
  }

  lemma HasMore(g: seq<Copy>, c: Copy, k: Key)
    ensures Has(g + [c], k) <==> Has(g, k) || k in Keys(c)
  {
    if Has(g, k) {
      var i :| 0 <= i < |g| && k in Keys(g[i]);
      assert (g + [c])[i] == g[i];
    }
    if k in Keys(c) {
      assert (g + [c])[|g|] == c;
    }
    if Has(g + [c], k) {
      var i :| 0 <= i < |g + [c]| && k in Keys((g + [c])[i]);
      if i < |g| {
        assert g[i] == (g + [c])[i];
      }
    }
  }

  lemma HasAfter(groups: seq<seq<Copy>>, g: nat, c: Copy, h: nat, k: Key)
    requires g <= |groups| && h < |PutIn(groups, g, c)|
    ensures Has(PutIn(groups, g, c)[h], k) <==> (h < |groups| && Has(groups[h], k)) || (h == g && k in Keys(c))
  {
    if h == g {
      HasMore(if g < |groups| then groups[g] else [], c, k);
      assert [] + [c] == [c];
    }
  }

  /** A copy goes to a group it shares a key with, or, when there is none, to a new one. */
  lemma TargetShares(p: Partition, c: Copy)
    requires Indexed(p)
    ensures var g := Target(p, c);
            && g <= |p.groups|
            && (g < |p.groups| ==> exists k :: k in Keys(c) && Has(p.groups[g], k))
            && (g == |p.groups| ==> forall h, k :: 0 <= h < |p.groups| && k in Keys(c) ==> !Has(p.groups[h], k))
  {
    FoundBySomeKey(p.index, Keys(c));
  }

  lemma {:induction false} AddKeepsIndexed(p: Partition, c: Copy)
    requires Indexed(p)
    ensures Indexed(Add(p, c))
  {
    TargetShares(p, c);
    var g := Target(p, c);
    var p' := Add(p, c);
    forall k | k in p'.index
      ensures p'.index[k] < |p'.groups| && Has(p'.groups[p'.index[k]], k)
    {
      HasAfter(p.groups, g, c, p'.index[k], k);
    }
    forall h, k | 0 <= h < |p'.groups| && Has(p'.groups[h], k)
      ensures k in p'.index
    {
      HasAfter(p.groups, g, c, h, k);
    }
  }

  lemma {:induction false} AlwaysIndexed(copies: seq<Copy>)
    ensures Indexed(Grouped(copies))
  {
    if copies != [] {
      AlwaysIndexed(copies[..|copies| - 1]);
      AddKeepsIndexed(Grouped(copies[..|copies| - 1]), copies[|copies| - 1]);
    }
  }

  // ---------------------------------------------------------------------------
  // No copy is lost, invented or doubled

  lemma {:induction false} ConcatUpdated(groups: seq<seq<Copy>>, g: nat, c: Copy)
    requires g < |groups|
    ensures multiset(Concat(groups[g := groups[g] + [c]])) == multiset(Concat(groups)) + multiset{c}
  {
    var n := |groups| - 1;
    if g == n {
      assert groups[g := groups[g] + [c]][..n] == groups[..n];
      assert Concat(groups[..n]) + (groups[n] + [c]) == Concat(groups) + [c];
    } else {
      assert groups[g := groups[g] + [c]][..n] == groups[..n][g := groups[..n][g] + [c]];
      ConcatUpdated(groups[..n], g, c);
    }
  }

  lemma PutInAddsOne(groups: seq<seq<Copy>>, g: nat, c: Copy)
    ensures multiset(Concat(PutIn(groups, g, c))) == multiset(Concat(groups)) + multiset{c}
  {
    if g < |groups| {
      ConcatUpdated(groups, g, c);
    } else {
      assert (groups + [[c]])[..|groups|] == groups;
      assert Concat(groups + [[c]]) == Concat(groups) + [c];
    }
  }

  lemma GroupedOneMore(copies: seq<Copy>, c: Copy)
    ensures Grouped(copies + [c]) == Add(Grouped(copies), c)
  {
    assert (copies + [c])[..|copies|] == copies;
  }

  lemma GroupsOneMore(before: seq<Copy>, c: Copy)
    ensures Groups(before + [c]) == PutIn(Groups(before), Target(Grouped(before), c), c)
  {
    assert (before + [c])[..|before + [c]| - 1] == before;
  }

  lemma {:induction false} OneMoreConserved(before: seq<Copy>, c: Copy)
    requires multiset(Concat(Groups(before))) == multiset(before)
    ensures multiset(Concat(Groups(before + [c]))) == multiset(before + [c])
  {
    GroupsOneMore(before, c);
    PutInAddsOne(Groups(before), Target(Grouped(before), c), c);
  }

  /** Grouping permutes the copies. */
  lemma {:induction false} GroupsConserveCopies(copies: seq<Copy>)
    ensures multiset(Concat(Groups(copies))) == multiset(copies)
  {
    if copies != [] {
      var n := |copies| - 1;
      GroupsConserveCopies(copies[..n]);
      OneMoreConserved(copies[..n], copies[n]);
      InitAndLast(copies);
    }
  }

  // ---------------------------------------------------------------------------
  // When sharing a key is transitive, the groups are its classes

  ghost predicate Classes(groups: seq<seq<Copy>>) {
    && (forall g, i, j {:trigger Share(groups[g][i], groups[g][j])} ::
          0 <= g < |groups| && 0 <= i < |groups[g]| && 0 <= j < |groups[g]| && i != j ==>
            Share(groups[g][i], groups[g][j]))
    && (forall g, h, i, j {:trigger Share(groups[g][i], groups[h][j])} ::
          0 <= g < |groups| && 0 <= h < |groups| && g != h && 0 <= i < |groups[g]| && 0 <= j < |groups[h]| ==>
            !Share(groups[g][i], groups[h][j]))
  }

  ghost predicate Within(groups: seq<seq<Copy>>, pool: set<Copy>) {
    forall g, i :: 0 <= g < |groups| && 0 <= i < |groups[g]| ==> groups[g][i] in pool
  }

  lemma ShareSymmetric(a: Copy, b: Copy)
    ensures Share(a, b) == Share(b, a)
  {
  }

  // A copy that shares a key with one member of a class shares one with all.
  lemma SharesWithAll(group: seq<Copy>, d: nat, c: Copy, pool: set<Copy>)
    requires Transitive(pool) && c in pool && d < |group| && Share(c, group[d])
    requires forall i :: 0 <= i < |group| ==> group[i] in pool
    requires forall i, j :: 0 <= i < |group| && 0 <= j < |group| && i != j ==> Share(group[i], group[j])
    ensures forall i :: 0 <= i < |group| ==> Share(c, group[i]) && Share(group[i], c)
  {
    forall i | 0 <= i < |group| ensures Share(c, group[i]) && Share(group[i], c) {
      if i != d {
        assert Share(group[d], group[i]);
      }
      ShareSymmetric(c, group[i]);
    }
  }

  ghost predicate Apart(groups: seq<seq<Copy>>, g: nat, c: Copy) {
    forall h, j :: 0 <= h < |groups| && h != g && 0 <= j < |groups[h]| ==>
      !Share(c, groups[h][j]) && !Share(groups[h][j], c)
  }

  lemma JoinKeepsClasses(groups: seq<seq<Copy>>, g: nat, c: Copy)
    requires Classes(groups) && g < |groups| && Apart(groups, g, c)
    requires forall i :: 0 <= i < |groups[g]| ==> Share(c, groups[g][i]) && Share(groups[g][i], c)
    ensures Classes(groups[g := groups[g] + [c]])
  {
  }

  lemma OpenKeepsClasses(groups: seq<seq<Copy>>, c: Copy)
    requires Classes(groups) && Apart(groups, |groups|, c)
    ensures Classes(groups + [[c]])
  {
  }

  // What a copy shares a key with in its target group.
  lemma TargetMember(p: Partition, c: Copy) returns (d: nat)
    requires Indexed(p) && Target(p, c) < |p.groups|
    ensures d < |p.groups[Target(p, c)]| && Share(c, p.groups[Target(p, c)][d])
  {
    TargetShares(p, c);
    var k :| k in Keys(c) && Has(p.groups[Target(p, c)], k);
    d :| 0 <= d < |p.groups[Target(p, c)]| && k in Keys(p.groups[Target(p, c)][d]);
  }

  lemma ClassOfOneIsApart(groups: seq<seq<Copy>>, g: nat, d: nat, c: Copy, pool: set<Copy>)
    requires Classes(groups) && Within(groups, pool) && Transitive(pool) && c in pool
    requires g < |groups| && d < |groups[g]| && Share(c, groups[g][d])
    ensures Apart(groups, g, c)
  {
    ShareSymmetric(c, groups[g][d]);
    forall h, j | 0 <= h < |groups| && h != g && 0 <= j < |groups[h]|
      ensures !Share(c, groups[h][j]) && !Share(groups[h][j], c)
    {
      ShareSymmetric(c, groups[h][j]);
      assert groups[g][d] in pool && groups[h][j] in pool && !Share(groups[g][d], groups[h][j]);
    }
  }

  lemma {:induction false} TargetIsApart(p: Partition, c: Copy, pool: set<Copy>)
    requires Indexed(p) && Classes(p.groups) && Within(p.groups, pool) && Transitive(pool) && c in pool
    ensures Apart(p.groups, Target(p, c), c)
  {
    var g := Target(p, c);
    TargetShares(p, c);
    if g < |p.groups| {
      var d := TargetMember(p, c);
      ClassOfOneIsApart(p.groups, g, d, c, pool);
    } else {
      forall h, j | 0 <= h < |p.groups| && 0 <= j < |p.groups[h]|
        ensures !Share(c, p.groups[h][j]) && !Share(p.groups[h][j], c)
      {
        ShareSymmetric(c, p.groups[h][j]);
      }
    }
  }

  lemma PutInStaysWithin(groups: seq<seq<Copy>>, g: nat, c: Copy, pool: set<Copy>)
    requires Within(groups, pool) && c in pool
    ensures Within(PutIn(groups, g, c), pool)
  {
  }

  lemma {:induction false} AddKeepsClasses(p: Partition, c: Copy, pool: set<Copy>)
    requires Indexed(p) && Classes(p.groups) && Within(p.groups, pool) && Transitive(pool) && c in pool
    ensures Classes(Add(p, c).groups) && Within(Add(p, c).groups, pool)
  {
    TargetShares(p, c);
    TargetIsApart(p, c, pool);
    PutInStaysWithin(p.groups, Target(p, c), c, pool);
    if Target(p, c) < |p.groups| {
      var d := TargetMember(p, c);
      SharesWithAll(p.groups[Target(p, c)], d, c, pool);
      JoinKeepsClasses(p.groups, Target(p, c), c);
    } else {
      OpenKeepsClasses(p.groups, c);
    }
  }

  /** Under transitivity, two copies are in one group exactly when they share a key. */
  lemma {:induction false} GroupsAreClasses(copies: seq<Copy>, pool: set<Copy>)
    requires Transitive(pool) && forall c :: c in copies ==> c in pool
    ensures Classes(Groups(copies)) && Within(Groups(copies), pool)
  {
    if copies != [] {
      var n := |copies| - 1;
      GroupsAreClasses(copies[..n], pool);
      AlwaysIndexed(copies[..n]);
      AddKeepsClasses(Grouped(copies[..n]), copies[n], pool);
    }
  }

  // ---------------------------------------------------------------------------
  // Regrouping classes, one after the other, gives the same classes

  ghost predicate NonEmpty(groups: seq<seq<Copy>>) {
    forall g :: 0 <= g < |groups| ==> groups[g] != []
  }

  // The classes reached once the first `g` are done and `i` copies of the next.
  function Reached(groups: seq<seq<Copy>>, g: nat, i: nat): seq<seq<Copy>>
    requires g < |groups| && i <= |groups[g]|
  {
    if i == 0 then groups[..g] else groups[..g] + [groups[g][..i]]
  }

  lemma ReachedNext(groups: seq<seq<Copy>>, g: nat, i: nat)
    requires g < |groups| && 0 < i <= |groups[g]|
    ensures PutIn(Reached(groups, g, i - 1), g, groups[g][i - 1]) == Reached(groups, g, i)
  {
    var c := groups[g][i - 1];
    assert groups[g][..i - 1] + [c] == groups[g][..i];
    if i == 1 {
      assert [c] == groups[g][..i];
    } else {
      assert (groups[..g] + [groups[g][..i - 1]])[g := groups[g][..i]] == groups[..g] + [groups[g][..i]];
    }
  }

  lemma OtherClassHasNoKey(groups: seq<seq<Copy>>, h: nat, g: nat, i: nat, k: Key)
    requires Classes(groups) && h < |groups| && g < |groups| && h != g && i < |groups[g]| && k in Keys(groups[g][i])
    ensures !Has(groups[h], k)
  {
    forall d | 0 <= d < |groups[h]| ensures k !in Keys(groups[h][d]) {
      assert !Share(groups[h][d], groups[g][i]);
    }
  }

  // No earlier class has a key of the next copy, and its own class does once begun.
  lemma EarlierClassesLackIt(groups: seq<seq<Copy>>, g: nat, i: nat, k: Key)
    requires Classes(groups) && g < |groups| && i < |groups[g]| && k in Keys(groups[g][i])
    ensures forall h :: 0 <= h < g ==> !Has(Reached(groups, g, i)[h], k)
  {
    forall h | 0 <= h < g ensures !Has(Reached(groups, g, i)[h], k) {
      OtherClassHasNoKey(groups, h, g, i, k);
    }
  }

  lemma OwnClassHasIt(groups: seq<seq<Copy>>, g: nat, i: nat) returns (k: Key)
    requires Classes(groups) && g < |groups| && 0 < i < |groups[g]|
    ensures k in Keys(groups[g][i]) && Has(Reached(groups, g, i)[g], k)
  {
    assert Share(groups[g][0], groups[g][i]);
    k :| k in Keys(groups[g][0]) && k in Keys(groups[g][i]);
    assert Reached(groups, g, i)[g][0] == groups[g][0];
  }

  lemma NextLands(groups: seq<seq<Copy>>, g: nat, i: nat, p: Partition)
    requires Classes(groups) && g < |groups| && 0 < i <= |groups[g]|
    requires Indexed(p) && p.groups == Reached(groups, g, i - 1)
    ensures Target(p, groups[g][i - 1]) == g
  {
    var c := groups[g][i - 1];
    TargetShares(p, c);
    if Target(p, c) < g {
      var k :| k in Keys(c) && Has(p.groups[Target(p, c)], k);
      EarlierClassesLackIt(groups, g, i - 1, k);
    } else if i > 1 {
      var k := OwnClassHasIt(groups, g, i - 1);
    }
  }

  function AddEach(p: Partition, copies: seq<Copy>): Partition {
    if copies == [] then p else Add(AddEach(p, copies[..|copies| - 1]), copies[|copies| - 1])
  }

  lemma AddEachOneMore(p: Partition, copies: seq<Copy>, i: nat)
    requires 0 < i <= |copies|
    ensures AddEach(p, copies[..i]) == Add(AddEach(p, copies[..i - 1]), copies[i - 1])
  {
    assert copies[..i][..i - 1] == copies[..i - 1];
  }

  lemma AddEachMore(p: Partition, copies: seq<Copy>, c: Copy)
    ensures AddEach(p, copies + [c]) == Add(AddEach(p, copies), c)
  {
    assert (copies + [c])[..|copies|] == copies;
  }

  lemma GroupedBothMore(a: seq<Copy>, b: seq<Copy>, c: Copy)
    requires Grouped(a + b) == AddEach(Grouped(a), b)
    ensures Grouped(a + (b + [c])) == AddEach(Grouped(a), b + [c])
  {
    AddEachMore(Grouped(a), b, c);
    GroupedOneMore(a + b, c);
    Reassociate(a, b, [c]);
  }

  lemma Reassociate(a: seq<Copy>, b: seq<Copy>, c: seq<Copy>)
    ensures a + (b + c) == a + b + c
  {
  }

  lemma {:induction false} GroupedBoth(a: seq<Copy>, b: seq<Copy>)
    ensures Grouped(a + b) == AddEach(Grouped(a), b)
  {
    if b == [] {
      assert a + b == a;
    } else {
      var n := |b| - 1;
      GroupedBoth(a, b[..n]);
      GroupedBothMore(a, b[..n], b[n]);
      InitAndLast(b);
    }
  }

  // One copy more of the class that is being reached.
  lemma NextReached(groups: seq<seq<Copy>>, g: nat, i: nat, p: Partition)
    requires Classes(groups) && g < |groups| && 0 < i <= |groups[g]|
    requires Indexed(p) && p.groups == Reached(groups, g, i - 1)
    ensures Indexed(Add(p, groups[g][i - 1])) && Add(p, groups[g][i - 1]).groups == Reached(groups, g, i)
  {
    AddKeepsIndexed(p, groups[g][i - 1]);
    NextLands(groups, g, i, p);
    ReachedNext(groups, g, i);
  }

  lemma {:induction false} ClassReached(groups: seq<seq<Copy>>, g: nat, i: nat, p: Partition)
    requires Classes(groups) && g < |groups| && i <= |groups[g]|
    requires Indexed(p) && p.groups == groups[..g]
    ensures Indexed(AddEach(p, groups[g][..i])) && AddEach(p, groups[g][..i]).groups == Reached(groups, g, i)
  {
    if i > 0 {
      ClassReached(groups, g, i - 1, p);
      AddEachOneMore(p, groups[g], i);
      NextReached(groups, g, i, AddEach(p, groups[g][..i - 1]));
    }
  }

  lemma {:induction false} RegroupFirst(groups: seq<seq<Copy>>, g: nat)
    requires Classes(groups) && NonEmpty(groups) && g <= |groups|
    ensures Groups(Concat(groups[..g])) == groups[..g]
  {
    if g > 0 {
      var done, last := Concat(groups[..g - 1]), groups[g - 1];
      RegroupFirst(groups, g - 1);
      AlwaysIndexed(done);
      ClassReached(groups, g - 1, |last|, Grouped(done));
      GroupedBoth(done, last[..|last|]);
      ClassDone(groups, g);
    }
  }

  // All of class `g - 1` reached is none of class `g` reached.
  lemma ClassDone(groups: seq<seq<Copy>>, g: nat)
    requires 0 < g <= |groups| && groups[g - 1] != []
    ensures Concat(groups[..g - 1]) + groups[g - 1][..|groups[g - 1]|] == Concat(groups[..g])
    ensures Reached(groups, g - 1, |groups[g - 1]|) == groups[..g]
  {
    var last := groups[g - 1];
    assert last[..|last|] == last;
    assert groups[..g][..g - 1] == groups[..g - 1];
    assert groups[..g - 1] + [last] == groups[..g];
  }

  /** Regrouping classes, one after the other, gives the same classes. */
  lemma RegroupClasses(groups: seq<seq<Copy>>)
    requires Classes(groups) && NonEmpty(groups)
    ensures Groups(Concat(groups)) == groups
  {
    RegroupFirst(groups, |groups|);
    assert groups[..|groups|] == groups;
  }
}
