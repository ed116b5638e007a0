/** Where every copy of a listing goes: which group it joins, said by the keys of the copies
    before it, and where it stands there, said by what makes one copy better than another. */
module MergeOrder {
  import opened Basics
  import opened Release
  import opened MergeGroups
  import opened MergeFold
  import opened MergeRanking
  import opened MergeResult

  // ---------------------------------------------------------------------------
  // The group of each copy

  function GroupAt(copies: seq<Copy>, n: nat): nat
    requires n < |copies|
  {
    Target(Grouped(copies[..n]), copies[n])
  }

  /** The last of the copies before the n-th that carries this key. */
  ghost predicate LastWith(copies: seq<Copy>, n: nat, k: Key, m: nat) {
    m < n <= |copies| && k in Keys(copies[m]) && forall j :: m < j < n ==> k !in Keys(copies[j])
  }

  ghost predicate KnownBefore(copies: seq<Copy>, n: nat, k: Key) {
    exists m: nat :: LastWith(copies, n, k, m)
  }

  // The index after the first n copies: each key leads to the group of its last carrier.
  ghost predicate LeadsToLast(copies: seq<Copy>, n: nat, k: Key)
    requires n <= |copies|
  {
    && (k in Grouped(copies[..n]).index <==> KnownBefore(copies, n, k))
    && forall m: nat :: LastWith(copies, n, k, m) ==> Grouped(copies[..n]).index[k] == GroupAt(copies, m)
  }

  lemma GroupedNext(copies: seq<Copy>, n: nat)
    requires n < |copies|
    ensures Grouped(copies[..n + 1]) == Add(Grouped(copies[..n]), copies[n])
  {
    assert copies[..n + 1][..n] == copies[..n];
  }

  lemma LastIsNew(copies: seq<Copy>, n: nat, k: Key)
    requires 0 < n <= |copies| && k in Keys(copies[n - 1])
    ensures KnownBefore(copies, n, k) && forall m: nat :: LastWith(copies, n, k, m) <==> m == n - 1
  {
    assert LastWith(copies, n, k, n - 1);
  }

  lemma LastIsOld(copies: seq<Copy>, n: nat, k: Key)
    requires 0 < n <= |copies| && k !in Keys(copies[n - 1])
    ensures forall m: nat :: LastWith(copies, n, k, m) <==> LastWith(copies, n - 1, k, m)
    ensures KnownBefore(copies, n, k) <==> KnownBefore(copies, n - 1, k)
  {
    forall m: nat ensures LastWith(copies, n, k, m) <==> LastWith(copies, n - 1, k, m) {
    }
    if KnownBefore(copies, n - 1, k) {
      var m: nat :| LastWith(copies, n - 1, k, m);
      assert LastWith(copies, n, k, m);
    }
  }

  lemma {:induction false} KeyLeadsToLast(copies: seq<Copy>, n: nat, k: Key)
    requires n <= |copies|
    ensures LeadsToLast(copies, n, k)
  {
    if n > 0 {
      KeyLeadsToLast(copies, n - 1, k);
      GroupedNext(copies, n - 1);
      if k in Keys(copies[n - 1]) {
        LastIsNew(copies, n, k);
      } else {
        LastIsOld(copies, n, k);
      }
    }
  }

  /** A copy joins the group of the last copy before it with the first of its keys that any
      copy before it carries. */
  lemma {:induction false} CopyJoinsByItsFirstKnownKey(copies: seq<Copy>, n: nat, t: nat, m: nat)
    requires n < |copies| && t < |Keys(copies[n])| && LastWith(copies, n, Keys(copies[n])[t], m)
    requires forall u :: 0 <= u < t ==> !KnownBefore(copies, n, Keys(copies[n])[u])
    ensures GroupAt(copies, n) == GroupAt(copies, m)
  {
    var keys := Keys(copies[n]);
    var index := Grouped(copies[..n]).index;
    KeyLeadsToLast(copies, n, keys[t]);
    assert KnownBefore(copies, n, keys[t]);
    forall u | 0 <= u < t ensures keys[u] !in index {
      KeyLeadsToLast(copies, n, keys[u]);
    }
    FindsFirst(Grouped(copies[..n]).index, keys, t);
  }

  lemma {:induction false} FindsFirst(index: map<Key, nat>, keys: seq<Key>, t: nat)
    requires t < |keys| && keys[t] in index && forall u :: 0 <= u < t ==> keys[u] !in index
    ensures FindGroup(index, keys) == Some(index[keys[t]])
  {
    if t > 0 {
      FindsFirst(index, keys[1..], t - 1);
    }
  }

  /** A copy none of whose keys was there before opens the next group. */
  lemma {:induction false} NewKeysOpenAGroup(copies: seq<Copy>, n: nat)
    requires n < |copies| && forall k :: k in Keys(copies[n]) ==> !KnownBefore(copies, n, k)
    ensures GroupAt(copies, n) == |Groups(copies[..n])|
  {
    forall k | k in Keys(copies[n]) ensures k !in Grouped(copies[..n]).index {
      KeyLeadsToLast(copies, n, k);
    }
    FoundBySomeKey(Grouped(copies[..n]).index, Keys(copies[n]));
  }

  /** The keys of a copy: its details page, its GUID and its normalised title, those it has,
      in this order. */
  lemma KeysAre(c: Copy)
    ensures |Keys(c)| == (if c.id.detailsUrl != "" then 1 else 0) + (if c.id.guid != "" then 1 else 0)
                         + (if c.id.normTitle != "" then 1 else 0)
    ensures forall i, j :: 0 <= i < j < |Keys(c)| ==>
              Keys(c)[i].Details? || (Keys(c)[i].Guid? && Keys(c)[j].Title?)
    ensures forall s :: Details(s) in Keys(c) <==> s == c.id.detailsUrl != ""
    ensures forall s :: Guid(s) in Keys(c) <==> s == c.id.guid != ""
    ensures forall s :: Title(s) in Keys(c) <==> s == c.id.normTitle != ""
  {
  }

  // ---------------------------------------------------------------------------
  // The places of a group

  /** The places before the n-th of the copies that went to this group, in order. */
  function PlacesOf(copies: seq<Copy>, g: nat, n: nat): seq<nat>
    requires n <= |copies|
  {
    if n == 0 then [] else PlacesOf(copies, g, n - 1) + if GroupAt(copies, n - 1) == g then [n - 1] else []
  }

  predicate Climbs(places: seq<nat>) {
    forall i, j :: 0 <= i < j < |places| ==> places[i] < places[j]
  }

  // The places below n with this property, in order.
  ghost predicate ListsPlaces(copies: seq<Copy>, g: nat, n: nat, places: seq<nat>)
    requires n <= |copies|
  {
    Climbs(places) && forall at: nat :: at in places <==> at < n && GroupAt(copies, at) == g
  }

  lemma ListsOneMore(copies: seq<Copy>, g: nat, n: nat, places: seq<nat>)
    requires n < |copies| && ListsPlaces(copies, g, n, places)
    ensures ListsPlaces(copies, g, n + 1, places + if GroupAt(copies, n) == g then [n] else [])
  {
    forall i | 0 <= i < |places| ensures places[i] < n {
      assert places[i] in places;
    }
  }

  lemma {:induction false} PlacesAre(copies: seq<Copy>, g: nat, n: nat)
    requires n <= |copies|
    ensures ListsPlaces(copies, g, n, PlacesOf(copies, g, n))
  {
    if n > 0 {
      PlacesAre(copies, g, n - 1);
      ListsOneMore(copies, g, n - 1, PlacesOf(copies, g, n - 1));
    }
  }

  // The group holds the copies at these places, in their order.
  ghost predicate HoldsPlaces(copies: seq<Copy>, group: seq<Copy>, places: seq<nat>) {
    |group| == |places| && forall i :: 0 <= i < |places| ==> places[i] < |copies| && group[i] == copies[places[i]]
  }

  function GroupOf(groups: seq<seq<Copy>>, g: nat): seq<Copy> {
    if g < |groups| then groups[g] else []
  }

  lemma PutAtItsPlace(copies: seq<Copy>, groups: seq<seq<Copy>>, t: nat, n: nat, g: nat, places: seq<nat>)
    requires n < |copies| && t <= |groups| && HoldsPlaces(copies, GroupOf(groups, g), places)
    ensures HoldsPlaces(copies, GroupOf(PutIn(groups, t, copies[n]), g), places + if t == g then [n] else [])
  {
  }

  lemma GroupsNext(copies: seq<Copy>, n: nat)
    requires n < |copies|
    ensures Groups(copies[..n + 1]) == PutIn(Groups(copies[..n]), GroupAt(copies, n), copies[n])
    ensures GroupAt(copies, n) <= |Groups(copies[..n])|
  {
    GroupedNext(copies, n);
    AlwaysIndexed(copies[..n]);
    TargetShares(Grouped(copies[..n]), copies[n]);
  }

  lemma {:induction false} GroupsArePlaces(copies: seq<Copy>, g: nat, n: nat)
    requires n <= |copies|
    ensures HoldsPlaces(copies, GroupOf(Groups(copies[..n]), g), PlacesOf(copies, g, n))
  {
    if n > 0 {
      GroupsArePlaces(copies, g, n - 1);
      GroupsNext(copies, n - 1);
      PutAtItsPlace(copies, Groups(copies[..n - 1]), GroupAt(copies, n - 1), n - 1, g, PlacesOf(copies, g, n - 1));
    }
  }

  // ---------------------------------------------------------------------------
  // The order inside a group

  /** A merged release is made of these places of the input, best first: the copy at the
      first of them, with its metadata filled in, and the others as they were. */
  ghost predicate IsMadeOf(env: Env, copies: seq<Copy>, r: Release, order: seq<nat>) {
    && order != [] && BestFirst(env, copies, order)
    && |r.variants| == |order| - 1
    && (forall i :: 0 < i < |order| ==> r.variants[i - 1] == Some(copies[order[i]]))
    && r.primary.id == copies[order[0]].id
    && r.primary == FillAll(env, copies[order[0]], Present(r.variants))
  }

  ghost predicate KeepsBestFirst(env: Env, copies: seq<Copy>, g: nat, r: Release) {
    exists order: seq<nat> ::
      IsMadeOf(env, copies, r, order) && forall at: nat :: at in order <==> at < |copies| && GroupAt(copies, at) == g
  }

  lemma OrderOfPlaces(env: Env, copies: seq<Copy>, group: seq<Copy>, places: seq<nat>, inner: seq<nat>)
      returns (order: seq<nat>)
    requires HoldsPlaces(copies, group, places) && RankedFrom(env, group, Ranked(env, group), inner)
    requires Climbs(places)
    ensures |order| == |group| && BestFirst(env, copies, order)
    ensures |Ranked(env, group)| == |group| && forall i ::
              0 <= i < |order| ==> Ranked(env, group)[i] == copies[order[i]]
    ensures forall at: nat :: at in order <==> at in places
  {
    order := seq(|inner|, i requires 0 <= i < |inner| && inner[i] < |places| => places[inner[i]]);
    forall at: nat | at in places ensures at in order {
      var p: nat :| p < |places| && places[p] == at;
      assert p in inner;
      var i :| 0 <= i < |inner| && inner[i] == p;
      assert order[i] == at;
    }
    forall i, j | 0 <= i < j < |order|
      ensures Preferred(env, copies[order[i]], order[i], copies[order[j]], order[j])
    {
      assert Preferred(env, group[inner[i]], inner[i], group[inner[j]], inner[j]);
      OrderIsKept(places, inner[i], inner[j]);
    }
  }

  lemma OrderIsKept(places: seq<nat>, a: nat, b: nat)
    requires Climbs(places)
    requires a < |places| && b < |places|
    ensures places[a] < places[b] <==> a < b
  {
  }

  lemma {:induction false} MergedGroupIsMadeOf(env: Env, copies: seq<Copy>, group: seq<Copy>, order: seq<nat>)
    requires group != [] && |order| == |group| == |Ranked(env, group)| && BestFirst(env, copies, order)
    requires forall i :: 0 <= i < |order| ==> Ranked(env, group)[i] == copies[order[i]]
    ensures IsMadeOf(env, copies, MergedGroup(env, group), order)
  {
    var ranked := Ranked(env, group);
    FillKeepsIdentity(env, ranked[0], ranked[1..]);
    PresentOfAll(ranked[1..]);
  }

  lemma {:induction false} GroupIsMadeOf(env: Env, group: seq<Copy>) returns (order: seq<nat>)
    requires group != []
    ensures |order| == |group| && IsMadeOf(env, group, MergedGroup(env, group), order)
  {
    order := RankedIsBestFirst(env, group);
    MergedGroupIsMadeOf(env, group, group, order);
  }

  /** In every merged listing, each release is made of the copies of its group, best first:
      no copy outranks the primary; none of its rank has more grabs; none of these is
      newer, or dated when the primary is not; and what is left goes by place in the input.
      Each variant stands to those after it in the same way. */
  lemma {:induction false} MergeKeepsTheBestFirst(env: Env, releases: seq<Option<Release>>, g: nat)
    requires g < |Merge(env, releases)|
    ensures KeepsBestFirst(env, Flatten(releases), g, Merge(env, releases)[g])
  {
    var copies := Flatten(releases);
    var group, places := Groups(copies)[g], PlacesOf(copies, g, |copies|);
    AlwaysIndexed(copies);
    assert copies[..|copies|] == copies;
    GroupsArePlaces(copies, g, |copies|);
    PlacesAre(copies, g, |copies|);
    var inner := RankedIsBestFirst(env, group);
    var order := OrderOfPlaces(env, copies, group, places, inner);
    MergedGroupIsMadeOf(env, copies, group, order);
    assert IsMadeOf(env, copies, Merge(env, releases)[g], order);
  }
}
