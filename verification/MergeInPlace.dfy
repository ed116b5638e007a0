/** The merge as it runs, on release objects that are changed in place. Each method
    here is proved to compute what MergeResult says of the values the objects hold:
    the grouping visits copies with an index and a counter, a group is sorted and its
    first object filled from the others, and dropping promotes an object that is
    already there. */
module MergeInPlace {
  import opened Basics
  import opened Release
  import opened MergeGroups
  import opened MergeFold
  import opened MergeOrder
  import opened MergeRanking
  import opened MergeResult

  class Item {
    const id: Ident
    var grabs: int
    var size: int
    var pubDate: string
    var duration: int
    var poster: string
    var usenetDate: string
    var languages: seq<string>
    var subtitles: seq<string>
    var variants: seq<Item?>

    constructor (c: Copy)
      ensures View() == c && variants == []
    {
      id := c.id;
      grabs, size, pubDate, duration := c.grabs, c.size, c.pubDate, c.duration;
      poster, usenetDate, languages, subtitles := c.poster, c.usenetDate, c.languages, c.subtitles;
      variants := [];
    }

    function View(): Copy
      reads this
    {
      Copy(id, grabs, size, pubDate, duration, poster, usenetDate, languages, subtitles)
    }
  }

  // ---------------------------------------------------------------------------
  // The values objects hold

  ghost function Views(items: seq<Item>): seq<Copy>
    reads items
  {
    seq(|items|, i requires 0 <= i < |items| reads items => items[i].View())
  }

  ghost function ViewsOrNil(items: seq<Item?>): seq<Option<Copy>>
    reads items
  {
    seq(|items|, i requires 0 <= i < |items| reads items => if items[i] == null then None else Some(items[i].View()))
  }

  ghost function ValueOf(item: Item): Release
    reads item, item.variants
  {
    Release(item.View(), ViewsOrNil(item.variants))
  }

  ghost function VariantsIn(items: seq<Item?>): set<Item?>
    reads items
  {
    if items == [] then {}
    else
      var n := |items| - 1;
      VariantsIn(items[..n]) + if items[n] == null then {} else set v | v in items[n].variants
  }

  ghost function ValuesOf(items: seq<Item?>): seq<Option<Release>>
    reads items, VariantsIn(items)
  {
    if items == [] then []
    else
      var n := |items| - 1;
      ValuesOf(items[..n]) + [if items[n] == null then None else Some(ValueOf(items[n]))]
  }

  function NonNil(items: seq<Item?>): seq<Item> {
    if items == [] then []
    else
      var n := |items| - 1;
      NonNil(items[..n]) + if items[n] == null then [] else [items[n]]
  }

  ghost function AllCopies(items: seq<Item?>): seq<Item>
    reads items
  {
    if items == [] then []
    else
      var n := |items| - 1;
      AllCopies(items[..n]) + if items[n] == null then [] else NonNil([items[n]] + items[n].variants)
  }

  lemma {:induction false} PresentViews(items: seq<Item?>)
    ensures Present(ViewsOrNil(items)) == Views(NonNil(items))
  {
    if items != [] {
      var n := |items| - 1;
      PresentViews(items[..n]);
      assert ViewsOrNil(items)[..n] == ViewsOrNil(items[..n]);
    }
  }

  lemma NonNilOfRelease(r: Item)
    ensures CopiesOf(ValueOf(r)) == Views(NonNil([r] + r.variants))
  {
    NonNilCons(r, r.variants);
    PresentViews(r.variants);
  }

  lemma NonNilOneMore(items: seq<Item?>, last: Item?)
    ensures NonNil(items + [last]) == NonNil(items) + if last == null then [] else [last]
  {
    assert (items + [last])[..|items|] == items;
  }

  lemma {:induction false} NonNilCons(r: Item, items: seq<Item?>)
    ensures NonNil([r] + items) == [r] + NonNil(items)
  {
    if items == [] {
      NonNilOneMore([], r);
      assert [r] + items == [] + [r];
    } else {
      var n := |items| - 1;
      NonNilCons(r, items[..n]);
      NonNilOneMore([r] + items[..n], items[n]);
      assert [r] + items == [r] + items[..n] + [items[n]];
    }
  }

  lemma FlattenLast(values: seq<Option<Release>>, last: Option<Release>)
    ensures Flatten(values + [last]) == Flatten(values) + if last.None? then [] else CopiesOf(last.value)
  {
    assert (values + [last])[..|values|] == values;
  }

  lemma {:induction false} FlattenValues(items: seq<Item?>)
    ensures Flatten(ValuesOf(items)) == Views(AllCopies(items))
  {
    if items != [] {
      var n := |items| - 1;
      FlattenValues(items[..n]);
      if items[n] == null {
        FlattenLast(ValuesOf(items[..n]), None);
      } else {
        FlattenLast(ValuesOf(items[..n]), Some(ValueOf(items[n])));
        NonNilOfRelease(items[n]);
      }
    }
  }

  // ---------------------------------------------------------------------------
  // Metadata

  method HasTag(env: Env, tags: seq<string>, want: string) returns (found: bool)
    ensures found == ContainsFold(env, tags, want)
  {
    for i := 0 to |tags|
      invariant forall j :: 0 <= j < i ==> env.fold(tags[j]) != env.fold(want)
    {
      if env.fold(tags[i]) == env.fold(want) {
        return true;
      }
    }
    return false;
  }

  method UniteTags(env: Env, into: seq<string>, add: seq<string>) returns (out: seq<string>)
    ensures out == UnionFold(env, into, add)
  {
    out := into;
    for i := 0 to |add|
      invariant out == UnionFold(env, into, add[..i])
    {
      assert add[..i + 1][..i] == add[..i];
      var known := HasTag(env, out, add[i]);
      if !known {
        out := out + [add[i]];
      }
    }
    assert add[..|add|] == add;
  }

  method FillOne(env: Env, primary: Item, variant: Item)
    requires primary != variant
    modifies primary
    ensures primary.View() == Fill(env, old(primary.View()), variant.View())
    ensures primary.variants == old(primary.variants)
  {
    FillCounts(primary, variant);
    FillPost(primary, variant);
    primary.languages := UniteTags(env, primary.languages, variant.languages);
    primary.subtitles := UniteTags(env, primary.subtitles, variant.subtitles);
  }

  method FillCounts(primary: Item, variant: Item)
    requires primary != variant
    modifies primary`grabs, primary`size, primary`pubDate, primary`duration
    ensures primary.grabs == if variant.grabs > old(primary.grabs) then variant.grabs else old(primary.grabs)
    ensures primary.size == if old(primary.size) == 0 then variant.size else old(primary.size)
    ensures primary.pubDate == if old(primary.pubDate) == "" then variant.pubDate else old(primary.pubDate)
    ensures primary.duration == if old(primary.duration) == 0 then variant.duration else old(primary.duration)
  {
    if variant.grabs > primary.grabs {
      primary.grabs := variant.grabs;
    }
    if primary.size == 0 {
      primary.size := variant.size;
    }
    if primary.pubDate == "" {
      primary.pubDate := variant.pubDate;
    }
    if primary.duration == 0 {
      primary.duration := variant.duration;
    }
  }

  method FillPost(primary: Item, variant: Item)
    requires primary != variant
    modifies primary`poster, primary`usenetDate
    ensures var p, v := old(primary.View()), variant.View();
            var from := if !Complete(p) && Complete(v) then v else p;
            primary.poster == from.poster && primary.usenetDate == from.usenetDate
  {
    if primary.poster == "" || primary.usenetDate == "" {
      if variant.poster != "" && variant.usenetDate != "" {
        primary.poster := variant.poster;
        primary.usenetDate := variant.usenetDate;
      }
    }
  }

  method MergeCopyMetadata(env: Env, primary: Item?, variants: seq<Item?>)
    requires primary !in variants || primary == null
    modifies primary
    ensures primary != null ==>
              && primary.View() == FillAll(env, old(primary.View()), Present(old(ViewsOrNil(variants))))
              && primary.variants == old(primary.variants)
  {
    if primary == null {
      return;
    }
    ghost var given := ViewsOrNil(variants);
    ghost var was := primary.View();
    for i := 0 to |variants|
      invariant primary.View() == FillAll(env, was, Present(given[..i]))
      invariant primary.variants == old(primary.variants)
      invariant ViewsOrNil(variants) == given
    {
      FillPrefix(env, was, given, i);
      if variants[i] != null {
        assert Some(variants[i].View()) == ViewsOrNil(variants)[i];
        FillOne(env, primary, variants[i]);
      }
    }
    assert given[..|variants|] == given;
  }

  lemma FillPrefix(env: Env, p: Copy, given: seq<Option<Copy>>, i: nat)
    requires i < |given|
    ensures var before := FillAll(env, p, Present(given[..i]));
            FillAll(env, p, Present(given[..i + 1])) ==
            match given[i] case None => before case Some(c) => Fill(env, before, c)
  {
    assert given[..i + 1][..i] == given[..i];
    if given[i].Some? {
      var before := Present(given[..i]);
      assert (before + [given[i].value])[..|before|] == before;
    } else {
      assert Present(given[..i + 1]) == Present(given[..i]);
    }
  }

  // ---------------------------------------------------------------------------
  // Grouping

  // One call of the grouping's visitor.
  datatype Visit = Visit(group: nat, item: Item)

  method FirstIndexed(index: map<Key, nat>, keys: seq<Key>) returns (existing: int)
    ensures existing == match FindGroup(index, keys) case None => -1 case Some(g) => g
  {
    existing := -1;
    for i := 0 to |keys|
      invariant existing == -1
      invariant FindGroup(index, keys) == FindGroup(index, keys[i..])
    {
      if keys[i] in index {
        return index[keys[i]];
      }
    }
  }

  method PointAll(index: map<Key, nat>, keys: seq<Key>, g: nat) returns (pointed: map<Key, nat>)
    ensures pointed == SetAll(index, keys, g)
  {
    pointed := index;
    for i := 0 to |keys|
      invariant pointed.Keys == index.Keys + set k | k in keys[..i]
      invariant forall k :: k in pointed ==> pointed[k] == if k in keys[..i] then g else index[k]
    {
      pointed := pointed[keys[i] := g];
    }
    assert keys[..|keys|] == keys;
  }

  // Every visit so far names the group its copy goes to.
  ghost predicate Booked(groups: seq<nat>, copies: seq<Copy>) {
    |groups| == |copies| && forall k :: 0 <= k < |groups| ==> groups[k] == GroupAt(copies, k)
  }

  lemma {:induction false} BookedOneMore(groups: seq<nat>, copies: seq<Copy>, c: Copy)
    requires Booked(groups, copies)
    ensures Booked(groups + [Target(Grouped(copies), c)], copies + [c])
  {
    var groups', copies' := groups + [Target(Grouped(copies), c)], copies + [c];
    forall k | 0 <= k < |groups'| ensures groups'[k] == Target(Grouped(copies'[..k]), copies'[k]) {
      assert copies'[..k] == copies[..k];
      if k == |groups| {
        assert copies[..k] == copies;
      }
    }
  }

  // Where one copy goes, given what the index and the counter say.
  method PlaceCopy(index: map<Key, nat>, count: nat, c: Copy, ghost p: Partition)
      returns (g: nat, index': map<Key, nat>, count': nat)
    requires Indexed(p) && index == p.index && count == |p.groups|
    ensures g == Target(p, c) && index' == Add(p, c).index && count' == |Add(p, c).groups|
  {
    var existing := FirstIndexed(index, Keys(c));
    count' := count;
    TargetShares(p, c);
    FoundBySomeKey(p.index, Keys(c));
    if existing < 0 {
      existing := count;
      count' := count + 1;
    }
    g := existing;
    index' := PointAll(index, Keys(c), g);
    assert |PutIn(p.groups, g, c)| == count';
  }

  ghost function GroupsOf(visits: seq<Visit>): seq<nat> {
    seq(|visits|, i requires 0 <= i < |visits| => visits[i].group)
  }

  ghost function ItemsOf(visits: seq<Visit>): seq<Item> {
    seq(|visits|, i requires 0 <= i < |visits| => visits[i].item)
  }

  // The grouping has visited `seen`.
  ghost predicate Visited(visits: seq<Visit>, index: map<Key, nat>, count: nat, seen: seq<Item>)
    reads seen
  {
    && ItemsOf(visits) == seen
    && Booked(GroupsOf(visits), Views(seen))
    && index == Grouped(Views(seen)).index
    && count == |Grouped(Views(seen)).groups|
  }

  lemma {:induction false} VisitedAll(visits: seq<Visit>, index: map<Key, nat>, count: nat, releases: seq<Item?>)
    requires Visited(visits, index, count, AllCopies(releases))
    ensures ItemsOf(visits) == AllCopies(releases)
    ensures Booked(GroupsOf(visits), Views(AllCopies(releases)))
    ensures count == DistinctReleaseCount(ValuesOf(releases))
  {
    FlattenValues(releases);
  }

  // Every copy of the first `i` releases, in order.
  ghost predicate UpTo(releases: seq<Item?>, i: nat, seen: seq<Item>)
    requires i <= |releases|
    reads releases
  {
    seen == AllCopies(releases[..i])
  }

  method GroupSameRelease(releases: seq<Item?>) returns (visits: seq<Visit>, count: nat)
    ensures ItemsOf(visits) == AllCopies(releases)
    ensures Booked(GroupsOf(visits), Views(AllCopies(releases)))
    ensures count == DistinctReleaseCount(ValuesOf(releases))
  {
    var index: map<Key, nat> := map[];
    visits, count := [], 0;
    ghost var seen: seq<Item> := [];
    for i := 0 to |releases|
      invariant UpTo(releases, i, seen) && Visited(visits, index, count, seen)
    {
      UpToNext(releases, i, seen);
      if releases[i] != null {
        var copies := [releases[i]] + releases[i].variants;
        visits, index, count := VisitCopies(visits, index, count, copies, seen);
        seen := seen + NonNil(copies);
      }
    }
    assert releases[..|releases|] == releases;
    VisitedAll(visits, index, count, releases);
  }

  lemma UpToNext(releases: seq<Item?>, i: nat, seen: seq<Item>)
    requires i < |releases| && UpTo(releases, i, seen)
    ensures releases[i] == null ==> UpTo(releases, i + 1, seen)
    ensures releases[i] != null ==> UpTo(releases, i + 1, seen + NonNil([releases[i]] + releases[i].variants))
  {
    assert releases[..i + 1][..i] == releases[..i];
  }

  lemma NonNilPrefix(copies: seq<Item?>, j: nat)
    requires j < |copies|
    ensures copies[j] == null ==> NonNil(copies[..j + 1]) == NonNil(copies[..j])
    ensures copies[j] != null ==> NonNil(copies[..j + 1]) == NonNil(copies[..j]) + [copies[j]]
  {
    assert copies[..j + 1][..j] == copies[..j];
  }

  // `before`, then the first `j` of these copies.
  ghost predicate Gathered(before: seq<Item>, copies: seq<Item?>, j: nat, seen: seq<Item>)
    requires j <= |copies|
  {
    seen == before + NonNil(copies[..j])
  }

  lemma GatheredNext(before: seq<Item>, copies: seq<Item?>, j: nat, seen: seq<Item>)
    requires j < |copies| && Gathered(before, copies, j, seen)
    ensures copies[j] == null ==> Gathered(before, copies, j + 1, seen)
    ensures copies[j] != null ==> Gathered(before, copies, j + 1, seen + [copies[j]])
  {
    NonNilPrefix(copies, j);
  }

  lemma {:induction false} GatheredEnds(before: seq<Item>, copies: seq<Item?>)
    ensures Gathered(before, copies, 0, before)
    ensures Gathered(before, copies, |copies|, before + NonNil(copies))
  {
    assert copies[..|copies|] == copies;
  }

  method VisitCopies(visits0: seq<Visit>, index0: map<Key, nat>, count0: nat, copies: seq<Item?>,
                     ghost before: seq<Item>)
      returns (visits: seq<Visit>, index: map<Key, nat>, count: nat)
    requires Visited(visits0, index0, count0, before)
    ensures Visited(visits, index, count, before + NonNil(copies))
  {
    visits, index, count := visits0, index0, count0;
    ghost var seen: seq<Item> := before;
    GatheredEnds(before, copies);
    for j := 0 to |copies|
      invariant Gathered(before, copies, j, seen) && Visited(visits, index, count, seen)
    {
      GatheredNext(before, copies, j, seen);
      if copies[j] != null {
        visits, index, count := VisitCopy(visits, index, count, copies[j], seen);
        seen := seen + [copies[j]];
      }
    }
  }

  lemma VisitsOneMore(visits: seq<Visit>, v: Visit)
    ensures GroupsOf(visits + [v]) == GroupsOf(visits) + [v.group]
    ensures ItemsOf(visits + [v]) == ItemsOf(visits) + [v.item]
  {
  }

  lemma ViewsOneMore(items: seq<Item>, c: Item)
    ensures Views(items + [c]) == Views(items) + [c.View()]
  {
  }

  lemma {:induction false} VisitedOneMore(visits: seq<Visit>, seen: seq<Item>, c: Item, index': map<Key, nat>,
                                          count': nat)
    requires ItemsOf(visits) == seen && Booked(GroupsOf(visits), Views(seen))
    requires var p := Add(Grouped(Views(seen)), c.View()); index' == p.index && count' == |p.groups|
    ensures Visited(visits + [Visit(Target(Grouped(Views(seen)), c.View()), c)], index', count', seen + [c])
  {
    VisitsOneMore(visits, Visit(Target(Grouped(Views(seen)), c.View()), c));
    ViewsOneMore(seen, c);
    BookedOneMore(GroupsOf(visits), Views(seen), c.View());
    GroupedOneMore(Views(seen), c.View());
  }

  method VisitCopy(visits: seq<Visit>, index: map<Key, nat>, count: nat, c: Item, ghost seen: seq<Item>)
      returns (visits': seq<Visit>, index': map<Key, nat>, count': nat)
    requires Visited(visits, index, count, seen)
    ensures Visited(visits', index', count', seen + [c])
  {
    AlwaysIndexed(Views(seen));
    ghost var p := Grouped(Views(seen));
    var g;
    g, index', count' := PlaceCopy(index, count, c.View(), p);
    visits' := visits + [Visit(g, c)];
    assert p == Grouped(Views(seen));
    VisitedOneMore(visits, seen, c, index', count');
  }

  method CountDistinctReleases(releases: seq<Item?>) returns (count: nat)
    ensures count == DistinctReleaseCount(ValuesOf(releases))
  {
    var visits;
    visits, count := GroupSameRelease(releases);
  }

  // ---------------------------------------------------------------------------
  // Ranking

  method Precedes(env: Env, a: Item, b: Item, atA: nat, atB: nat) returns (before: bool)
    ensures before == Before(env, Entry(a.View(), atA), Entry(b.View(), atB))
  {
    var ra, rb := env.rank(a.View()), env.rank(b.View());
    if ra != rb {
      return ra > rb;
    }
    if a.grabs != b.grabs {
      return a.grabs > b.grabs;
    }
    var da, db := env.parseDate(a.pubDate), env.parseDate(b.pubDate);
    if da.Some? && db.Some? && da.value != db.value {
      return da.value > db.value;
    }
    if da.Some? != db.Some? {
      return da.Some?;
    }
    return atA < atB;
  }

  ghost predicate AllDistinct(items: seq<Item>) {
    forall i, j :: 0 <= i < j < |items| ==> items[i] != items[j]
  }

  ghost function EntriesOf(items: seq<Item>, order: map<Item, nat>): seq<Entry>
    requires forall x :: x in items ==> x in order
    reads items
  {
    seq(|items|, i requires 0 <= i < |items| reads items => Entry(items[i].View(), order[items[i]]))
  }

  // Where the scan from the back stops is where insertion puts the entry.
  lemma {:induction false} InsertAt(env: Env, sorted: seq<Entry>, e: Entry, k: nat)
    requires k <= |sorted|
    requires forall j :: k <= j < |sorted| ==> !Before(env, sorted[j], e)
    requires k > 0 ==> Before(env, sorted[k - 1], e)
    ensures Insert(env, sorted, e) == sorted[..k] + [e] + sorted[k..]
  {
    if k < |sorted| {
      var n := |sorted| - 1;
      InsertAt(env, sorted[..n], e, k);
      assert sorted[..n][..k] + [e] + sorted[..n][k..] + [sorted[n]] == sorted[..k] + [e] + sorted[k..];
    } else {
      assert sorted[..k] == sorted && sorted[k..] == [];
    }
  }

  // How many of the ordered items stay in front of `x`.
  method FindPlace(env: Env, ordered: seq<Item>, x: Item, order: map<Item, nat>) returns (k: nat)
    requires x in order && forall y :: y in ordered ==> y in order
    ensures k <= |ordered|
    ensures var entries, e := EntriesOf(ordered, order), Entry(x.View(), order[x]);
            && (forall j :: k <= j < |entries| ==> !Before(env, entries[j], e))
            && (k > 0 ==> Before(env, entries[k - 1], e))
  {
    k := |ordered|;
    ghost var entries := EntriesOf(ordered, order);
    while k > 0
      invariant k <= |ordered|
      invariant forall j :: k <= j < |entries| ==> !Before(env, entries[j], Entry(x.View(), order[x]))
    {
      var before := Precedes(env, ordered[k - 1], x, order[ordered[k - 1]], order[x]);
      if before {
        return;
      }
      k := k - 1;
    }
  }

  lemma EntriesInserted(ordered: seq<Item>, k: nat, x: Item, order: map<Item, nat>)
    requires k <= |ordered| && x in order && forall y :: y in ordered ==> y in order
    ensures var ordered' := ordered[..k] + [x] + ordered[k..];
            && (forall y :: y in ordered' ==> y in order)
            && EntriesOf(ordered', order)
               == EntriesOf(ordered, order)[..k] + [Entry(x.View(), order[x])] + EntriesOf(ordered, order)[k..]
  {
  }

  method InsertItem(env: Env, ordered: seq<Item>, x: Item, order: map<Item, nat>) returns (ordered': seq<Item>)
    requires x in order && forall y :: y in ordered ==> y in order
    ensures multiset(ordered') == multiset(ordered) + multiset{x}
    ensures forall y :: y in ordered' ==> y in order
    ensures EntriesOf(ordered', order) == Insert(env, EntriesOf(ordered, order), Entry(x.View(), order[x]))
  {
    var k := FindPlace(env, ordered, x, order);
    ordered' := ordered[..k] + [x] + ordered[k..];
    InsertAt(env, EntriesOf(ordered, order), Entry(x.View(), order[x]), k);
    EntriesInserted(ordered, k, x, order);
    assert ordered == ordered[..k] + ordered[k..];
  }

  // The places of distinct items.
  method Places(group: seq<Item>) returns (order: map<Item, nat>)
    requires AllDistinct(group)
    ensures forall i :: 0 <= i < |group| ==> group[i] in order && order[group[i]] == i
  {
    order := map[];
    for i := 0 to |group|
      invariant forall j :: 0 <= j < i ==> group[j] in order && order[group[j]] == j
    {
      order := order[group[i] := i];
    }
  }

  // The first `i` items of the group, in order.
  ghost predicate SortedUpTo(env: Env, group: seq<Item>, i: nat, ordered: seq<Item>, order: map<Item, nat>)
    requires i <= |group|
    reads group, ordered
  {
    && multiset(ordered) == multiset(group[..i])
    && (forall y :: y in ordered ==> y in order)
    && EntriesOf(ordered, order) == Sort(env, Entries(Views(group))[..i])
  }

  lemma SortedNext(env: Env, group: seq<Item>, i: nat, ordered: seq<Item>, order: map<Item, nat>, ordered': seq<Item>)
    requires i < |group| && SortedUpTo(env, group, i, ordered, order)
    requires group[i] in order && order[group[i]] == i
    requires multiset(ordered') == multiset(ordered) + multiset{group[i]}
    requires forall y :: y in ordered' ==> y in order
    requires EntriesOf(ordered', order) == Insert(env, EntriesOf(ordered, order), Entry(group[i].View(), i))
    ensures SortedUpTo(env, group, i + 1, ordered', order)
  {
    var entries := Entries(Views(group));
    assert entries[..i + 1][..i] == entries[..i];
    assert group[..i + 1] == group[..i] + [group[i]];
  }

  lemma SortedAll(env: Env, group: seq<Item>, ordered: seq<Item>, order: map<Item, nat>)
    requires SortedUpTo(env, group, |group|, ordered, order)
    ensures multiset(ordered) == multiset(group) && Views(ordered) == Ranked(env, Views(group))
  {
    assert Entries(Views(group))[..|group|] == Entries(Views(group)) && group[..|group|] == group;
    assert CopiesIn(EntriesOf(ordered, order)) == Views(ordered);
  }

  method SortCopies(env: Env, group: seq<Item>) returns (ordered: seq<Item>)
    requires AllDistinct(group)
    ensures multiset(ordered) == multiset(group)
    ensures Views(ordered) == Ranked(env, Views(group))
    ensures exists places :: RankedFrom(env, Views(group), Views(ordered), places)
  {
    var order := Places(group);
    ordered := [];
    for i := 0 to |group|
      invariant SortedUpTo(env, group, i, ordered, order)
    {
      var ordered' := InsertItem(env, ordered, group[i], order);
      SortedNext(env, group, i, ordered, order, ordered');
      ordered := ordered';
    }
    SortedAll(env, group, ordered, order);
    ghost var places := RankedIsBestFirst(env, Views(group));
  }

  // ---------------------------------------------------------------------------
  // Merging

  lemma PermutationIsDistinct(a: seq<Item>, b: seq<Item>)
    requires multiset(a) == multiset(b) && AllDistinct(a)
    ensures AllDistinct(b) && |a| == |b| && forall x :: x in b <==> x in a
  {
    assert |multiset(a)| == |multiset(b)|;
    forall x ensures x in b <==> x in a {
      assert x in multiset(b) <==> x in multiset(a);
    }
    forall i, j | 0 <= i < j < |b| ensures b[i] != b[j] {
      if b[i] == b[j] {
        OccursTwice(b, i, j);
        OccursOnce(a, b[i]);
      }
    }
  }

  lemma OccursTwice(b: seq<Item>, i: nat, j: nat)
    requires i < j < |b| && b[i] == b[j]
    ensures multiset(b)[b[i]] >= 2
  {
    assert b == b[..j] + [b[j]] + b[j + 1..];
    assert b[..j][i] == b[i] && b[i] in multiset(b[..j]);
  }

  lemma {:induction false} OccursOnce(a: seq<Item>, x: Item)
    requires AllDistinct(a)
    ensures multiset(a)[x] <= 1
  {
    if a != [] {
      var n := |a| - 1;
      OccursOnce(a[..n], x);
      assert a == a[..n] + [a[n]];
      if a[n] == x {
        assert x !in a[..n];
      }
    }
  }

  lemma ViewsOfAll(items: seq<Item>)
    ensures ViewsOrNil(items) == AllPresent(Views(items))
  {
  }

  /** The best copy gets the rest as its variants, and what it lacks from them. */
  method HangVariants(env: Env, ordered: seq<Item>)
    requires AllDistinct(ordered) && ordered != []
    modifies ordered[0]
    ensures ordered[0].variants == ordered[1..]
    ensures var ranked := old(Views(ordered));
            ValueOf(ordered[0]) == Release(FillAll(env, ranked[0], ranked[1..]), AllPresent(ranked[1..]))
  {
    ghost var ranked := Views(ordered);
    var primary := ordered[0];
    primary.variants := ordered[1..];
    assert Views(ordered[1..]) == ranked[1..];
    ViewsOfAll(ordered[1..]);
    PresentOfAll(ranked[1..]);
    MergeCopyMetadata(env, primary, ordered[1..]);
    assert Views(ordered[1..]) == ranked[1..];
    ViewsOfAll(ordered[1..]);
  }

  method MergeGroup(env: Env, group: seq<Item>) returns (merged: Item?)
    requires AllDistinct(group)
    modifies group
    ensures group == [] ==> merged == null
    ensures group != [] ==>
              && merged != null && merged in group && (forall v :: v in merged.variants ==> v in group)
              && ValueOf(merged) == MergedGroup(env, old(Views(group)))
  {
    if group == [] {
      return null;
    }
    var ordered := SortCopies(env, group);
    PermutationIsDistinct(group, ordered);
    assert ordered[0] in group;
    HangVariants(env, ordered);
    merged := ordered[0];
  }

  // No object is in two places.
  ghost predicate Separate(groups: seq<seq<Item>>) {
    && (forall g :: 0 <= g < |groups| ==> AllDistinct(groups[g]))
    && (forall g, h, x :: 0 <= g < h < |groups| && x in groups[g] ==> x !in groups[h])
  }

  ghost predicate AllIn(groups: seq<seq<Item>>, objects: set<Item>) {
    forall g, x :: 0 <= g < |groups| && x in groups[g] ==> x in objects
  }

  // The groups of objects hold these groups of copies.
  ghost predicate Hold(groups: seq<seq<Item>>, values: seq<seq<Copy>>, objects: set<Item>)
    requires AllIn(groups, objects)
    reads objects
  {
    |groups| == |values| && forall g :: 0 <= g < |groups| ==> Views(groups[g]) == values[g]
  }

  function Joined(groups: seq<seq<Item>>, g: nat, x: Item): seq<seq<Item>> {
    if g < |groups| then groups[g := groups[g] + [x]] else groups + [[x]]
  }

  lemma JoinedHolds(groups: seq<seq<Item>>, values: seq<seq<Copy>>, g: nat, x: Item, objects: set<Item>)
    requires AllIn(groups, objects) && Hold(groups, values, objects) && AllIn(Joined(groups, g, x), objects + {x})
    ensures Hold(Joined(groups, g, x), PutIn(values, g, x.View()), objects + {x})
  {
    if g < |groups| {
      assert Views(groups[g] + [x]) == values[g] + [x.View()];
    } else {
      assert Views([x]) == [x.View()];
    }
  }

  lemma {:induction false} NextVisit(groups: seq<nat>, copies: seq<Copy>, i: nat)
    requires Booked(groups, copies) && i < |copies|
    ensures Groups(copies[..i + 1]) == PutIn(Groups(copies[..i]), groups[i], copies[i])
  {
    TakeOneMore(copies, i);
    GroupsOneMore(copies[..i], copies[i]);
  }

  // How the groups grow, visit by visit.
  ghost predicate Stages(visits: seq<Visit>, copies: seq<Copy>, stages: seq<seq<seq<Copy>>>)
    requires |visits| == |copies|
  {
    && |stages| == |copies| + 1
    && stages[0] == []
    && forall i :: 0 <= i < |copies| ==> stages[i + 1] == PutIn(stages[i], visits[i].group, copies[i])
  }

  lemma {:induction false} BookedInStages(visits: seq<Visit>, copies: seq<Copy>) returns (stages: seq<seq<seq<Copy>>>)
    requires Booked(GroupsOf(visits), copies)
    ensures Stages(visits, copies, stages) && stages[|copies|] == Groups(copies)
  {
    stages := seq(|copies| + 1, i requires 0 <= i <= |copies| => Groups(copies[..i]));
    forall i | 0 <= i < |copies| ensures stages[i + 1] == PutIn(stages[i], visits[i].group, copies[i]) {
      NextVisit(GroupsOf(visits), copies, i);
    }
    assert copies[..|copies|] == copies;
  }

  method CloneInto(groups: seq<seq<Item>>, g: nat, copy: Item, ghost values: seq<seq<Copy>>, ghost objects: set<Item>)
      returns (groups': seq<seq<Item>>, clone: Item)
    requires Separate(groups) && AllIn(groups, objects) && Hold(groups, values, objects)
    ensures fresh(clone) && Separate(groups') && AllIn(groups', objects + {clone})
    ensures Hold(groups', PutIn(values, g, copy.View()), objects + {clone})
  {
    clone := new Item(copy.View());
    assert forall h :: 0 <= h < |groups| ==> Views(groups[h]) == old(Views(groups[h]));
    JoinedHolds(groups, values, g, clone, objects);
    groups' := Joined(groups, g, clone);
  }

  // The visited items hold these copies.
  ghost predicate Shown(visits: seq<Visit>, copies: seq<Copy>)
    reads ItemsOf(visits)
  {
    && |visits| == |copies|
    && forall i, x :: 0 <= i < |visits| && x == ItemsOf(visits)[i] ==> x.View() == copies[i]
  }

  method CloneIntoGroups(visits: seq<Visit>, ghost copies: seq<Copy>, ghost stages: seq<seq<seq<Copy>>>)
      returns (groups: seq<seq<Item>>, ghost objects: set<Item>)
    requires Shown(visits, copies) && Stages(visits, copies, stages)
    ensures fresh(objects) && Separate(groups) && AllIn(groups, objects)
    ensures Hold(groups, stages[|copies|], objects)
  {
    groups, objects := [], {};
    for i := 0 to |visits|
      invariant fresh(objects) && Separate(groups) && AllIn(groups, objects)
      invariant Hold(groups, stages[i], objects)
      invariant Shown(visits, copies)
    {
      assert ItemsOf(visits)[i].View() == copies[i];
      var clone;
      groups, clone := CloneInto(groups, visits[i].group, visits[i].item, stages[i], objects);
      objects := objects + {clone};
    }
  }

  // A release made of objects of one group.
  ghost predicate MadeOf(r: Item, group: seq<Item>)
    reads r
  {
    r in group && forall v :: v in r.variants ==> v in group
  }

  lemma ViewsAre(group: seq<Item>, values: seq<Copy>)
    requires |group| == |values| && forall i :: 0 <= i < |group| ==> group[i].View() == values[i]
    ensures Views(group) == values
  {
  }

  // The release `r` holds the value `m`, object by object.
  ghost predicate Holds(r: Item, m: Release, group: seq<Item>)
    reads r, group
  {
    && MadeOf(r, group)
    && r.View() == m.primary && |r.variants| == |m.variants|
    && forall i, x :: 0 <= i < |m.variants| && x in group && r.variants[i] == x ==> m.variants[i] == Some(x.View())
  }

  lemma HoldsIsValue(r: Item, m: Release, group: seq<Item>)
    requires MadeOf(r, group)
    ensures Holds(r, m, group) <==> ValueOf(r) == m
  {
    if ValueOf(r) == m {
      forall i, x | 0 <= i < |m.variants| && x in group && r.variants[i] == x ensures m.variants[i] == Some(x.View()) {
        assert ViewsOrNil(r.variants)[i] == Some(x.View());
      }
    }
    if Holds(r, m, group) {
      forall i | 0 <= i < |r.variants| ensures ViewsOrNil(r.variants)[i] == m.variants[i] {
        assert r.variants[i] in r.variants;
      }
      assert ViewsOrNil(r.variants) == m.variants;
    }
  }

  ghost predicate Waiting(group: seq<Item>, value: seq<Copy>)
    reads group
  {
    |group| == |value| && forall i, x :: 0 <= i < |group| && x == group[i] ==> x.View() == value[i]
  }

  ghost predicate MergedUpTo(env: Env, groups: seq<seq<Item>>, values: seq<seq<Copy>>, objects: set<Item>,
                             out: seq<Item>)
    requires AllIn(groups, objects) && NonEmpty(values) && |groups| == |values|
    reads objects
  {
    && |out| <= |groups|
    && (forall k :: 0 <= k < |out| ==> out[k] in groups[k] && Holds(out[k], MergedGroup(env, values[k]), groups[k]))
    && (forall k :: |out| <= k < |groups| ==> Waiting(groups[k], values[k]))
  }

  // Merging one group leaves what the other groups hold, and what was merged from them.
  method MergeNextGroup(env: Env, groups: seq<seq<Item>>, ghost values: seq<seq<Copy>>, ghost objects: set<Item>,
                        out: seq<Item>)
      returns (out': seq<Item>)
    requires Separate(groups) && AllIn(groups, objects) && NonEmpty(values) && |groups| == |values|
    requires |out| < |groups| && MergedUpTo(env, groups, values, objects, out)
    modifies groups[|out|]
    ensures |out'| == |out| + 1 && MergedUpTo(env, groups, values, objects, out')
  {
    var g := |out|;
    assert values[g] != [] && Waiting(groups[g], values[g]);
    ViewsAre(groups[g], values[g]);
    var merged := MergeGroup(env, groups[g]);
    HoldsIsValue(merged, MergedGroup(env, values[g]), groups[g]);
    out' := out + [merged];
    forall k | 0 <= k < g ensures Holds(out[k], MergedGroup(env, values[k]), groups[k]) {
      assert forall x :: x in groups[k] ==> x !in groups[g];
    }
    forall k | g < k < |groups| ensures Waiting(groups[k], values[k]) {
      assert forall x :: x in groups[k] ==> x !in groups[g];
      assert forall x :: x in groups[k] ==> x.View() == old(x.View());
      assert old(Waiting(groups[k], values[k]));
    }
  }

  method MergeEachGroup(env: Env, groups: seq<seq<Item>>, ghost values: seq<seq<Copy>>, ghost objects: set<Item>)
      returns (out: seq<Item>)
    requires Separate(groups) && AllIn(groups, objects) && Hold(groups, values, objects) && NonEmpty(values)
    modifies objects
    ensures |out| == |groups| && MergedUpTo(env, groups, values, objects, out)
  {
    out := [];
    forall k | 0 <= k < |groups| ensures Waiting(groups[k], values[k]) {
      assert Views(groups[k]) == values[k];
    }
    while |out| < |groups|
      invariant MergedUpTo(env, groups, values, objects, out)
      decreases |groups| - |out|
    {
      out := MergeNextGroup(env, groups, values, objects, out);
    }
  }

  lemma MergedIsEach(env: Env, releases: seq<Option<Release>>)
    ensures var groups := Groups(Flatten(releases));
            && NonEmpty(groups) && |Merge(env, releases)| == |groups|
            && forall k :: 0 <= k < |groups| ==> Merge(env, releases)[k] == MergedGroup(env, groups[k])
  {
    AlwaysIndexed(Flatten(releases));
  }

  // A listing none of whose objects changed holds what it held.
  twostate lemma {:induction false} SameListing(releases: seq<Item?>)
    requires forall r: Item :: r in releases ==> r.View() == old(r.View()) && r.variants == old(r.variants)
    requires forall r: Item, v: Item :: r in releases && v in r.variants ==> v.View() == old(v.View())
    ensures ValuesOf(releases) == old(ValuesOf(releases))
  {
    if releases != [] {
      var n := |releases| - 1;
      SameListing(releases[..n]);
      if releases[n] != null {
        assert releases[n] in releases;
        SameVariants(releases[n].variants);
      }
    }
  }

  twostate lemma SameVariants(variants: seq<Item?>)
    requires forall v: Item :: v in variants ==> v.View() == old(v.View())
    ensures ViewsOrNil(variants) == old(ViewsOrNil(variants))
  {
    forall i | 0 <= i < |variants| ensures ViewsOrNil(variants)[i] == old(ViewsOrNil(variants))[i] {
      assert variants[i] in variants;
    }
  }

  lemma OutIsMerged(env: Env, groups: seq<seq<Item>>, listing: seq<Option<Release>>, objects: set<Item>, out: seq<Item>)
    requires AllIn(groups, objects) && NonEmpty(Groups(Flatten(listing))) && |groups| == |Groups(Flatten(listing))|
    requires |out| == |groups| && MergedUpTo(env, groups, Groups(Flatten(listing)), objects, out)
    ensures |out| == |Merge(env, listing)|
    ensures forall k :: 0 <= k < |out| ==>
              out[k] in objects && (forall v :: v in out[k].variants ==> v in objects)
              && ValueOf(out[k]) == Merge(env, listing)[k]
  {
    MergedIsEach(env, listing);
    forall k | 0 <= k < |out|
      ensures out[k] in objects && (forall v :: v in out[k].variants ==> v in objects)
      ensures ValueOf(out[k]) == Merge(env, listing)[k]
    {
      HoldsIsValue(out[k], MergedGroup(env, Groups(Flatten(listing))[k]), groups[k]);
    }
  }

  method MergeSameReleaseVariants(env: Env, releases: seq<Item?>) returns (out: seq<Item>)
    ensures |out| == |Merge(env, old(ValuesOf(releases)))|
    ensures forall k :: 0 <= k < |out| ==>
              && fresh(out[k]) && (forall v :: v in out[k].variants ==> fresh(v))
              && ValueOf(out[k]) == Merge(env, old(ValuesOf(releases)))[k]
    ensures forall k: nat :: k < |out| ==> KeepsBestFirst(env, Flatten(old(ValuesOf(releases))), k, ValueOf(out[k]))
  {
    var visits, _ := GroupSameRelease(releases);
    ghost var listing, copies := ValuesOf(releases), Views(ItemsOf(visits));
    SameListing(releases);
    FlattenValues(releases);
    MergedIsEach(env, listing);
    ghost var stages := BookedInStages(visits, copies);
    var groups, objects := CloneIntoGroups(visits, copies, stages);
    out := MergeEachGroup(env, groups, Groups(copies), objects);
    OutIsMerged(env, groups, listing, objects, out);
    forall k: nat | k < |out| ensures KeepsBestFirst(env, Flatten(listing), k, Merge(env, listing)[k]) {
      MergeKeepsTheBestFirst(env, listing, k);
    }
  }

  // ---------------------------------------------------------------------------
  // Dropping

  // What is kept of the first `i` copies, and whether any was not.
  ghost predicate KeptUpTo(copies: seq<Item?>, i: nat, drop: set<string>, kept: seq<Item>, removed: bool)
    requires i <= |copies|
    reads NonNil(copies[..i]), kept
  {
    && Views(kept) == Kept(Views(NonNil(copies[..i])), drop)
    && |kept| <= |NonNil(copies[..i])| && (removed <==> |kept| != |NonNil(copies[..i])|)
  }

  lemma KeptNext(copies: seq<Item?>, i: nat, drop: set<string>, kept: seq<Item>, removed: bool)
    requires i < |copies| && KeptUpTo(copies, i, drop, kept, removed)
    ensures copies[i] == null ==> KeptUpTo(copies, i + 1, drop, kept, removed)
    ensures copies[i] != null && Broken(copies[i].View(), drop) ==> KeptUpTo(copies, i + 1, drop, kept, true)
    ensures copies[i] != null && !Broken(copies[i].View(), drop) ==>
              KeptUpTo(copies, i + 1, drop, kept + [copies[i]], removed)
  {
    NonNilPrefix(copies, i);
    if copies[i] != null {
      ViewsOneMore(NonNil(copies[..i]), copies[i]);
      ViewsOneMore(kept, copies[i]);
      KeptOneMore(Views(NonNil(copies[..i])), copies[i].View(), drop);
    }
  }

  method KeepUsable(copies: seq<Item?>, drop: set<string>) returns (kept: seq<Item>, removed: bool)
    ensures Views(kept) == Kept(Views(NonNil(copies)), drop)
    ensures removed <==> |kept| != |NonNil(copies)|
    ensures forall x :: x in kept ==> x in copies
  {
    kept, removed := [], false;
    for i := 0 to |copies|
      invariant KeptUpTo(copies, i, drop, kept, removed)
      invariant forall x :: x in kept ==> x in copies
    {
      KeptNext(copies, i, drop, kept, removed);
      if copies[i] != null {
        if copies[i].id.detailsUrl != "" && copies[i].id.detailsUrl in drop {
          removed := true;
        } else {
          kept := kept + [copies[i]];
        }
      }
    }
    assert copies[..|copies|] == copies;
  }

  ghost function ValueOrNil(item: Item?): Option<Release>
    reads item, if item == null then [] else item.variants
  {
    if item == null then None else Some(ValueOf(item))
  }

  // Promoting the first of the copies that are left.
  method Promote(kept: seq<Item>) returns (left: Item)
    requires kept != []
    modifies kept[0]
    ensures left == kept[0] && ValueOf(left) == old(Release(kept[0].View(), AllPresent(Views(kept)[1..])))
  {
    ghost var values := Views(kept);
    left := kept[0];
    left.variants := kept[1..];
    assert Views(kept[1..]) == values[1..];
    ViewsOfAll(kept[1..]);
  }

  method DropCopies(release: Item?, drop: set<string>) returns (left: Item?, removed: bool)
    modifies if release == null then {} else {release} + set v | v in release.variants
    ensures (ValueOrNil(left), removed) == old(Dropped(ValueOrNil(release), drop))
  {
    if release == null {
      return null, false;
    }
    var copies := [release] + release.variants;
    var kept;
    kept, removed := KeepUsable(copies, drop);
    NonNilOfRelease(release);
    assert forall v :: v in release.variants && v != null ==> v.View() == old(v.View());
    assert ViewsOrNil(release.variants) == old(ViewsOrNil(release.variants));
    assert |Views(kept)| == |kept| && |Views(NonNil(copies))| == |NonNil(copies)|;
    ghost var r := ValueOf(release);
    assert CopiesOf(r) == Views(NonNil(copies));
    assert Views(kept) == Kept(CopiesOf(r), drop);
    if !removed {
      return release, false;
    }
    if |kept| == 0 {
      return null, true;
    }
    assert kept[0] in copies;
    left := Promote(kept);
  }
}
