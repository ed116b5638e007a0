/** Searching every indexer at once, and what the order of their replies can change. */
module FanOutSearch {
  import opened Basics

  // One search result. `normTitle` and `normLink` are the title and the link after
  // normalisation, which happens elsewhere.
  datatype Item = Item(guid: string, link: string, normLink: string, normTitle: string, size: int, details: string)

  datatype Reply = Failed | Found(items: seq<Item>)

  function ItemsOf(r: Reply): seq<Item> {
    match r case Failed => [] case Found(items) => items
  }

  // Every indexer replies once.
  ghost predicate Arrivals(arrivals: seq<nat>, n: nat) {
    && |arrivals| == n
    && (forall k :: 0 <= k < n ==> arrivals[k] < n)
    && (forall j, k :: 0 <= j < k < n ==> arrivals[j] != arrivals[k])
    && (forall i :: 0 <= i < n ==> i in arrivals)
  }

  // ---------------------------------------------------------------------------
  // Failover

  /** The items of the first indexer, in the configured order, that has any. */
  function Answer(replies: seq<Reply>): seq<Item> {
    if replies == [] then []
    else if ItemsOf(replies[0]) != [] then ItemsOf(replies[0])
    else Answer(replies[1..])
  }

  ghost predicate Agree(a: seq<Reply>, b: seq<Reply>, arrivals: seq<nat>, k: nat) {
    |a| == |b| && forall i :: 0 <= i < |a| && i in arrivals[..if k <= |arrivals| then k else 0] ==> a[i] == b[i]
  }

  /** The first `k` arrivals settle the answer: whatever the others turn out to say, it
      is the same. */
  ghost predicate Settles(replies: seq<Reply>, arrivals: seq<nat>, k: nat) {
    forall others :: Agree(replies, others, arrivals, k) ==> Answer(others) == Answer(replies)
  }

  lemma {:induction false} AnswerIsFirst(replies: seq<Reply>, i: nat)
    requires i < |replies| && ItemsOf(replies[i]) != [] && forall j :: 0 <= j < i ==> ItemsOf(replies[j]) == []
    ensures Answer(replies) == ItemsOf(replies[i])
  {
    if i > 0 {
      AnswerIsFirst(replies[1..], i - 1);
    }
  }

  lemma {:induction false} NoAnswer(replies: seq<Reply>)
    requires forall j :: 0 <= j < |replies| ==> ItemsOf(replies[j]) == []
    ensures Answer(replies) == []
  {
    if replies != [] {
      NoAnswer(replies[1..]);
    }
  }

  lemma SettledByFirst(replies: seq<Reply>, arrivals: seq<nat>, k: nat, i: nat)
    requires k <= |arrivals| && i < |replies| && ItemsOf(replies[i]) != []
    requires forall j :: 0 <= j < i ==> ItemsOf(replies[j]) == []
    requires forall j :: 0 <= j <= i ==> j in arrivals[..k]
    ensures Settles(replies, arrivals, k) && Answer(replies) == ItemsOf(replies[i])
  {
    AnswerIsFirst(replies, i);
    forall others | Agree(replies, others, arrivals, k) ensures Answer(others) == Answer(replies) {
      AnswerIsFirst(others, i);
    }
  }

  lemma SettledByAll(replies: seq<Reply>, arrivals: seq<nat>)
    requires Arrivals(arrivals, |replies|) && forall j :: 0 <= j < |replies| ==> ItemsOf(replies[j]) == []
    ensures Settles(replies, arrivals, |arrivals|) && Answer(replies) == []
  {
    NoAnswer(replies);
    assert arrivals[..|arrivals|] == arrivals;
    forall others | Agree(replies, others, arrivals, |arrivals|) ensures Answer(others) == Answer(replies) {
      assert others == replies;
    }
  }

  // While the first indexer that can still matter is silent, nothing is settled.
  lemma SilenceLeavesItOpen(replies: seq<Reply>, arrivals: seq<nat>, k: nat, i: nat)
    requires k <= |arrivals| && i < |replies| && i !in arrivals[..k]
    requires forall j :: 0 <= j < i ==> ItemsOf(replies[j]) == []
    ensures !Settles(replies, arrivals, k)
  {
    var item := Item("", "", "", "", 0, "");
    var items := if Answer(replies) == [item] then [item, item] else [item];
    var others := replies[i := Found(items)];
    AnswerIsFirst(others, i);
    assert Agree(replies, others, arrivals, k);
  }

  // The first indexer, in the configured order, that is silent or has items.
  method FirstOpen(done: array<bool>, itemsByIndexer: array<seq<Item>>) returns (i: nat)
    requires done.Length == itemsByIndexer.Length
    ensures i <= done.Length
    ensures forall j :: 0 <= j < i ==> done[j] && itemsByIndexer[j] == []
    ensures i < done.Length ==> !done[i] || itemsByIndexer[i] != []
  {
    i := 0;
    while i < done.Length && done[i] && itemsByIndexer[i] == []
      invariant i <= done.Length
      invariant forall j :: 0 <= j < i ==> done[j] && itemsByIndexer[j] == []
    {
      i := i + 1;
    }
  }

  // The first `k` replies have been noted, and no other.
  ghost predicate Noted(done: seq<bool>, itemsByIndexer: seq<seq<Item>>, replies: seq<Reply>, arrivals: seq<nat>,
                        k: nat)
    requires k <= |arrivals|
  {
    && |done| == |itemsByIndexer| == |replies|
    && forall i :: 0 <= i < |replies| ==>
         && (done[i] <==> i in arrivals[..k])
         && itemsByIndexer[i] == if done[i] then ItemsOf(replies[i]) else []
  }

  lemma NoteOne(done: seq<bool>, itemsByIndexer: seq<seq<Item>>, replies: seq<Reply>, arrivals: seq<nat>, k: nat)
    requires k < |arrivals| && Noted(done, itemsByIndexer, replies, arrivals, k)
    requires arrivals[k] < |replies| && arrivals[k] !in arrivals[..k]
    ensures Noted(done[arrivals[k] := true], itemsByIndexer[arrivals[k] := ItemsOf(replies[arrivals[k]])],
                  replies, arrivals, k + 1)
  {
    assert arrivals[..k + 1] == arrivals[..k] + [arrivals[k]];
  }

  ghost predicate OpenBefore(replies: seq<Reply>, arrivals: seq<nat>, k: nat) {
    forall j :: 0 <= j < k ==> !Settles(replies, arrivals, j)
  }

  // Nothing was settled by fewer replies, nor by these, unless they are all there is.
  ghost predicate StillOpen(replies: seq<Reply>, arrivals: seq<nat>, k: nat) {
    && OpenBefore(replies, arrivals, k)
    && (k < |arrivals| ==> !Settles(replies, arrivals, k))
    && (k == |arrivals| ==> forall j :: 0 <= j < |replies| ==> ItemsOf(replies[j]) == [])
  }

  // What the scan stopped at, when it did not stop at an answer.
  lemma ScanLeavesItOpen(done: seq<bool>, itemsByIndexer: seq<seq<Item>>, replies: seq<Reply>, arrivals: seq<nat>,
                         k: nat, i: nat)
    requires Arrivals(arrivals, |replies|) && k <= |arrivals| && Noted(done, itemsByIndexer, replies, arrivals, k)
    requires i <= |done| && forall j :: 0 <= j < i ==> done[j] && itemsByIndexer[j] == []
    requires i < |done| ==> !done[i]
    requires OpenBefore(replies, arrivals, k)
    ensures StillOpen(replies, arrivals, k)
  {
    if k < |arrivals| {
      assert arrivals[k] !in arrivals[..k];
      SilenceLeavesItOpen(replies, arrivals, k, i);
    } else {
      assert arrivals[..k] == arrivals;
    }
  }

  // ... and when it did.
  lemma ScanSettles(done: seq<bool>, itemsByIndexer: seq<seq<Item>>, replies: seq<Reply>, arrivals: seq<nat>, k: nat,
                    i: nat)
    requires k <= |arrivals| && Noted(done, itemsByIndexer, replies, arrivals, k)
    requires i < |done| && forall j :: 0 <= j < i ==> done[j] && itemsByIndexer[j] == []
    requires done[i] && itemsByIndexer[i] != []
    ensures Settles(replies, arrivals, k) && Answer(replies) == itemsByIndexer[i]
  {
    SettledByFirst(replies, arrivals, k, i);
  }

  method Note(done: array<bool>, itemsByIndexer: array<seq<Item>>, index: nat, reply: Reply)
    requires index < done.Length == itemsByIndexer.Length && itemsByIndexer[index] == []
    modifies done, itemsByIndexer
    ensures done[..] == old(done[..])[index := true]
    ensures itemsByIndexer[..] == old(itemsByIndexer[..])[index := ItemsOf(reply)]
  {
    done[index] := true;
    match reply {
      case Failed =>
      case Found(found) => itemsByIndexer[index] := found;
    }
  }

  // One reply more: where the scan stops, with an answer or without one.
  method Hear(done: array<bool>, itemsByIndexer: array<seq<Item>>, replies: seq<Reply>, arrivals: seq<nat>, taken: nat)
      returns (i: nat)
    requires Arrivals(arrivals, |replies|) && taken < |replies| && done != itemsByIndexer as object
    requires Noted(done[..], itemsByIndexer[..], replies, arrivals, taken) && StillOpen(replies, arrivals, taken)
    modifies done, itemsByIndexer
    ensures Noted(done[..], itemsByIndexer[..], replies, arrivals, taken + 1)
    ensures OpenBefore(replies, arrivals, taken + 1)
    ensures if i < |replies| && done[i]
            then Settles(replies, arrivals, taken + 1) && Answer(replies) == itemsByIndexer[i]
            else StillOpen(replies, arrivals, taken + 1)
  {
    NoteOne(done[..], itemsByIndexer[..], replies, arrivals, taken);
    Note(done, itemsByIndexer, arrivals[taken], replies[arrivals[taken]]);
    i := FirstOpen(done, itemsByIndexer);
    if i < |replies| && done[i] {
      ScanSettles(done[..], itemsByIndexer[..], replies, arrivals, taken + 1, i);
    } else {
      ScanLeavesItOpen(done[..], itemsByIndexer[..], replies, arrivals, taken + 1, i);
    }
  }

  /** Whatever order the replies come in, the answer is that of the first indexer that
      has any items; it is given as soon as the replies so far settle it, and no sooner. */
  method SearchWithFailover(replies: seq<Reply>, arrivals: seq<nat>) returns (items: seq<Item>, taken: nat)
    requires Arrivals(arrivals, |replies|)
    ensures items == Answer(replies)
    ensures taken <= |arrivals| && Settles(replies, arrivals, taken)
    ensures forall k :: 0 <= k < taken ==> !Settles(replies, arrivals, k)
  {
    var n := |replies|;
    var done := new bool[n](_ => false);
    var itemsByIndexer := new seq<Item>[n](_ => []);
    taken := 0;
    ScanLeavesItOpen(done[..], itemsByIndexer[..], replies, arrivals, 0, 0);
    while taken < n
      invariant taken <= n && Noted(done[..], itemsByIndexer[..], replies, arrivals, taken)
      invariant StillOpen(replies, arrivals, taken)
    {
      var i := Hear(done, itemsByIndexer, replies, arrivals, taken);
      taken := taken + 1;
      if i < n && done[i] {
        items := itemsByIndexer[i];
        return;
      }
    }
    SettledByAll(replies, arrivals);
    items := [];
  }

  // ---------------------------------------------------------------------------
  // Combining

  datatype Key = Guid(s: string) | Link(s: string) | TitleAndSize(title: string, size: int)

  // What a result counts as a duplicate by; a result with none is never a duplicate.
  function KeyOf(item: Item): Option<Key> {
    if item.guid != "" then Some(Guid(item.guid))
    else if item.link != "" then Some(Link(item.normLink))
    else if item.size > 0 then Some(TitleAndSize(item.normTitle, item.size))
    else None
  }

  function KeysIn(items: seq<Item>): set<Key> {
    set item | item in items && KeyOf(item).Some? :: KeyOf(item).value
  }

  function Unique(items: seq<Item>): seq<Item> {
    if items == [] then []
    else
      var n := |items| - 1;
      var before := Unique(items[..n]);
      if KeyOf(items[n]).Some? && KeyOf(items[n]).value in KeysIn(items[..n]) then before else before + [items[n]]
  }

  function Keyless(items: seq<Item>): seq<Item> {
    if items == [] then []
    else
      var n := |items| - 1;
      Keyless(items[..n]) + if KeyOf(items[n]).None? then [items[n]] else []
  }

  function AllItems(replies: seq<Reply>, arrivals: seq<nat>): seq<Item>
    requires forall k :: 0 <= k < |arrivals| ==> arrivals[k] < |replies|
  {
    if arrivals == [] then []
    else
      var n := |arrivals| - 1;
      AllItems(replies, arrivals[..n]) + ItemsOf(replies[arrivals[n]])
  }

  lemma KeysOneMore(items: seq<Item>, item: Item)
    ensures KeysIn(items + [item]) == KeysIn(items) + if KeyOf(item).Some? then {KeyOf(item).value} else {}
  {
  }

  lemma UniqueOneMore(items: seq<Item>, i: nat)
    requires i < |items|
    ensures KeysIn(items[..i + 1]) == KeysIn(items[..i]) + if KeyOf(items[i]).Some? then {KeyOf(items[i]).value} else {}
    ensures var known := KeyOf(items[i]).Some? && KeyOf(items[i]).value in KeysIn(items[..i]);
            Unique(items[..i + 1]) == if known then Unique(items[..i]) else Unique(items[..i]) + [items[i]]
  {
    assert items[..i + 1][..i] == items[..i];
    KeysOneMore(items[..i], items[i]);
    assert items[..i + 1] == items[..i] + [items[i]];
  }

  ghost predicate Seen(keys: set<Key>, guids: set<string>, links: set<string>, titles: set<(string, int)>) {
    && (forall s :: s in guids <==> Guid(s) in keys)
    && (forall s :: s in links <==> Link(s) in keys)
    && (forall t, z :: (t, z) in titles <==> TitleAndSize(t, z) in keys)
  }

  method Dedupe(items: seq<Item>) returns (unique: seq<Item>)
    ensures unique == Unique(items)
  {
    var seenGuid: set<string>, seenLink: set<string>, seenTitleSize: set<(string, int)> := {}, {}, {};
    unique := [];
    for i := 0 to |items|
      invariant unique == Unique(items[..i])
      invariant Seen(KeysIn(items[..i]), seenGuid, seenLink, seenTitleSize)
    {
      var item := items[i];
      UniqueOneMore(items, i);
      if item.guid != "" {
        if item.guid in seenGuid {
          continue;
        }
        seenGuid := seenGuid + {item.guid};
        unique := unique + [item];
        continue;
      }
      if item.link != "" {
        if item.normLink in seenLink {
          continue;
        }
        seenLink := seenLink + {item.normLink};
        unique := unique + [item];
        continue;
      }
      if item.size > 0 && (item.normTitle, item.size) in seenTitleSize {
        continue;
      }
      if item.size > 0 {
        seenTitleSize := seenTitleSize + {(item.normTitle, item.size)};
      }
      unique := unique + [item];
    }
    assert items[..|items|] == items;
  }

  ghost predicate OnePerKey(items: seq<Item>) {
    forall i, j :: 0 <= i < j < |items| && KeyOf(items[i]).Some? ==> KeyOf(items[i]) != KeyOf(items[j])
  }

  /** One result is left for every key, and every result without a key. */
  lemma {:induction false} UniqueRepresents(items: seq<Item>)
    ensures OnePerKey(Unique(items)) && KeysIn(Unique(items)) == KeysIn(items)
    ensures Keyless(Unique(items)) == Keyless(items)
  {
    if items != [] {
      var n := |items| - 1;
      UniqueRepresents(items[..n]);
      InitAndLast(items);
      KeysOneMore(items[..n], items[n]);
      var before := Unique(items[..n]);
      if Unique(items) != before {
        KeysOneMore(before, items[n]);
        assert (before + [items[n]])[..|before|] == before;
        OnePerKeyMore(before, items[n]);
      }
    }
  }

  lemma OnePerKeyMore(before: seq<Item>, item: Item)
    requires OnePerKey(before) && (KeyOf(item).Some? ==> KeyOf(item).value !in KeysIn(before))
    ensures OnePerKey(before + [item])
  {
    forall i | 0 <= i < |before| && KeyOf(before[i]).Some? ensures KeyOf(before[i]) != KeyOf(item) {
      assert KeyOf(before[i]).value in KeysIn(before);
    }
  }

  lemma CountOneMore(items: seq<Item>, item: Item)
    requires |Unique(items)| == |KeysIn(items)| + |Keyless(items)|
    ensures |Unique(items + [item])| == |KeysIn(items + [item])| + |Keyless(items + [item])|
  {
    assert (items + [item])[..|items|] == items;
    KeysOneMore(items, item);
    if KeyOf(item).Some? {
      var keys, key := KeysIn(items), KeyOf(item).value;
      assert keys + {key} == if key in keys then keys else keys + {key};
    }
  }

  /** Two results count as the same: by their guids when they have them; without guids by
      their links; without either by title and size, if the size is known. */
  predicate Same(a: Item, b: Item) {
    || (a.guid != "" && b.guid == a.guid)
    || (a.guid == b.guid == "" && a.link != "" && b.link != "" && a.normLink == b.normLink)
    || (a.guid == b.guid == "" && a.link == b.link == "" && a.size == b.size > 0 && a.normTitle == b.normTitle)
  }

  lemma SameIsSameKey(a: Item, b: Item)
    ensures Same(a, b) <==> KeyOf(a).Some? && KeyOf(a) == KeyOf(b)
  {
  }

  predicate IsNew(items: seq<Item>, i: nat) {
    i < |items| && forall j :: 0 <= j < i ==> !Same(items[j], items[i])
  }

  // The results at these places, in order.
  ghost predicate TakenFrom(items: seq<Item>, places: seq<nat>, taken: seq<Item>) {
    && |places| == |taken|
    && (forall k :: 0 <= k < |places| ==> places[k] < |items| && taken[k] == items[places[k]])
    && (forall j, k :: 0 <= j < k < |places| ==> places[j] < places[k])
  }

  lemma NewOneMore(items: seq<Item>)
    requires items != []
    ensures var n := |items| - 1;
            && (forall i :: 0 <= i < n ==> (IsNew(items[..n], i) <==> IsNew(items, i)))
            && (IsNew(items, n) <==> !(KeyOf(items[n]).Some? && KeyOf(items[n]).value in KeysIn(items[..n])))
  {
    var n := |items| - 1;
    forall j | 0 <= j < n
      ensures Same(items[j], items[n]) <==> KeyOf(items[n]).Some? && KeyOf(items[j]) == KeyOf(items[n])
    {
      SameIsSameKey(items[j], items[n]);
    }
    if KeyOf(items[n]).Some? && KeyOf(items[n]).value in KeysIn(items[..n]) {
      var item :| item in items[..n] && KeyOf(item) == KeyOf(items[n]);
      var j :| 0 <= j < n && items[j] == item;
      assert Same(items[j], items[n]);
    }
  }

  ghost predicate AllNew(items: seq<Item>, places: seq<nat>) {
    forall i: nat :: i in places <==> IsNew(items, i)
  }

  lemma TakenOneMore(items: seq<Item>, places: seq<nat>, taken: seq<Item>)
    requires items != [] && TakenFrom(items[..|items| - 1], places, taken)
    ensures TakenFrom(items, places, taken)
    ensures TakenFrom(items, places + [|items| - 1], taken + [items[|items| - 1]])
  {
  }

  lemma AllNewOneMore(items: seq<Item>, places: seq<nat>)
    requires items != [] && AllNew(items[..|items| - 1], places)
    requires forall i: nat :: i < |items| - 1 ==> (IsNew(items[..|items| - 1], i) <==> IsNew(items, i))
    ensures AllNew(items, if IsNew(items, |items| - 1) then places + [|items| - 1] else places)
  {
    var n := |items| - 1;
    var places' := if IsNew(items, n) then places + [n] else places;
    forall i: nat ensures i in places' <==> IsNew(items, i) {
      assert i in places <==> IsNew(items[..n], i);
    }
  }

  /** What is left is exactly every result that is not the same as an earlier one, in order. */
  lemma {:induction false} UniqueKeepsTheFirst(items: seq<Item>) returns (places: seq<nat>)
    ensures TakenFrom(items, places, Unique(items)) && AllNew(items, places)
  {
    places := [];
    if items != [] {
      var n := |items| - 1;
      places := UniqueKeepsTheFirst(items[..n]);
      NewOneMore(items);
      TakenOneMore(items, places, Unique(items[..n]));
      AllNewOneMore(items, places);
      if IsNew(items, n) {
        places := places + [n];
      }
    }
  }

  /** How many are left: one a key, and all that have none. */
  lemma {:induction false} UniqueCount(items: seq<Item>)
    ensures |Unique(items)| == |KeysIn(items)| + |Keyless(items)|
  {
    if items != [] {
      var n := |items| - 1;
      UniqueCount(items[..n]);
      CountOneMore(items[..n], items[n]);
      InitAndLast(items);
    }
  }

  lemma {:induction false} KeylessCount(items: seq<Item>, item: Item)
    ensures multiset(Keyless(items))[item] == if KeyOf(item).None? then multiset(items)[item] else 0
  {
    if items != [] {
      var n := |items| - 1;
      KeylessCount(items[..n], item);
      InitAndLast(items);
    }
  }

  lemma SameKeys(a: seq<Item>, b: seq<Item>)
    requires multiset(a) == multiset(b)
    ensures KeysIn(a) == KeysIn(b)
  {
    forall item ensures item in a <==> item in b {
      assert item in multiset(a) <==> item in multiset(b);
    }
  }

  lemma SameKeyless(a: seq<Item>, b: seq<Item>)
    requires multiset(a) == multiset(b)
    ensures multiset(Keyless(a)) == multiset(Keyless(b)) && |Keyless(a)| == |Keyless(b)|
  {
    forall item ensures multiset(Keyless(a))[item] == multiset(Keyless(b))[item] {
      KeylessCount(a, item);
      KeylessCount(b, item);
    }
    assert multiset(Keyless(a)) == multiset(Keyless(b));
    assert |multiset(Keyless(a))| == |multiset(Keyless(b))|;
  }

  function Without(s: seq<nat>, i: nat): seq<nat>
    requires i < |s|
  {
    s[..i] + s[i + 1..]
  }

  lemma WithoutRemoves(s: seq<nat>, i: nat)
    requires i < |s|
    ensures multiset(Without(s, i)) == multiset(s) - multiset{s[i]}
  {
    assert s == s[..i] + [s[i]] + s[i + 1..];
  }

  lemma WithoutLast(s: seq<nat>, i: nat)
    requires i < |s|
    ensures i == |s| - 1 ==> Without(s, i) == s[..i]
    ensures i < |s| - 1 ==> Without(s, i) == Without(s[..|s| - 1], i) + [s[|s| - 1]]
  {
  }

  lemma AllItemsOneMore(replies: seq<Reply>, arrivals: seq<nat>, last: nat)
    requires last < |replies| && forall k :: 0 <= k < |arrivals| ==> arrivals[k] < |replies|
    ensures AllItems(replies, arrivals + [last]) == AllItems(replies, arrivals) + ItemsOf(replies[last])
  {
    assert (arrivals + [last])[..|arrivals|] == arrivals;
  }

  lemma ElsewhereOneMore(replies: seq<Reply>, with: seq<nat>, without: seq<nat>, x: nat, last: nat)
    requires x < |replies| && last < |replies|
    requires forall k :: 0 <= k < |with| ==> with[k] < |replies|
    requires forall k :: 0 <= k < |without| ==> without[k] < |replies|
    requires multiset(AllItems(replies, with)) == multiset(AllItems(replies, without)) + multiset(ItemsOf(replies[x]))
    ensures multiset(AllItems(replies, with + [last]))
         == multiset(AllItems(replies, without + [last])) + multiset(ItemsOf(replies[x]))
  {
    AllItemsOneMore(replies, with, last);
    AllItemsOneMore(replies, without, last);
  }

  lemma {:induction false} ArrivalElsewhere(replies: seq<Reply>, arrivals: seq<nat>, i: nat)
    requires i < |arrivals| && forall k :: 0 <= k < |arrivals| ==> arrivals[k] < |replies|
    ensures multiset(AllItems(replies, arrivals))
         == multiset(AllItems(replies, Without(arrivals, i))) + multiset(ItemsOf(replies[arrivals[i]]))
  {
    var n := |arrivals| - 1;
    var init, last := arrivals[..n], arrivals[n];
    WithoutLast(arrivals, i);
    if i == n {
      assert AllItems(replies, arrivals) == AllItems(replies, init) + ItemsOf(replies[last]);
    } else {
      assert arrivals == init + [last] && Without(arrivals, i) == Without(init, i) + [last];
      ArrivalElsewhere(replies, init, i);
      ElsewhereOneMore(replies, init, Without(init, i), arrivals[i], last);
    }
  }

  lemma {:induction false} SameItemsInAnyOrder(replies: seq<Reply>, a: seq<nat>, b: seq<nat>)
    requires multiset(a) == multiset(b)
    requires forall k :: 0 <= k < |a| ==> a[k] < |replies|
    requires forall k :: 0 <= k < |b| ==> b[k] < |replies|
    ensures multiset(AllItems(replies, a)) == multiset(AllItems(replies, b))
  {
    assert |multiset(a)| == |multiset(b)|;
    if a != [] {
      var n := |a| - 1;
      assert a[n] in multiset(b);
      var i :| 0 <= i < |b| && b[i] == a[n];
      WithoutLast(a, n);
      WithoutRemoves(a, n);
      WithoutRemoves(b, i);
      SameItemsInAnyOrder(replies, a[..n], Without(b, i));
      ArrivalElsewhere(replies, b, i);
    }
  }

  /** Two orders of the same replies leave the same keys, each once, the same results
      without a key, and so equally many. Which copy stands for a key may differ. */
  lemma {:induction false} ArrivalOrderKeepsTheCount(replies: seq<Reply>, a: seq<nat>, b: seq<nat>)
    requires multiset(a) == multiset(b)
    requires forall k :: 0 <= k < |a| ==> a[k] < |replies|
    requires forall k :: 0 <= k < |b| ==> b[k] < |replies|
    ensures var u, v := Unique(AllItems(replies, a)), Unique(AllItems(replies, b));
            && |u| == |v| && KeysIn(u) == KeysIn(v) && OnePerKey(u) && OnePerKey(v)
            && multiset(Keyless(u)) == multiset(Keyless(v))
  {
    var x, y := AllItems(replies, a), AllItems(replies, b);
    SameItemsInAnyOrder(replies, a, b);
    SameKeys(x, y);
    SameKeyless(x, y);
    UniqueCount(x);
    UniqueCount(y);
    UniqueRepresents(x);
    UniqueRepresents(y);
  }
}
