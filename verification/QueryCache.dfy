/** Caching search responses. A response is a graph of objects that callers may edit, so
    what goes into the cache and what comes out are copies, and no caller ever holds an
    object of the cache's. One cache stands in front of all indexers: the name at the head
    of each key keeps their answers apart, and each indexer serves only what it said itself. */
module QueryCache {
  import opened Basics

  datatype Attribute = Attribute(name: string, content: string)

  // The fields of a release, an item and a response that hold no reference.
  datatype ReleaseFields = ReleaseFields(title: string, link: string, detailsUrl: string, guid: string, size: int,
                                         grabs: int)
  datatype ItemFields = ItemFields(title: string, guid: string, link: string, size: int)
  datatype ResponseFields = ResponseFields(title: string, total: int, incomplete: bool)

  class Release {
    var fields: ReleaseFields
    var languages: array?<string>
    var subtitles: array?<string>

    constructor (fields: ReleaseFields, languages: array?<string>, subtitles: array?<string>)
      ensures this.fields == fields && this.languages == languages && this.subtitles == subtitles
    {
      this.fields, this.languages, this.subtitles := fields, languages, subtitles;
    }
  }

  // Items are values, but an item's attributes are shared by its copies.
  datatype Item = Item(fields: ItemFields, attributes: array?<Attribute>)

  class Response {
    var fields: ResponseFields
    var releases: array?<Release?>
    var items: array?<Item>

    constructor (fields: ResponseFields, releases: array?<Release?>, items: array?<Item>)
      ensures this.fields == fields && this.releases == releases && this.items == items
    {
      this.fields, this.releases, this.items := fields, releases, items;
    }
  }

  // ---------------------------------------------------------------------------
  // What a response says, as a value

  datatype ReleaseValue = ReleaseValue(fields: ReleaseFields, languages: Option<seq<string>>,
                                       subtitles: Option<seq<string>>)
  datatype ItemValue = ItemValue(fields: ItemFields, attributes: Option<seq<Attribute>>)
  datatype ResponseValue = ResponseValue(fields: ResponseFields, releases: Option<seq<Option<ReleaseValue>>>,
                                         items: Option<seq<ItemValue>>)

  ghost function Elements<T>(a: array?<T>): Option<seq<T>>
    reads a
  {
    if a == null then None else Some(a[..])
  }

  ghost predicate OwnsRelease(r: Release?, parts: set<object>)
    reads parts
  {
    r != null ==>
      r in parts && (r.languages != null ==> r.languages in parts) && (r.subtitles != null ==> r.subtitles in parts)
  }

  ghost function ValueOfRelease(r: Release?, parts: set<object>): Option<ReleaseValue>
    requires OwnsRelease(r, parts)
    reads parts
  {
    if r == null then None
    else Some(ReleaseValue(r.fields, Elements(r.languages), Elements(r.subtitles)))
  }

  ghost predicate OwnsReleases(a: array?<Release?>, parts: set<object>)
    reads parts
  {
    a != null ==> a in parts && forall i :: 0 <= i < a.Length ==> OwnsRelease(a[i], parts)
  }

  ghost function ValueOfReleases(a: array?<Release?>, parts: set<object>): Option<seq<Option<ReleaseValue>>>
    requires OwnsReleases(a, parts)
    reads parts
  {
    if a == null then None
    else Some(seq(a.Length, i requires 0 <= i < a.Length && a in parts
                  && OwnsRelease(a[i], parts) reads parts => ValueOfRelease(a[i], parts)))
  }

  ghost predicate OwnsItem(item: Item, parts: set<object>) {
    item.attributes != null ==> item.attributes in parts
  }

  ghost function ValueOfItem(item: Item, parts: set<object>): ItemValue
    requires OwnsItem(item, parts)
    reads parts
  {
    ItemValue(item.fields, Elements(item.attributes))
  }

  ghost predicate OwnsItems(a: array?<Item>, parts: set<object>)
    reads parts
  {
    a != null ==> a in parts && forall i :: 0 <= i < a.Length ==> OwnsItem(a[i], parts)
  }

  ghost function ValueOfItems(a: array?<Item>, parts: set<object>): Option<seq<ItemValue>>
    requires OwnsItems(a, parts)
    reads parts
  {
    if a == null then None
    else Some(seq(a.Length, i requires 0 <= i < a.Length && a in parts
                  && OwnsItem(a[i], parts) reads parts => ValueOfItem(a[i], parts)))
  }

  /** Everything a response can reach is among these objects. */
  ghost predicate Owns(r: Response, parts: set<object>)
    reads parts
  {
    r in parts && OwnsReleases(r.releases, parts) && OwnsItems(r.items, parts)
  }

  ghost function Value(r: Response, parts: set<object>): ResponseValue
    requires Owns(r, parts)
    reads parts
  {
    ResponseValue(r.fields, ValueOfReleases(r.releases, parts), ValueOfItems(r.items, parts))
  }

  // ---------------------------------------------------------------------------
  // Copying

  method CloneSlice<T(0)>(a: array?<T>) returns (copy: array?<T>)
    ensures Elements(copy) == Elements(a)
    ensures copy != null ==> fresh(copy)
  {
    if a == null {
      return null;
    }
    copy := new T[a.Length](i requires 0 <= i < a.Length reads a => a[i]);
    assert copy[..] == a[..];
  }

  method CloneRelease(r: Release, ghost parts: set<object>) returns (copy: Release, ghost own: set<object>)
    requires OwnsRelease(r, parts)
    ensures fresh(own) && OwnsRelease(copy, own)
    ensures ValueOfRelease(copy, own) == old(ValueOfRelease(r, parts))
  {
    var languages := CloneSlice(r.languages);
    var subtitles := CloneSlice(r.subtitles);
    copy := new Release(r.fields, languages, subtitles);
    own := {copy} + (if languages == null then {} else {languages}) + (if subtitles == null then {} else {subtitles});
  }

  // The first `n` copies are made and say what the originals said.
  ghost predicate ReleasesCopied(copy: array<Release?>, n: nat, own: set<object>, values: seq<Option<ReleaseValue>>)
    reads copy, own
  {
    && n <= copy.Length == |values|
    && (forall i :: 0 <= i < n ==> OwnsRelease(copy[i], own) && ValueOfRelease(copy[i], own) == values[i])
    && (forall i :: n <= i < copy.Length ==> copy[i] == null)
  }

  lemma AllReleasesCopied(copy: array<Release?>, own: set<object>, values: seq<Option<ReleaseValue>>)
    requires ReleasesCopied(copy, copy.Length, own, values)
    ensures OwnsReleases(copy, own + {copy}) && ValueOfReleases(copy, own + {copy}) == Some(values)
  {
    var all := own + {copy};
    assert forall i :: 0 <= i < copy.Length ==>
             ValueOfRelease(copy[i], all) == ValueOfRelease(copy[i], own) == values[i];
    assert ValueOfReleases(copy, all).value == values;
  }

  method CloneReleases(a: array?<Release?>, ghost parts: set<object>)
      returns (copy: array?<Release?>, ghost own: set<object>)
    requires OwnsReleases(a, parts)
    ensures fresh(own) && OwnsReleases(copy, own)
    ensures ValueOfReleases(copy, own) == old(ValueOfReleases(a, parts))
  {
    own := {};
    if a == null {
      return null, own;
    }
    ghost var values := ValueOfReleases(a, parts).value;
    var target := new Release?[a.Length](_ => null);
    for i := 0 to a.Length
      invariant fresh(own) && target !in own
      invariant ReleasesCopied(target, i, own, values)
    {
      if a[i] != null {
        assert OwnsRelease(a[i], parts) && values[i] == ValueOfRelease(a[i], parts);
        var c, more := CloneRelease(a[i], parts);
        target[i] := c;
        own := own + more;
      }
    }
    AllReleasesCopied(target, own, values);
    copy := target;
    own := own + {target};
  }

  // The first `n` copies are made and say what the originals said.
  ghost predicate ItemsCopied(copy: array<Item>, n: nat, own: set<object>, values: seq<ItemValue>)
    reads copy, own
  {
    && n <= copy.Length == |values|
    && (forall i :: 0 <= i < n ==> OwnsItem(copy[i], own) && ValueOfItem(copy[i], own) == values[i])
  }

  method CloneItem(item: Item, ghost parts: set<object>) returns (copy: Item, ghost own: set<object>)
    requires OwnsItem(item, parts)
    ensures fresh(own) && OwnsItem(copy, own)
    ensures ValueOfItem(copy, own) == old(ValueOfItem(item, parts))
  {
    var attributes := CloneSlice(item.attributes);
    copy := Item(item.fields, attributes);
    own := if attributes == null then {} else {attributes};
  }

  lemma AllItemsCopied(copy: array<Item>, own: set<object>, values: seq<ItemValue>)
    requires ItemsCopied(copy, copy.Length, own, values)
    ensures OwnsItems(copy, own + {copy}) && ValueOfItems(copy, own + {copy}) == Some(values)
  {
    var all := own + {copy};
    assert forall i :: 0 <= i < copy.Length ==> ValueOfItem(copy[i], all) == ValueOfItem(copy[i], own) == values[i];
    assert ValueOfItems(copy, all).value == values;
  }

  method CloneItems(a: array?<Item>, ghost parts: set<object>) returns (copy: array?<Item>, ghost own: set<object>)
    requires OwnsItems(a, parts)
    ensures fresh(own) && OwnsItems(copy, own)
    ensures ValueOfItems(copy, own) == old(ValueOfItems(a, parts))
  {
    own := {};
    if a == null {
      return null, own;
    }
    ghost var values := ValueOfItems(a, parts).value;
    var target := new Item[a.Length](_ => Item(ItemFields("", "", "", 0), null));
    for i := 0 to a.Length
      invariant fresh(own) && target !in own
      invariant ItemsCopied(target, i, own, values)
    {
      assert OwnsItem(a[i], parts) && values[i] == ValueOfItem(a[i], parts);
      var c, more := CloneItem(a[i], parts);
      target[i] := c;
      own := own + more;
    }
    AllItemsCopied(target, own, values);
    copy := target;
    own := own + {target};
  }

  lemma ReleasesOwnedByMore(a: array?<Release?>, parts: set<object>, more: set<object>)
    requires OwnsReleases(a, parts) && parts <= more
    ensures OwnsReleases(a, more) && ValueOfReleases(a, more) == ValueOfReleases(a, parts)
  {
    if a != null {
      assert forall i :: 0 <= i < a.Length ==>
               OwnsRelease(a[i], more) && ValueOfRelease(a[i], more) == ValueOfRelease(a[i], parts);
      assert ValueOfReleases(a, more).value == ValueOfReleases(a, parts).value;
    }
  }

  lemma ItemsOwnedByMore(a: array?<Item>, parts: set<object>, more: set<object>)
    requires OwnsItems(a, parts) && parts <= more
    ensures OwnsItems(a, more) && ValueOfItems(a, more) == ValueOfItems(a, parts)
  {
    if a != null {
      assert forall i :: 0 <= i < a.Length ==>
               OwnsItem(a[i], more) && ValueOfItem(a[i], more) == ValueOfItem(a[i], parts);
      assert ValueOfItems(a, more).value == ValueOfItems(a, parts).value;
    }
  }

  lemma OwnedByMore(r: Response, parts: set<object>, more: set<object>)
    requires Owns(r, parts) && parts <= more
    ensures Owns(r, more) && Value(r, more) == Value(r, parts)
  {
    ReleasesOwnedByMore(r.releases, parts, more);
    ItemsOwnedByMore(r.items, parts, more);
  }

  /** A clone says the same and shares nothing with the original. */
  method CloneResponse(r: Response, ghost parts: set<object>) returns (clone: Response, ghost own: set<object>)
    requires Owns(r, parts)
    ensures fresh(own) && Owns(clone, own)
    ensures Value(clone, own) == old(Value(r, parts))
  {
    var releases, own1 := CloneReleases(r.releases, parts);
    var items, own2 := CloneItems(r.items, parts);
    clone := new Response(r.fields, releases, items);
    own := own1 + own2 + {clone};
    ReleasesOwnedByMore(releases, own1, own);
    ItemsOwnedByMore(items, own2, own);
  }

  // ---------------------------------------------------------------------------
  // The cache

  datatype Entry = Entry(response: Response, until: int)

  datatype Stored = Stored(value: ResponseValue, until: int)

  ghost predicate OwnsEntries(entries: map<string, Entry>, parts: set<object>)
    reads parts
  {
    forall key :: key in entries ==> Owns(entries[key].response, parts)
  }

  ghost function ContentsOf(entries: map<string, Entry>, parts: set<object>): map<string, Stored>
    requires OwnsEntries(entries, parts)
    reads parts
  {
    map key | key in entries :: Stored(Value(entries[key].response, parts), entries[key].until)
  }

  lemma EntriesOwnedByMore(entries: map<string, Entry>, parts: set<object>, more: set<object>)
    requires OwnsEntries(entries, parts) && parts <= more
    ensures OwnsEntries(entries, more) && ContentsOf(entries, more) == ContentsOf(entries, parts)
  {
    forall key | key in entries
      ensures Owns(entries[key].response, more)
      ensures Value(entries[key].response, more) == Value(entries[key].response, parts)
    {
      OwnedByMore(entries[key].response, parts, more);
    }
  }

  lemma EntryAdded(entries: map<string, Entry>, key: string, e: Entry, parts: set<object>)
    requires OwnsEntries(entries, parts) && Owns(e.response, parts)
    ensures OwnsEntries(entries[key := e], parts)
    ensures ContentsOf(entries[key := e], parts) ==
            ContentsOf(entries, parts)[key := Stored(Value(e.response, parts), e.until)]
  {
  }

  class Cache {
    var entries: map<string, Entry>
    ghost var own: set<object>  // the objects the cached responses are made of

    ghost predicate Valid()
      reads this, own
    {
      this !in own && OwnsEntries(entries, own)
    }

    ghost function Contents(): map<string, Stored>
      requires Valid()
      reads this, own
    {
      ContentsOf(entries, own)
    }

    constructor ()
      ensures Valid() && Contents() == map[] && own == {}
    {
      entries, own := map[], {};
    }

    /** What is found says what is stored, and is a copy made for this caller. */
    method Get(key: string, now: int) returns (found: Response?, ghost parts: set<object>)
      requires Valid()
      ensures found != null <==> key in Contents() && now <= Contents()[key].until
      ensures fresh(parts) && (found != null ==> Owns(found, parts) && Value(found, parts) == Contents()[key].value)
      ensures Valid() && Contents() == old(Contents())
    {
      parts := {};
      if key !in entries || now > entries[key].until {
        return null, parts;
      }
      found, parts := CloneResponse(entries[key].response, own);
    }

    method Put(key: string, r: Response?, ghost parts: set<object>, ttl: int, now: int)
      requires Valid() && (r != null ==> Owns(r, parts))
      modifies this
      ensures Valid() && own >= old(own) && fresh(own - old(own))
      ensures Contents() ==
                if r == null then old(Contents()) else old(Contents()[key := Stored(Value(r, parts), now + ttl)])
    {
      if r != null {
        var clone, more := CloneResponse(r, parts);
        Keep(key, Entry(clone, now + ttl), more);
      }
    }

    // An entry made for the cache goes in.
    method Keep(key: string, e: Entry, ghost parts: set<object>)
      requires Valid() && Owns(e.response, parts) && this !in parts
      modifies this
      ensures Valid() && own == old(own) + parts
      ensures Contents() == old(Contents()[key := Stored(Value(e.response, parts), e.until)])
    {
      ghost var all := own + parts;
      OwnedByMore(e.response, parts, all);
      EntriesOwnedByMore(entries, own, all);
      EntryAdded(entries, key, e, all);
      own := all;
      entries := entries[key := e];
    }

    method Clear()
      requires Valid()
      modifies this
      ensures Valid() && Contents() == map[] && own == old(own)
    {
      entries := map[];
    }
  }

  // ---------------------------------------------------------------------------
  // The callers cannot reach what is cached

  /** A cache and every object its callers hold: what they were given and what they
      stored. They may do anything to these objects, at any time. */
  class Shared {
    const cache: Cache
    ghost var handed: set<object>

    ghost predicate Valid()
      reads this, cache, cache.own
    {
      && cache.Valid()
      && handed !! cache.own && cache !in handed
      && this !in handed && this !in cache.own && this as object != cache
    }

    constructor ()
      ensures Valid() && fresh(cache) && cache.Contents() == map[] && handed == {}
    {
      cache := new Cache();
      handed := {};
    }

    /** Whatever the callers do to their objects, the cache says what it said. */
    ghost method Edit()
      requires Valid()
      modifies handed
      ensures Valid() && handed == old(handed) && cache.Contents() == old(cache.Contents())
    {
      modify handed;
    }

    method Lookup(key: string, now: int) returns (found: Response?)
      requires Valid()
      modifies this
      ensures Valid() && cache.Contents() == old(cache.Contents()) && handed >= old(handed)
      ensures found != null <==> key in cache.Contents() && now <= cache.Contents()[key].until
      ensures found != null ==> Owns(found, handed) && Value(found, handed) == cache.Contents()[key].value
    {
      ghost var parts;
      found, parts := cache.Get(key, now);
      if found != null {
        OwnedByMore(found, parts, handed + parts);
      }
      handed := handed + parts;
    }

    method Store(key: string, r: Response?, ttl: int, now: int)
      requires Valid() && (r != null ==> Owns(r, handed))
      modifies cache
      ensures Valid() && handed == old(handed)
      ensures cache.Contents() ==
                if r == null then old(cache.Contents())
                else old(cache.Contents()[key := Stored(Value(r, handed), now + ttl)])
    {
      cache.Put(key, r, handed, ttl, now);
    }
  }

  // ---------------------------------------------------------------------------
  // Keys, and whose they are

  // What every key of an indexer starts with. The name is trimmed.
  function Head(name: string): string {
    "idx=" + name + "|mode="
  }

  function KeyFor(name: string, request: string): string {
    Head(name) + request
  }

  predicate IsKeyOf(name: string, key: string) {
    Head(name) <= key
  }

  // No key is one of both.
  ghost predicate KeysApart(a: string, b: string) {
    forall key: string :: !(IsKeyOf(a, key) && IsKeyOf(b, key))
  }

  lemma PrefixesNest(a: string, b: string, key: string)
    requires a <= key && b <= key && |a| <= |b|
    ensures a <= b
  {
    assert forall i :: 0 <= i < |a| ==> a[i] == key[i] == b[i];
  }

  /** Two indexers can share a key exactly when what their keys start with nests. */
  lemma KeysMeetExactly(a: string, b: string)
    ensures KeysApart(a, b) <==> !(Head(a) <= Head(b)) && !(Head(b) <= Head(a))
  {
    if Head(a) <= Head(b) || Head(b) <= Head(a) {
      var key := if Head(a) <= Head(b) then Head(b) else Head(a);
      assert IsKeyOf(a, key) && IsKeyOf(b, key);
    }
    forall key: string | IsKeyOf(a, key) && IsKeyOf(b, key) ensures Head(a) <= Head(b) || Head(b) <= Head(a) {
      if |Head(a)| <= |Head(b)| {
        PrefixesNest(Head(a), Head(b), key);
      } else {
        PrefixesNest(Head(b), Head(a), key);
      }
    }
  }

  // A longer name whose keys are keys of a shorter one holds the separator.
  lemma LongerHoldsSeparator(a: string, b: string)
    requires Head(a) <= Head(b) && |a| < |b|
    ensures '|' in b
  {
    assert Head(a)[4 + |a|] == '|' == Head(b)[4 + |a|];
    assert Head(b)[4 + |a|] == b[|a|];
  }

  lemma SameLengthSameName(a: string, b: string)
    requires Head(a) <= Head(b) && |a| == |b|
    ensures a == b
  {
    assert forall i :: 0 <= i < |a| ==> a[i] == Head(a)[4 + i] && b[i] == Head(b)[4 + i];
  }

  lemma NestedHeads(a: string, b: string)
    requires Head(a) <= Head(b) && '|' !in b
    ensures a == b
  {
    assert |a| <= |b|;
    if |a| < |b| {
      LongerHoldsSeparator(a, b);
    } else {
      SameLengthSameName(a, b);
    }
  }

  /** Distinct names keep answers apart, as long as no name holds the separator. */
  lemma DistinctNamesKeepApart(a: string, b: string)
    requires a != b && '|' !in a && '|' !in b
    ensures KeysApart(a, b)
  {
    KeysMeetExactly(a, b);
    if Head(a) <= Head(b) {
      NestedHeads(a, b);
    } else if Head(b) <= Head(a) {
      NestedHeads(b, a);
    }
  }

  // ---------------------------------------------------------------------------
  // An indexer the cache stands in front of

  // A complete, error-free answer of an indexer to the request with this key.
  datatype Answer = Answer(key: string, value: ResponseValue, at: int)

  /** The value was answered for the key, and is kept for `ttl` from then. */
  ghost predicate Answered(key: string, s: Stored, answers: seq<Answer>, ttl: int) {
    exists i :: 0 <= i < |answers| && answers[i] == Answer(key, s.value, s.until - ttl)
  }

  /** Whatever is stored under a key of this indexer, it answered. */
  ghost predicate AllAnswered(contents: map<string, Stored>, name: string, answers: seq<Answer>, ttl: int) {
    forall key :: key in contents && IsKeyOf(name, key) ==> Answered(key, contents[key], answers, ttl)
  }

  lemma AnsweredOneMore(contents: map<string, Stored>, name: string, answers: seq<Answer>, ttl: int, a: Answer)
    requires AllAnswered(contents, name, answers, ttl)
    ensures AllAnswered(contents[a.key := Stored(a.value, a.at + ttl)], name, answers + [a], ttl)
  {
    var contents', answers' := contents[a.key := Stored(a.value, a.at + ttl)], answers + [a];
    assert answers'[|answers|] == a;
    forall key | key in contents' && IsKeyOf(name, key) && key != a.key
      ensures Answered(key, contents'[key], answers', ttl)
    {
      assert Answered(key, contents[key], answers, ttl);
      var i :| 0 <= i < |answers| && answers[i] == Answer(key, contents[key].value, contents[key].until - ttl);
      assert answers'[i] == answers[i];
    }
  }

  class CachedIndexer {
    const name: string
    const cache: Cache
    const ttl: int
    ghost var answers: seq<Answer>

    ghost predicate Valid()
      reads this, cache, cache.own
    {
      && cache.Valid() && this !in cache.own && ttl > 0
      && AllAnswered(cache.Contents(), name, answers, ttl)
    }

    /** The cache may hold what other indexers answered, though nothing under the keys
        of this one. */
    constructor (name: string, cache: Cache, ttl: int)
      requires cache.Valid() && forall key :: key in cache.Contents() ==> !IsKeyOf(name, key)
      ensures Valid() && this.name == name && this.cache == cache && answers == []
      ensures this.ttl == if ttl <= 0 then 600_000_000_000 else ttl
    {
      this.name, this.cache := name, cache;
      this.ttl := if ttl <= 0 then 600_000_000_000 else ttl;
      answers := [];
    }

    // A complete answer goes into the cache.
    method Remember(key: string, answer: Response, now: int, ghost parts: set<object>)
      requires Valid() && Owns(answer, parts) && this !in parts && cache !in parts
      modifies this, cache
      ensures Valid() && answers == old(answers) + [Answer(key, old(Value(answer, parts)), now)]
      ensures cache.Contents() == old(cache.Contents())[key := Stored(old(Value(answer, parts)), now + ttl)]
      ensures fresh(cache.own - old(cache.own))
    {
      ghost var a := Answer(key, Value(answer, parts), now);
      ghost var contents := cache.Contents()[key := Stored(a.value, now + ttl)];
      AnsweredOneMore(cache.Contents(), name, answers, ttl, a);
      cache.Put(key, answer, parts, ttl, now);
      assert cache.Contents() == contents;
      answers := answers + [a];
      assert cache.Valid() && cache.Contents() == contents;
      assert AllAnswered(contents, name, answers, ttl);
    }

    // Nothing usable is cached: the indexer is asked, and `answer` is what it says.
    method Ask(key: string, now: int, answer: Response?, failed: bool, ghost parts: set<object>)
        returns (found: Response?, err: bool, ghost own: set<object>)
      requires Valid() && (answer != null ==> Owns(answer, parts)) && this !in parts && cache !in parts
      modifies this, cache
      ensures Valid() && fresh(cache.own - old(cache.own))
      ensures err == failed && (found == null <==> failed || answer == null)
      ensures found != null ==> fresh(own) && Owns(found, own) && Value(found, own) == old(Value(answer, parts))
      ensures if failed || answer == null || old(answer.fields.incomplete)
              then cache.Contents() == old(cache.Contents()) && answers == old(answers)
              else
                && cache.Contents() == old(cache.Contents())[key := Stored(old(Value(answer, parts)), now + ttl)]
                && answers == old(answers) + [Answer(key, old(Value(answer, parts)), now)]
    {
      own := {};
      if failed || answer == null {
        return null, failed, own;
      }
      if !answer.fields.incomplete {
        Remember(key, answer, now, parts);
      }
      err := false;
      found, own := CloneResponse(answer, parts);
    }

    /** A search that nothing interrupts, with the clock as each look and the storing
        read it. What is handed back is a copy, and says either what the indexer says
        or what was stored for the same request; only a complete answer without error
        is remembered, under a key of this indexer. */
    method Search(request: string, looked: int, rechecked: int, stored: int,
                  answer: Response?, failed: bool, ghost parts: set<object>)
        returns (found: Response?, err: bool, ghost own: set<object>)
      requires Valid() && (answer != null ==> Owns(answer, parts)) && this !in parts && cache !in parts
      modifies this, cache
      ensures Valid() && old(answers) <= answers && fresh(cache.own - old(cache.own))
      ensures var key, s := KeyFor(name, request), old(cache.Contents());
              if key in s && (looked <= s[key].until || rechecked <= s[key].until)
              then
                && !err && found != null && fresh(own) && Owns(found, own) && Value(found, own) == s[key].value
                && cache.Contents() == s && answers == old(answers)
              else
                && err == failed && (found == null <==> failed || answer == null)
                && (found != null ==> fresh(own) && Owns(found, own) && Value(found, own) == old(Value(answer, parts)))
                && if failed || answer == null || old(answer.fields.incomplete)
                   then cache.Contents() == s && answers == old(answers)
                   else
                     && cache.Contents() == s[key := Stored(old(Value(answer, parts)), stored + ttl)]
                     && answers == old(answers) + [Answer(key, old(Value(answer, parts)), stored)]
    {
      var key := KeyFor(name, request);
      found, own := cache.Get(key, looked);
      if found != null {
        return found, false, own;
      }
      found, own := cache.Get(key, rechecked);
      if found != null {
        err := false;
        found, own := CloneResponse(found, own);
        return;
      }
      found, err, own := Ask(key, stored, answer, failed, parts);
    }

    /** Every answer given from the cache is one this indexer gave, for the same
        request, no more than `ttl` ago. */
    lemma WhatIsCachedWasAnswered(request: string, now: int) returns (i: nat)
      requires Valid()
      requires KeyFor(name, request) in cache.Contents() && now <= cache.Contents()[KeyFor(name, request)].until
      ensures i < |answers| && answers[i].key == KeyFor(name, request)
      ensures answers[i].value == cache.Contents()[KeyFor(name, request)].value && now <= answers[i].at + ttl
    {
      var key := KeyFor(name, request);
      assert Answered(key, cache.Contents()[key], answers, ttl);
      var s := cache.Contents()[key];
      i :| 0 <= i < |answers| && answers[i] == Answer(key, s.value, s.until - ttl);
    }
  }

  // ---------------------------------------------------------------------------
  // All indexers, in front of which one cache stands

  lemma OthersAreUntouched(contents: map<string, Stored>, key: string, stored: Stored, mine: string,
                           name: string, answers: seq<Answer>, ttl: int)
    requires AllAnswered(contents, name, answers, ttl) && KeysApart(mine, name) && IsKeyOf(mine, key)
    ensures AllAnswered(contents[key := stored], name, answers, ttl)
  {
  }

  class Indexers {
    const cache: Cache
    const all: seq<CachedIndexer>

    ghost predicate Valid()
      reads this, all, cache, cache.own
    {
      && (forall i :: 0 <= i < |all| ==> all[i].cache == cache && all[i].Valid())
      && (forall i, j :: 0 <= i < j < |all| ==> all[i] != all[j] && KeysApart(all[i].name, all[j].name))
    }

    /** Indexers with distinct names, made one after the other on one new cache. */
    constructor (cache: Cache, all: seq<CachedIndexer>)
      requires cache.Valid() && cache.Contents() == map[]
      requires forall i :: 0 <= i < |all| ==> all[i].cache == cache && all[i].Valid() && '|' !in all[i].name
      requires forall i, j :: 0 <= i < j < |all| ==> all[i] != all[j] && all[i].name != all[j].name
      ensures Valid() && this.cache == cache && this.all == all
    {
      this.cache, this.all := cache, all;
      forall i, j | 0 <= i < j < |all| ensures KeysApart(all[i].name, all[j].name) {
        DistinctNamesKeepApart(all[i].name, all[j].name);
      }
    }

    /** Whichever indexer searches, all of them keep their promise: what is stored
        under an indexer's keys, that indexer answered. */
    method Search(i: nat, request: string, looked: int, rechecked: int, stored: int,
                  answer: Response?, failed: bool, ghost parts: set<object>)
        returns (found: Response?, err: bool, ghost own: set<object>)
      requires Valid() && i < |all| && (answer != null ==> Owns(answer, parts))
      requires this !in parts && cache !in parts && forall j :: 0 <= j < |all| ==> all[j] !in parts
      modifies all[i], cache
      ensures Valid() && old(all[i].answers) <= all[i].answers
      ensures forall j :: 0 <= j < |all| && j != i ==> all[j].answers == old(all[j].answers)
      ensures found != null ==> Owns(found, own)
      ensures var key, s := KeyFor(all[i].name, request), old(cache.Contents());
              key in s && looked <= s[key].until ==> found != null && Value(found, own) == s[key].value
    {
      ghost var s := cache.Contents();
      found, err, own := all[i].Search(request, looked, rechecked, stored, answer, failed, parts);
      ghost var key := KeyFor(all[i].name, request);
      forall j | 0 <= j < |all| && j != i
        ensures AllAnswered(cache.Contents(), all[j].name, all[j].answers, all[j].ttl)
      {
        if cache.Contents() != s {
          OthersAreUntouched(s, key, cache.Contents()[key], all[i].name, all[j].name, all[j].answers, all[j].ttl);
        }
      }
    }
  }
}
