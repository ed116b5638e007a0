/** Folding the metadata of the other copies into the one that represents a release. */
module MergeFold {
  import opened Release

  predicate ContainsFold(env: Env, tags: seq<string>, tag: string) {
    exists i :: 0 <= i < |tags| && env.fold(tags[i]) == env.fold(tag)
  }

  function UnionFold(env: Env, into: seq<string>, add: seq<string>): seq<string> {
    if add == [] then into
    else
      var n := |add| - 1;
      var out := UnionFold(env, into, add[..n]);
      if ContainsFold(env, out, add[n]) then out else out + [add[n]]
  }

  predicate Complete(c: Copy) {
    c.poster != "" && c.usenetDate != ""
  }

  // What one variant contributes.
  function Fill(env: Env, p: Copy, v: Copy): Copy {
    var pair := if !Complete(p) && Complete(v) then v else p;
    p.(grabs := if v.grabs > p.grabs then v.grabs else p.grabs,
       size := if p.size == 0 then v.size else p.size,
       pubDate := if p.pubDate == "" then v.pubDate else p.pubDate,
       duration := if p.duration == 0 then v.duration else p.duration,
       poster := pair.poster,
       usenetDate := pair.usenetDate,
       languages := UnionFold(env, p.languages, v.languages),
       subtitles := UnionFold(env, p.subtitles, v.subtitles))
  }

  function FillAll(env: Env, p: Copy, variants: seq<Copy>): Copy {
    if variants == [] then p
    else Fill(env, FillAll(env, p, variants[..|variants| - 1]), variants[|variants| - 1])
  }

  // ---------------------------------------------------------------------------
  // Tags are the case-insensitive union

  lemma ContainsOneMore(env: Env, tags: seq<string>, last: string, tag: string)
    ensures ContainsFold(env, tags + [last], tag) <==> ContainsFold(env, tags, tag) || env.fold(last) == env.fold(tag)
  {
    if ContainsFold(env, tags, tag) {
      var i :| 0 <= i < |tags| && env.fold(tags[i]) == env.fold(tag);
      assert (tags + [last])[i] == tags[i];
    }
    assert (tags + [last])[|tags|] == last;
  }

  /** A tag is in the union exactly when, up to case, it is in one of the two lists. */
  lemma {:induction false} UnionHolds(env: Env, into: seq<string>, add: seq<string>, tag: string)
    ensures ContainsFold(env, UnionFold(env, into, add), tag) <==>
            ContainsFold(env, into, tag) || ContainsFold(env, add, tag)
  {
    if add != [] {
      var n := |add| - 1;
      var out := UnionFold(env, into, add[..n]);
      UnionHolds(env, into, add[..n], tag);
      assert add == add[..n] + [add[n]];
      ContainsOneMore(env, add[..n], add[n], tag);
      ContainsOneMore(env, out, add[n], tag);
    }
  }

  /** The union keeps the first list in front, and what it appends is new, entry by entry. */
  lemma {:induction false} UnionAppendsOnlyNew(env: Env, into: seq<string>, add: seq<string>)
    ensures var out := UnionFold(env, into, add);
            && into <= out
            && forall i :: |into| <= i < |out| ==> out[i] in add && !ContainsFold(env, out[..i], out[i])
  {
    if add != [] {
      var n := |add| - 1;
      var out := UnionFold(env, into, add[..n]);
      UnionAppendsOnlyNew(env, into, add[..n]);
      var out' := UnionFold(env, into, add);
      forall i | |into| <= i < |out'| ensures out'[i] in add && !ContainsFold(env, out'[..i], out'[i]) {
        if i < |out| {
          assert out'[..i] == out[..i];
        } else {
          assert out'[..i] == out;
        }
      }
    }
  }

  lemma {:induction false} NothingNewToUnite(env: Env, into: seq<string>, add: seq<string>)
    requires forall i :: 0 <= i < |add| ==> ContainsFold(env, into, add[i])
    ensures UnionFold(env, into, add) == into
  {
    if add != [] {
      NothingNewToUnite(env, into, add[..|add| - 1]);
    }
  }

  predicate Covers(env: Env, tags: seq<string>, add: seq<string>) {
    forall i :: 0 <= i < |add| ==> ContainsFold(env, tags, add[i])
  }

  lemma UnionCovers(env: Env, into: seq<string>, add: seq<string>, known: seq<string>)
    ensures Covers(env, UnionFold(env, into, add), add)
    ensures Covers(env, into, known) ==> Covers(env, UnionFold(env, into, add), known)
  {
    forall i | 0 <= i < |add| ensures ContainsFold(env, UnionFold(env, into, add), add[i]) {
      UnionHolds(env, into, add, add[i]);
    }
    forall i | 0 <= i < |known| && ContainsFold(env, into, known[i])
      ensures ContainsFold(env, UnionFold(env, into, add), known[i])
    {
      UnionHolds(env, into, add, known[i]);
    }
  }

  // ---------------------------------------------------------------------------
  // Filling is stable: what a variant has given, it does not give again

  /** A variant that has nothing left to give. */
  predicate Absorbed(env: Env, p: Copy, v: Copy) {
    && v.grabs <= p.grabs
    && (p.size == 0 ==> v.size == 0)
    && (p.pubDate == "" ==> v.pubDate == "")
    && (p.duration == 0 ==> v.duration == 0)
    && (Complete(v) ==> Complete(p))
    && Covers(env, p.languages, v.languages)
    && Covers(env, p.subtitles, v.subtitles)
  }

  lemma AbsorbedAddsNothing(env: Env, p: Copy, v: Copy)
    requires Absorbed(env, p, v)
    ensures Fill(env, p, v) == p
  {
    NothingNewToUnite(env, p.languages, v.languages);
    NothingNewToUnite(env, p.subtitles, v.subtitles);
  }

  lemma FillAbsorbs(env: Env, p: Copy, v: Copy)
    ensures Absorbed(env, Fill(env, p, v), v)
  {
    UnionCovers(env, p.languages, v.languages, []);
    UnionCovers(env, p.subtitles, v.subtitles, []);
  }

  lemma FillKeepsAbsorbed(env: Env, p: Copy, w: Copy, v: Copy)
    requires Absorbed(env, p, v)
    ensures Absorbed(env, Fill(env, p, w), v)
  {
    UnionCovers(env, p.languages, w.languages, v.languages);
    UnionCovers(env, p.subtitles, w.subtitles, v.subtitles);
  }

  lemma {:induction false} FillAllAbsorbs(env: Env, p: Copy, variants: seq<Copy>)
    ensures forall i :: 0 <= i < |variants| ==> Absorbed(env, FillAll(env, p, variants), variants[i])
  {
    if variants != [] {
      var n := |variants| - 1;
      var before := FillAll(env, p, variants[..n]);
      FillAllAbsorbs(env, p, variants[..n]);
      forall i | 0 <= i < |variants| ensures Absorbed(env, FillAll(env, p, variants), variants[i]) {
        if i < n {
          assert variants[..n][i] == variants[i];
          FillKeepsAbsorbed(env, before, variants[n], variants[i]);
        } else {
          FillAbsorbs(env, before, variants[n]);
        }
      }
    }
  }

  lemma {:induction false} AllAbsorbedAddNothing(env: Env, p: Copy, variants: seq<Copy>)
    requires forall i :: 0 <= i < |variants| ==> Absorbed(env, p, variants[i])
    ensures FillAll(env, p, variants) == p
  {
    if variants != [] {
      AllAbsorbedAddNothing(env, p, variants[..|variants| - 1]);
      AbsorbedAddsNothing(env, p, variants[|variants| - 1]);
    }
  }

  /** Filling a second time from the same copies changes nothing. */
  lemma FillIsStable(env: Env, p: Copy, variants: seq<Copy>)
    ensures FillAll(env, FillAll(env, p, variants), variants) == FillAll(env, p, variants)
  {
    FillAllAbsorbs(env, p, variants);
    AllAbsorbedAddNothing(env, FillAll(env, p, variants), variants);
  }

  // ---------------------------------------------------------------------------
  // Where each attribute comes from

  // The first copy with the property, or the first one when none has it.
  function First(copies: seq<Copy>, has: Copy -> bool): Copy
    requires copies != []
  {
    var n := |copies| - 1;
    if n == 0 then copies[0]
    else
      var r := First(copies[..n], has);
      if !has(r) && has(copies[n]) then copies[n] else r
  }

  ghost predicate IsFirstAt(copies: seq<Copy>, has: Copy -> bool, i: nat) {
    && i < |copies|
    && (forall j :: 0 <= j < i ==> !has(copies[j]))
    && (!has(copies[i]) ==> i == 0 && forall j :: 0 <= j < |copies| ==> !has(copies[j]))
  }

  lemma {:induction false} FirstIsFirst(copies: seq<Copy>, has: Copy -> bool) returns (i: nat)
    requires copies != []
    ensures IsFirstAt(copies, has, i) && First(copies, has) == copies[i]
  {
    var n := |copies| - 1;
    if n == 0 {
      i := 0;
    } else {
      i := FirstIsFirst(copies[..n], has);
      assert copies[i] == copies[..n][i];
      if !has(copies[i]) && has(copies[n]) {
        assert forall j :: 0 <= j < n ==> copies[j] == copies[..n][j];
        i := n;
      }
    }
  }

  lemma FirstOneMore(copies: seq<Copy>, c: Copy, has: Copy -> bool)
    requires copies != []
    ensures First(copies + [c], has) == if !has(First(copies, has)) && has(c) then c else First(copies, has)
  {
    assert (copies + [c])[..|copies|] == copies;
  }

  function HasSize(): Copy -> bool { (c: Copy) => c.size != 0 }
  function HasPubDate(): Copy -> bool { (c: Copy) => c.pubDate != "" }
  function HasDuration(): Copy -> bool { (c: Copy) => c.duration != 0 }
  function IsComplete(): Copy -> bool { (c: Copy) => Complete(c) }

  /** Size, date and duration come from the first copy that reports one. The poster
      and the usenet date come together, from the first copy that reports both, and
      otherwise stay those of the primary. */
  lemma {:induction false} AttributesComeFromTheFirstThatHasThem(env: Env, p: Copy, variants: seq<Copy>)
    ensures var copies := [p] + variants;
            var f := FillAll(env, p, variants);
            && f.id == p.id
            && f.size == First(copies, HasSize()).size
            && f.pubDate == First(copies, HasPubDate()).pubDate
            && f.duration == First(copies, HasDuration()).duration
            && (f.poster, f.usenetDate) == (First(copies, IsComplete()).poster, First(copies, IsComplete()).usenetDate)
  {
    if variants == [] {
      assert [p] + variants == [p];
    } else {
      var n := |variants| - 1;
      var most := [p] + variants[..n];
      AttributesComeFromTheFirstThatHasThem(env, p, variants[..n]);
      assert [p] + variants == most + [variants[n]];
      FirstOneMore(most, variants[n], HasSize());
      FirstOneMore(most, variants[n], HasPubDate());
      FirstOneMore(most, variants[n], HasDuration());
      FirstOneMore(most, variants[n], IsComplete());
    }
  }

  /** Grabs are the highest any copy reports. */
  lemma {:induction false} GrabsAreTheHighest(env: Env, p: Copy, variants: seq<Copy>)
    ensures var f := FillAll(env, p, variants);
            && (forall c :: c in [p] + variants ==> c.grabs <= f.grabs)
            && exists c :: c in [p] + variants && c.grabs == f.grabs
  {
    if variants == [] {
      assert p in [p] + variants;
    } else {
      var n := |variants| - 1;
      var before := FillAll(env, p, variants[..n]);
      GrabsAreTheHighest(env, p, variants[..n]);
      assert variants == variants[..n] + [variants[n]];
      var c :| c in [p] + variants[..n] && c.grabs == before.grabs;
      assert c in [p] + variants && variants[n] in [p] + variants;
    }
  }

  ghost predicate Tagged(env: Env, copies: seq<Copy>, tagsOf: Copy -> seq<string>, tag: string) {
    exists i :: 0 <= i < |copies| && ContainsFold(env, tagsOf(copies[i]), tag)
  }

  lemma TaggedOneMore(env: Env, p: Copy, variants: seq<Copy>, tagsOf: Copy -> seq<string>, tag: string)
    requires variants != []
    ensures var n := |variants| - 1;
            Tagged(env, [p] + variants, tagsOf, tag)
            <==> Tagged(env, [p] + variants[..n], tagsOf, tag) || ContainsFold(env, tagsOf(variants[n]), tag)
  {
    var n := |variants| - 1;
    var all := [p] + variants;
    var most := [p] + variants[..n];
    assert all == most + [variants[n]];
    if Tagged(env, most, tagsOf, tag) {
      var i :| 0 <= i < |most| && ContainsFold(env, tagsOf(most[i]), tag);
      assert all[i] == most[i];
    }
    assert all[n + 1] == variants[n];
  }

  /** A release carries a tag, up to case, exactly when one of its copies does. */
  lemma {:induction false} TagsAreTheUnion(env: Env, p: Copy, variants: seq<Copy>, tag: string)
    ensures var f := FillAll(env, p, variants);
            && (ContainsFold(env, f.languages, tag) <==> Tagged(env, [p] + variants, (c: Copy) => c.languages, tag))
            && (ContainsFold(env, f.subtitles, tag) <==> Tagged(env, [p] + variants, (c: Copy) => c.subtitles, tag))
  {
    if variants == [] {
      assert ([p] + variants)[0] == p;
    } else {
      var n := |variants| - 1;
      var before := FillAll(env, p, variants[..n]);
      TagsAreTheUnion(env, p, variants[..n], tag);
      UnionHolds(env, before.languages, variants[n].languages, tag);
      UnionHolds(env, before.subtitles, variants[n].subtitles, tag);
      TaggedOneMore(env, p, variants, (c: Copy) => c.languages, tag);
      TaggedOneMore(env, p, variants, (c: Copy) => c.subtitles, tag);
    }
  }
}
