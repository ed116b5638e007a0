/** Who names a category in the merged tree: of all that indexers publish about it, the
    first that has something to say. */
module CategoryNames {
  import opened Basics
  import opened CategoryTree

  // What one entry of a published document says: a category at the top level, or one under
  // another.
  datatype Publication =
    | Top(id: Id, name: string)
    | Under(owner: Id, id: Id, name: string)

  function OfSubs(parent: Id, subs: seq<Sub>): seq<Publication> {
    if subs == [] then []
    else
      var last := subs[|subs| - 1];
      OfSubs(parent, subs[..|subs| - 1])
      + if last.id.None? || last.id.value == parent then []
        else [Under(if Nested(last.id.value) then ParentOf(last.id.value).value else parent, last.id.value, last.name)]
  }

  function OfCategory(cat: Category): seq<Publication> {
    if cat.id.None? then []
    else
      var id := cat.id.value;
      [if Nested(id) then Under(ParentOf(id).value, id, cat.name) else Top(id, cat.name)] + OfSubs(id, cat.subs)
  }

  /** Everything that is published, in the order in which it comes. */
  function OfAll(cats: seq<Category>): seq<Publication> {
    if cats == [] then [] else OfAll(cats[..|cats| - 1]) + OfCategory(cats[|cats| - 1])
  }

  /** A positive number rolls up into its full thousand, wherever it is published; every other
      id stays where it is published. */
  lemma RollsUpIntoItsThousand(id: Id, parent: Id)
    ensures Owner(id, parent) == if id.Num? && id.n > 0 && id.n % 1000 != 0 then Num(id.n - id.n % 1000) else parent
    ensures Nested(id) <==> id.Num? && id.n > 0 && id.n % 1000 != 0
  {
  }

  // ---------------------------------------------------------------------------
  // Merging adds one publication after the other

  function Add(env: Env, tree: Tree, p: Publication): Tree {
    match p
    case Top(id, name) => Named(env, tree, id, name)
    case Under(owner, id, name) => AddSub(env, tree, owner, id, name)
  }

  function AddEach(env: Env, tree: Tree, ps: seq<Publication>): Tree {
    if ps == [] then tree else Add(env, AddEach(env, tree, ps[..|ps| - 1]), ps[|ps| - 1])
  }

  lemma {:induction false} AddBoth(env: Env, tree: Tree, a: seq<Publication>, b: seq<Publication>)
    ensures AddEach(env, tree, a + b) == AddEach(env, AddEach(env, tree, a), b)
  {
    if b == [] {
      assert a + b == a;
    } else {
      InitOfBoth(a, b);
      AddBoth(env, tree, a, b[..|b| - 1]);
    }
  }

  lemma AddOne(env: Env, tree: Tree, p: Publication)
    ensures AddEach(env, tree, [p]) == Add(env, tree, p)
  {
    assert [p][..0] == [];
  }

  lemma {:induction false} SubsAreAdded(env: Env, tree: Tree, parent: Id, subs: seq<Sub>)
    ensures AddSubs(env, tree, parent, subs) == AddEach(env, tree, OfSubs(parent, subs))
  {
    if subs != [] {
      var before, last := subs[..|subs| - 1], subs[|subs| - 1];
      SubsAreAdded(env, tree, parent, before);
      if last.id.Some? && last.id.value != parent {
        var p := Under(Owner(last.id.value, parent), last.id.value, last.name);
        AddBoth(env, tree, OfSubs(parent, before), [p]);
        AddOne(env, AddEach(env, tree, OfSubs(parent, before)), p);
      } else {
        assert OfSubs(parent, subs) == OfSubs(parent, before);
      }
    }
  }

  lemma {:induction false} AllAreAdded(env: Env, cats: seq<Category>)
    ensures AddAll(env, cats) == AddEach(env, map[], OfAll(cats))
  {
    if cats != [] {
      var before, cat := cats[..|cats| - 1], cats[|cats| - 1];
      AllAreAdded(env, before);
      AddBoth(env, map[], OfAll(before), OfCategory(cat));
      if cat.id.Some? {
        var tree, id := AddAll(env, before), cat.id.value;
        var p := if Nested(id) then Under(ParentOf(id).value, id, cat.name) else Top(id, cat.name);
        AddBoth(env, tree, [p], OfSubs(id, cat.subs));
        AddOne(env, tree, p);
        SubsAreAdded(env, Add(env, tree, p), id, cat.subs);
      }
    }
  }

  // ---------------------------------------------------------------------------
  // Subcategories

  function SubName(tree: Tree, r: Id, s: Id): Option<string> {
    if r in tree && s in tree[r].subs then Some(tree[r].subs[s]) else None
  }

  predicate IsUnder(p: Publication, r: Id, s: Id) {
    p.Under? && p.owner == r && p.id == s
  }

  predicate FirstUnder(ps: seq<Publication>, n: nat, r: Id, s: Id) {
    n < |ps| && IsUnder(ps[n], r, s) && forall m :: 0 <= m < n ==> !IsUnder(ps[m], r, s)
  }

  lemma AddNamesSub(env: Env, tree: Tree, p: Publication, r: Id, s: Id)
    ensures SubName(Add(env, tree, p), r, s) ==
              if SubName(tree, r, s).None? && IsUnder(p, r, s) then Some(NameFor(env, s, p.name))
              else SubName(tree, r, s)
  {
  }

  lemma {:induction false} SubIsNamedByFirst(env: Env, ps: seq<Publication>, r: Id, s: Id) returns (n: nat)
    ensures var name := SubName(AddEach(env, map[], ps), r, s);
            && (name.Some? ==> FirstUnder(ps, n, r, s) && name.value == NameFor(env, s, ps[n].name))
            && (name.None? ==> forall m :: 0 <= m < |ps| ==> !IsUnder(ps[m], r, s))
  {
    n := 0;
    if ps != [] {
      var k := |ps| - 1;
      n := SubIsNamedByFirst(env, ps[..k], r, s);
      AddNamesSub(env, AddEach(env, map[], ps[..k]), ps[k], r, s);
      assert forall m :: 0 <= m < k ==> ps[..k][m] == ps[m];
      if SubName(AddEach(env, map[], ps[..k]), r, s).None? {
        n := k;
      }
    }
  }

  /** A subcategory is under a category exactly when somebody published it there; and it has
      its standard name, or else the one the first of them gave it, trimmed. */
  lemma SubIsNamedByTheFirst(env: Env, cats: seq<Category>, r: Id, s: Id) returns (n: nat)
    ensures var tree, ps := AddAll(env, cats), OfAll(cats);
            && (r in tree && s in tree[r].subs <==> exists m :: 0 <= m < |ps| && IsUnder(ps[m], r, s))
            && (r in tree && s in tree[r].subs ==>
                  && FirstUnder(ps, n, r, s)
                  && tree[r].subs[s] == if s in env.standard then env.standard[s] else env.trim(ps[n].name))
  {
    AllAreAdded(env, cats);
    n := SubIsNamedByFirst(env, OfAll(cats), r, s);
  }

  // ---------------------------------------------------------------------------
  // Top-level categories

  predicate About(p: Publication, r: Id) {
    (p.Top? && p.id == r) || (p.Under? && p.owner == r)
  }

  predicate Names(env: Env, p: Publication, r: Id) {
    p.Top? && p.id == r && env.trim(p.name) != ""
  }

  predicate FirstToName(env: Env, ps: seq<Publication>, n: nat, r: Id) {
    n < |ps| && Names(env, ps[n], r) && forall m :: 0 <= m < n ==> !Names(env, ps[m], r)
  }

  ghost predicate NobodyNames(env: Env, ps: seq<Publication>, r: Id) {
    forall m :: 0 <= m < |ps| ==> !Names(env, ps[m], r)
  }

  lemma StillFirstToName(env: Env, ps: seq<Publication>, n: nat, r: Id)
    requires ps != [] && FirstToName(env, ps[..|ps| - 1], n, r)
    ensures FirstToName(env, ps, n, r) && ps[n] == ps[..|ps| - 1][n]
  {
  }

  lemma FirstToNameOrNobody(env: Env, ps: seq<Publication>, r: Id)
    requires ps != [] && NobodyNames(env, ps[..|ps| - 1], r)
    ensures if Names(env, ps[|ps| - 1], r) then FirstToName(env, ps, |ps| - 1, r) else NobodyNames(env, ps, r)
  {
    assert forall m :: 0 <= m < |ps| - 1 ==> ps[..|ps| - 1][m] == ps[m];
  }

  function TopName(tree: Tree, r: Id): Option<string> {
    if r in tree then Some(tree[r].name) else None
  }

  lemma AddNamesTop(env: Env, tree: Tree, p: Publication, r: Id)
    requires env.trim("") == ""
    ensures var before, after := TopName(tree, r), TopName(Add(env, tree, p), r);
            && (!About(p, r) ==> after == before)
            && (About(p, r) ==>
                  after == if before.Some? && before.value != "" then before
                           else Some(if r in env.standard then env.standard[r]
                                     else if p.Top? then env.trim(p.name) else ""))
  {
  }

  lemma {:induction false} TopIsThere(env: Env, ps: seq<Publication>, r: Id)
    requires env.trim("") == ""
    ensures TopName(AddEach(env, map[], ps), r).Some? <==> exists m :: 0 <= m < |ps| && About(ps[m], r)
  {
    if ps != [] {
      var k := |ps| - 1;
      TopIsThere(env, ps[..k], r);
      AddNamesTop(env, AddEach(env, map[], ps[..k]), ps[k], r);
      if TopName(AddEach(env, map[], ps[..k]), r).Some? {
        var m :| 0 <= m < k && About(ps[..k][m], r);
        assert About(ps[m], r);
      }
    }
  }

  lemma {:induction false} TopIsNamedByFirst(env: Env, ps: seq<Publication>, r: Id) returns (n: nat)
    requires env.trim("") == "" && forall id :: id in env.standard ==> env.standard[id] != ""
    ensures var name := TopName(AddEach(env, map[], ps), r);
            && (name.Some? && r in env.standard ==> name.value == env.standard[r])
            && (name.Some? && r !in env.standard && name.value != "" ==>
                  FirstToName(env, ps, n, r) && name.value == env.trim(ps[n].name))
            && (r !in env.standard && (name.None? || name.value == "") ==> NobodyNames(env, ps, r))
  {
    n := 0;
    if ps != [] {
      var k := |ps| - 1;
      n := TopIsNamedByFirst(env, ps[..k], r);
      var before := TopName(AddEach(env, map[], ps[..k]), r);
      AddNamesTop(env, AddEach(env, map[], ps[..k]), ps[k], r);
      if r !in env.standard {
        if before.Some? && before.value != "" {
          StillFirstToName(env, ps, n, r);
        } else {
          FirstToNameOrNobody(env, ps, r);
          n := k;
        }
      }
    }
  }

  /** A category is at the top level exactly when somebody published it or something under it
      there; and it has its standard name, or else the first that is not blank, trimmed, or
      none. */
  lemma TopIsNamedByTheFirst(env: Env, cats: seq<Category>, r: Id) returns (n: nat)
    requires Proper(env)
    ensures var tree, ps := AddAll(env, cats), OfAll(cats);
            && (r in tree <==> exists m :: 0 <= m < |ps| && About(ps[m], r))
            && (r in tree ==>
                  if r in env.standard then tree[r].name == env.standard[r]
                  else if tree[r].name != "" then FirstToName(env, ps, n, r) && tree[r].name == env.trim(ps[n].name)
                  else NobodyNames(env, ps, r))
  {
    AllAreAdded(env, cats);
    TopIsThere(env, OfAll(cats), r);
    n := TopIsNamedByFirst(env, OfAll(cats), r);
  }

  // ---------------------------------------------------------------------------
  // The document

  // The first is a proper start of the second, or smaller where they first differ.
  ghost predicate Earlier(a: string, b: string) {
    exists k: nat :: k <= |a| && k <= |b| && a[..k] == b[..k] && k < |b| && (k == |a| || a[k] < b[k])
  }

  lemma {:induction false} LexLessIsEarlier(a: string, b: string)
    ensures LexLess(a, b) <==> Earlier(a, b)
  {
    if a != [] && b != [] && a[0] == b[0] {
      LexLessIsEarlier(a[1..], b[1..]);
      EarlierBehind(a, b);
    } else {
      if Earlier(a, b) {
        EarlierHeads(a, b);
      }
      assert a[..0] == b[..0];
    }
  }

  lemma EarlierHeads(a: string, b: string)
    requires Earlier(a, b)
    ensures b != [] && (a == [] || a[0] <= b[0])
  {
    var k: nat :| k <= |a| && k <= |b| && a[..k] == b[..k] && k < |b| && (k == |a| || a[k] < b[k]);
    if k > 0 {
      assert a[0] == a[..k][0] == b[..k][0] == b[0];
    }
  }

  lemma EarlierBehind(a: string, b: string)
    requires a != [] && b != [] && a[0] == b[0]
    ensures Earlier(a, b) <==> Earlier(a[1..], b[1..])
  {
    if k: nat :| k <= |a| && k <= |b| && a[..k] == b[..k] && k < |b| && (k == |a| || a[k] < b[k]) {
      assert a[1..][..k - 1] == a[..k][1..] == b[..k][1..] == b[1..][..k - 1];
      assert k - 1 <= |a[1..]|;
    }
    if k: nat :| && k <= |a[1..]| && k <= |b[1..]| && a[1..][..k] == b[1..][..k] && k < |b[1..]|
                 && (k == |a[1..]| || a[1..][k] < b[1..][k]) {
      assert a[..k + 1] == [a[0]] + a[1..][..k] == b[..k + 1];
      assert k + 1 <= |a|;
    }
  }

  // Numbers come first and ascend; other ids follow, in the order of their characters.
  ghost predicate ComesFirst(a: Id, b: Id) {
    if a.Num? && b.Num? then a.n < b.n else if a.Text? && b.Text? then Earlier(a.s, b.s) else a.Num?
  }

  lemma LessComesFirst(a: Id, b: Id)
    ensures Less(a, b) <==> ComesFirst(a, b)
  {
    if a.Text? && b.Text? {
      LexLessIsEarlier(a.s, b.s);
    }
  }

  ghost predicate SubIsPublished(env: Env, sub: Sub, names: map<Id, string>) {
    && sub.id.Some? && sub.id.value in names
    && (names[sub.id.value] != "" ==> sub.name == names[sub.id.value])
    && (names[sub.id.value] == "" ==>
          sub.name == if sub.id.value.Num? then env.decimal(sub.id.value.n) else sub.id.value.s)
  }

  // A category of the document, as the tree has it.
  ghost predicate IsPublished(env: Env, cat: Category, tree: Tree) {
    && cat.id.Some? && cat.id.value in tree
    && (tree[cat.id.value].name != "" ==> cat.name == tree[cat.id.value].name)
    && (tree[cat.id.value].name == "" ==> cat.name == "Other")
    && (forall i :: 0 <= i < |cat.subs| ==> SubIsPublished(env, cat.subs[i], tree[cat.id.value].subs))
    && (forall i, j :: 0 <= i < j < |cat.subs| ==> ComesFirst(cat.subs[i].id.value, cat.subs[j].id.value))
    && (forall s :: s in tree[cat.id.value].subs ==> ListsSub(cat.subs, |cat.subs|, s))
  }

  /** What is published of a tree that is not empty: every category and subcategory of it,
      numbers first and ascending, each by its name; a category without one is "Other", and a
      subcategory without one goes by its id. An empty tree gives the standard document. */
  lemma {:induction false} DocumentListsTheTree(env: Env, published: seq<Category>, doc: seq<Category>)
    requires MergedInto(env, published, doc)
    ensures var tree := AddAll(env, published);
            if tree == map[] then doc == STANDARD_CATEGORIES
            else
              && (forall i :: 0 <= i < |doc| ==> IsPublished(env, doc[i], tree))
              && (forall i, j :: 0 <= i < j < |doc| ==> ComesFirst(doc[i].id.value, doc[j].id.value))
              && (forall r :: r in tree ==> Lists(doc, |doc|, r))
  {
    forall a, b ensures Less(a, b) <==> ComesFirst(a, b) {
      LessComesFirst(a, b);
    }
  }
}
