/** Folding the categories indexers publish into one tree, and the tree into the
    document that is advertised: where each category belongs, what it is called, and
    why merging that document again changes nothing, whether it was made of published
    categories or is the standard one. Functions and limits are merged the same way. */
module CategoryTree {
  import opened Basics

  // Category ids: a number, which is written in one way only, or any other text.
  datatype Id = Num(n: int) | Text(s: string)

  // A blank id is None.
  datatype Sub = Sub(id: Option<Id>, name: string)
  datatype Category = Category(id: Option<Id>, name: string, subs: seq<Sub>)

  // One top-level category under construction; "" is a name not known yet.
  datatype Node = Node(name: string, subs: map<Id, string>)

  // The standard names, trimming, and how a number is written.
  datatype Env = Env(standard: map<Id, string>, trim: string -> string, decimal: int -> string)

  function Written(env: Env, id: Id): string {
    match id
    case Num(n) => env.decimal(n)
    case Text(s) => s
  }

  // An id that is not a number comes trimmed, and a blank one is no id.
  predicate Canonical(env: Env, id: Id) {
    id.Text? ==> id.s != "" && env.trim(id.s) == id.s
  }

  ghost predicate CanonicalSubs(env: Env, subs: seq<Sub>) {
    forall i :: 0 <= i < |subs| && subs[i].id.Some? ==> Canonical(env, subs[i].id.value)
  }

  ghost predicate CanonicalIds(env: Env, cats: seq<Category>) {
    forall i :: 0 <= i < |cats| && cats[i].id.Some? ==>
      Canonical(env, cats[i].id.value) && CanonicalSubs(env, cats[i].subs)
  }

  /** What trimming, writing numbers and the standard names are like. */
  ghost predicate Proper(env: Env) {
    && (forall s :: env.trim(env.trim(s)) == env.trim(s))
    && env.trim("") == "" && env.trim("Other") == "Other"
    && (forall n :: env.decimal(n) != "" && env.trim(env.decimal(n)) == env.decimal(n))
    && (forall id :: id in env.standard ==> env.standard[id] != "")
  }

  // ---------------------------------------------------------------------------
  // Where a category belongs, and what it is called

  // The top-level id an id rolls up into; only a positive number has one.
  function ParentOf(id: Id): Option<Id> {
    if id.Num? && id.n > 0 then Some(Num(id.n / 1000 * 1000)) else None
  }

  predicate Nested(id: Id) {
    ParentOf(id).Some? && ParentOf(id).value != id
  }

  // The category a subcategory published under `parent` goes to.
  function Owner(id: Id, parent: Id): Id {
    if Nested(id) then ParentOf(id).value else parent
  }

  function NameFor(env: Env, id: Id, published: string): string {
    if id in env.standard then env.standard[id] else env.trim(published)
  }

  // ---------------------------------------------------------------------------
  // Adding to the tree

  type Tree = map<Id, Node>

  function NodeAt(tree: Tree, id: Id): Node {
    if id in tree then tree[id] else Node("", map[])
  }

  // The category is in the tree, by this name unless it had one.
  function Named(env: Env, tree: Tree, id: Id, published: string): Tree {
    var node := NodeAt(tree, id);
    tree[id := if node.name == "" then node.(name := NameFor(env, id, published)) else node]
  }

  // The first to publish a subcategory names it.
  function AddSub(env: Env, tree: Tree, owner: Id, id: Id, published: string): Tree {
    var named := Named(env, tree, owner, "");
    var node := named[owner];
    if id in node.subs then named
    else named[owner := node.(subs := node.subs[id := NameFor(env, id, published)])]
  }

  function AddOwnedSub(env: Env, tree: Tree, parent: Id, sub: Sub): Tree {
    if sub.id.None? || sub.id.value == parent then tree
    else AddSub(env, tree, Owner(sub.id.value, parent), sub.id.value, sub.name)
  }

  function AddSubs(env: Env, tree: Tree, parent: Id, subs: seq<Sub>): Tree {
    if subs == [] then tree
    else AddOwnedSub(env, AddSubs(env, tree, parent, subs[..|subs| - 1]), parent, subs[|subs| - 1])
  }

  function Placed(env: Env, tree: Tree, id: Id, name: string): Tree {
    if Nested(id) then AddSub(env, tree, ParentOf(id).value, id, name) else Named(env, tree, id, name)
  }

  function AddCategory(env: Env, tree: Tree, cat: Category): Tree {
    if cat.id.None? then tree
    else AddSubs(env, Placed(env, tree, cat.id.value, cat.name), cat.id.value, cat.subs)
  }

  function AddAll(env: Env, cats: seq<Category>): Tree {
    if cats == [] then map[]
    else AddCategory(env, AddAll(env, cats[..|cats| - 1]), cats[|cats| - 1])
  }

  // ---------------------------------------------------------------------------
  // What every tree keeps

  // A name that naming the category again would give again.
  predicate Settled(env: Env, id: Id, name: string) {
    if id in env.standard then name == env.standard[id] else env.trim(name) == name
  }

  predicate SubInPlace(env: Env, r: Id, s: Id, name: string) {
    s != r && Owner(s, r) == r && Canonical(env, s) && Settled(env, s, name)
  }

  ghost predicate SubsInPlace(env: Env, tree: Tree) {
    forall r, s :: r in tree && s in tree[r].subs ==> SubInPlace(env, r, s, tree[r].subs[s])
  }

  /** A nested id is a category of its own only to hold subcategories, and then its
      parent lists it. */
  ghost predicate NestedInPlace(env: Env, tree: Tree) {
    forall r :: r in tree && Nested(r) ==>
      && ParentOf(r).value in tree && r in tree[ParentOf(r).value].subs
      && tree[r].subs != map[] && tree[r].name == NameFor(env, r, "")
  }

  ghost predicate NamesSettled(env: Env, tree: Tree) {
    forall r :: r in tree ==> Settled(env, r, tree[r].name)
  }

  ghost predicate WellKept(env: Env, tree: Tree) {
    SubsInPlace(env, tree) && NestedInPlace(env, tree) && NamesSettled(env, tree)
  }

  lemma ParentIsNotNested(id: Id)
    requires ParentOf(id).Some?
    ensures !Nested(ParentOf(id).value)
    ensures Nested(id) ==> ParentOf(id).value.n < id.n
  {
    var n := id.n;
    assert n / 1000 * 1000 / 1000 == n / 1000;
    assert n / 1000 * 1000 <= n;
  }

  lemma NameForIsSettled(env: Env, id: Id, published: string)
    requires Proper(env)
    ensures Settled(env, id, NameFor(env, id, published))
  {
  }

  lemma NamedKeeps(env: Env, tree: Tree, id: Id, published: string)
    requires Proper(env) && WellKept(env, tree) && !Nested(id)
    ensures WellKept(env, Named(env, tree, id, published))
  {
    NameForIsSettled(env, id, published);
  }

  // A nested category is listed by its parent.
  ghost predicate ListedIfNested(tree: Tree, id: Id) {
    Nested(id) ==> ParentOf(id).value in tree && id in tree[ParentOf(id).value].subs
  }

  lemma AddSubKeepsSubs(env: Env, tree: Tree, owner: Id, id: Id, published: string)
    requires Proper(env) && SubsInPlace(env, tree) && id != owner && Owner(id, owner) == owner && Canonical(env, id)
    ensures SubsInPlace(env, AddSub(env, tree, owner, id, published))
  {
    NameForIsSettled(env, id, published);
  }

  lemma AddSubKeepsNames(env: Env, tree: Tree, owner: Id, id: Id, published: string)
    requires Proper(env) && NamesSettled(env, tree)
    ensures NamesSettled(env, AddSub(env, tree, owner, id, published))
  {
    NameForIsSettled(env, owner, "");
  }

  lemma AddSubOnlyAdds(env: Env, tree: Tree, owner: Id, id: Id, published: string)
    ensures var tree' := AddSub(env, tree, owner, id, published);
            && owner in tree' && id in tree'[owner].subs
            && (forall r :: r in tree' && r != owner ==> r in tree && tree'[r] == tree[r])
            && (forall r :: r in tree ==> r in tree' && tree[r].subs.Keys <= tree'[r].subs.Keys)
            && tree'[owner].name ==
                 if NodeAt(tree, owner).name == "" then NameFor(env, owner, "") else NodeAt(tree, owner).name
  {
  }

  lemma AddSubKeepsNested(env: Env, tree: Tree, owner: Id, id: Id, published: string)
    requires NestedInPlace(env, tree) && ListedIfNested(tree, owner)
    ensures NestedInPlace(env, AddSub(env, tree, owner, id, published))
  {
    AddSubOnlyAdds(env, tree, owner, id, published);
    var tree' := AddSub(env, tree, owner, id, published);
    forall r | r in tree' && Nested(r)
      ensures ParentOf(r).value in tree' && r in tree'[ParentOf(r).value].subs
      ensures tree'[r].subs != map[] && tree'[r].name == NameFor(env, r, "")
    {
      if r == owner {
        assert id in tree'[owner].subs;
      }
    }
  }

  lemma {:induction false} AddSubKeeps(env: Env, tree: Tree, owner: Id, id: Id, published: string)
    requires Proper(env) && WellKept(env, tree)
    requires id != owner && Owner(id, owner) == owner && Canonical(env, id) && ListedIfNested(tree, owner)
    ensures WellKept(env, AddSub(env, tree, owner, id, published))
  {
    AddSubKeepsSubs(env, tree, owner, id, published);
    AddSubKeepsNames(env, tree, owner, id, published);
    AddSubKeepsNested(env, tree, owner, id, published);
  }

  lemma {:induction false} AddOwnedSubKeeps(env: Env, tree: Tree, parent: Id, sub: Sub)
    requires Proper(env) && WellKept(env, tree) && ListedIfNested(tree, parent)
    requires sub.id.Some? ==> Canonical(env, sub.id.value)
    ensures WellKept(env, AddOwnedSub(env, tree, parent, sub))
    ensures ListedIfNested(AddOwnedSub(env, tree, parent, sub), parent)
  {
    if sub.id.Some? && sub.id.value != parent {
      var id := sub.id.value;
      if Nested(id) {
        ParentIsNotNested(id);
      }
      AddSubKeeps(env, tree, Owner(id, parent), id, sub.name);
      AddSubOnlyAdds(env, tree, Owner(id, parent), id, sub.name);
    }
  }

  lemma {:induction false} AddSubsKeeps(env: Env, tree: Tree, parent: Id, subs: seq<Sub>)
    requires Proper(env) && WellKept(env, tree) && ListedIfNested(tree, parent) && CanonicalSubs(env, subs)
    ensures WellKept(env, AddSubs(env, tree, parent, subs)) && ListedIfNested(AddSubs(env, tree, parent, subs), parent)
  {
    if subs != [] {
      var n := |subs| - 1;
      AddSubsKeeps(env, tree, parent, subs[..n]);
      AddOwnedSubKeeps(env, AddSubs(env, tree, parent, subs[..n]), parent, subs[n]);
    }
  }

  lemma AddCategoryKeeps(env: Env, tree: Tree, cat: Category)
    requires Proper(env) && WellKept(env, tree)
    requires cat.id.Some? ==> Canonical(env, cat.id.value) && CanonicalSubs(env, cat.subs)
    ensures WellKept(env, AddCategory(env, tree, cat))
  {
    if cat.id.Some? {
      var id := cat.id.value;
      if Nested(id) {
        ParentIsNotNested(id);
        AddSubKeeps(env, tree, ParentOf(id).value, id, cat.name);
        AddSubOnlyAdds(env, tree, ParentOf(id).value, id, cat.name);
      } else {
        NamedKeeps(env, tree, id, cat.name);
      }
      AddSubsKeeps(env, Placed(env, tree, id, cat.name), id, cat.subs);
    }
  }

  lemma {:induction false} AlwaysWellKept(env: Env, cats: seq<Category>)
    requires Proper(env) && CanonicalIds(env, cats)
    ensures WellKept(env, AddAll(env, cats))
  {
    if cats != [] {
      AlwaysWellKept(env, cats[..|cats| - 1]);
      AddCategoryKeeps(env, AddAll(env, cats[..|cats| - 1]), cats[|cats| - 1]);
    }
  }

  // ---------------------------------------------------------------------------
  // The document made of a tree

  predicate LexLess(a: string, b: string) {
    b != [] && (a == [] || a[0] < b[0] || (a[0] == b[0] && LexLess(a[1..], b[1..])))
  }

  /** Numbers before names, each in their own order. */
  predicate Less(a: Id, b: Id) {
    match (a, b)
    case (Num(m), Num(n)) => m < n
    case (Num(_), Text(_)) => true
    case (Text(_), Num(_)) => false
    case (Text(s), Text(t)) => LexLess(s, t)
  }

  lemma {:induction false} LexLessIsTotal(a: string, b: string, c: string)
    ensures !LexLess(a, a)
    ensures a != b ==> (LexLess(a, b) <==> !LexLess(b, a))
    ensures LexLess(a, b) && LexLess(b, c) ==> LexLess(a, c)
  {
    if a != [] && b != [] {
      if a[0] == b[0] && a != b {
        assert a[1..] != b[1..] by {
          assert a == [a[0]] + a[1..] && b == [b[0]] + b[1..];
        }
      }
      LexLessIsTotal(a[1..], b[1..], if c == [] then c else c[1..]);
    } else if a != [] {
      LexLessIsTotal(a[1..], [], []);
    }
  }

  lemma LessIsTotal(a: Id, b: Id, c: Id)
    ensures !Less(a, a)
    ensures a != b ==> (Less(a, b) <==> !Less(b, a))
    ensures Less(a, b) && Less(b, c) ==> Less(a, c)
  {
    if a.Text? && b.Text? {
      LexLessIsTotal(a.s, b.s, if c.Text? then c.s else "");
    } else if a.Text? {
      LexLessIsTotal(a.s, a.s, a.s);
    }
  }

  function OutName(name: string): string {
    if name == "" then "Other" else name
  }

  function OutSubName(env: Env, id: Id, name: string): string {
    if name == "" then Written(env, id) else name
  }

  ghost predicate ListsSub(subs: seq<Sub>, k: nat, id: Id)
    requires k <= |subs|
  {
    exists i :: 0 <= i < k && subs[i].id == Some(id)
  }

  ghost predicate Lists(doc: seq<Category>, k: nat, id: Id)
    requires k <= |doc|
  {
    exists i :: 0 <= i < k && doc[i].id == Some(id)
  }

  ghost predicate SubsListed(env: Env, subs: seq<Sub>, names: map<Id, string>) {
    && (forall i :: 0 <= i < |subs| ==> subs[i].id.Some? && subs[i].id.value in names
                                        && subs[i].name == OutSubName(env, subs[i].id.value, names[subs[i].id.value]))
    && (forall i, j :: 0 <= i < j < |subs| ==> Less(subs[i].id.value, subs[j].id.value))
    && (forall id {:trigger ListsSub(subs, |subs|, id)} :: id in names ==> ListsSub(subs, |subs|, id))
  }

  ghost predicate EntryOf(env: Env, cat: Category, tree: Tree) {
    && cat.id.Some? && cat.id.value in tree
    && cat.name == OutName(tree[cat.id.value].name)
    && SubsListed(env, cat.subs, tree[cat.id.value].subs)
  }

  ghost predicate InOrder(doc: seq<Category>) {
    && (forall i :: 0 <= i < |doc| ==> doc[i].id.Some?)
    && (forall i, j :: 0 <= i < j < |doc| ==> Less(doc[i].id.value, doc[j].id.value))
  }

  ghost predicate Covers(doc: seq<Category>, tree: Tree) {
    forall id {:trigger Lists(doc, |doc|, id)} :: id in tree ==> Lists(doc, |doc|, id)
  }

  /** The document of a tree: its categories and their subcategories, in order of id. */
  ghost predicate DocumentOf(env: Env, doc: seq<Category>, tree: Tree) {
    InOrder(doc) && Covers(doc, tree) && forall i :: 0 <= i < |doc| ==> EntryOf(env, doc[i], tree)
  }

  // ---------------------------------------------------------------------------
  // Merging the document again

  function RenewedName(r: Id, name: string): string {
    if Nested(r) then name else OutName(name)
  }

  function RenewedSubs(env: Env, subs: map<Id, string>): map<Id, string> {
    map id | id in subs :: OutSubName(env, id, subs[id])
  }

  function Renewed(env: Env, tree: Tree): Tree {
    map r | r in tree :: Node(RenewedName(r, tree[r].name), RenewedSubs(env, tree[r].subs))
  }

  lemma OutNameIsSettled(env: Env, r: Id, name: string)
    requires Proper(env) && Settled(env, r, name)
    ensures NameFor(env, r, OutName(name)) == OutName(name)
    ensures Canonical(env, r) ==> NameFor(env, r, OutSubName(env, r, name)) == OutSubName(env, r, name)
  {
  }

  // `tree` is `before` and, in it, the first `j` of these subcategories under `r`.
  ghost predicate SubsAdded(before: Tree, r: Id, name: string, subs: seq<Sub>, j: nat, tree: Tree)
    requires j <= |subs|
  {
    && tree.Keys == before.Keys + (if j > 0 || !Nested(r) then {r} else {})
    && (forall q :: q in before ==> tree[q] == before[q])
    && (r in tree ==>
          && tree[r].name == name
          && (forall id :: id in tree[r].subs <==> exists i :: 0 <= i < j && subs[i].id == Some(id))
          && (forall i :: 0 <= i < j && subs[i].id.Some? && subs[i].id.value in tree[r].subs ==>
                tree[r].subs[subs[i].id.value] == subs[i].name))
  }

  lemma NextSubAdded(env: Env, before: Tree, r: Id, name: string, subs: seq<Sub>, j: nat, tree: Tree)
    requires j < |subs| && r !in before && SubsAdded(before, r, name, subs, j, tree)
    requires forall i :: 0 <= i <= j ==> subs[i].id.Some?
    requires forall i :: 0 <= i < j ==> subs[i].id.value != subs[j].id.value
    requires subs[j].id.value != r && Owner(subs[j].id.value, r) == r
    requires NameFor(env, subs[j].id.value, subs[j].name) == subs[j].name
    requires if Nested(r) then name == NameFor(env, r, "") else name != ""
    ensures SubsAdded(before, r, name, subs, j + 1, AddOwnedSub(env, tree, r, subs[j]))
  {
    var id := subs[j].id.value;
    var tree' := AddSub(env, tree, r, id, subs[j].name);
    assert r in tree ==> id !in tree[r].subs;
    assert tree'[r].subs == NodeAt(tree, r).subs[id := subs[j].name];
    forall k ensures k in tree'[r].subs <==> exists i :: 0 <= i < j + 1 && subs[i].id == Some(k) {
      if k == id {
        assert subs[j].id == Some(k);
      }
    }
  }

  lemma {:induction false} SubsAddedOneByOne(env: Env, before: Tree, tree: Tree, r: Id, name: string, subs: seq<Sub>,
                                             j: nat)
    requires j <= |subs| && r !in before && SubsAdded(before, r, name, subs, 0, tree)
    requires forall i :: 0 <= i < |subs| ==>
               && subs[i].id.Some? && subs[i].id.value != r && Owner(subs[i].id.value, r) == r
               && NameFor(env, subs[i].id.value, subs[i].name) == subs[i].name
    requires forall i, k :: 0 <= i < k < |subs| ==> subs[i].id != subs[k].id
    requires if Nested(r) then name == NameFor(env, r, "") else name != ""
    ensures SubsAdded(before, r, name, subs, j, AddSubs(env, tree, r, subs[..j]))
  {
    if j > 0 {
      assert subs[..j][..j - 1] == subs[..j - 1];
      SubsAddedOneByOne(env, before, tree, r, name, subs, j - 1);
      NextSubAdded(env, before, r, name, subs, j - 1, AddSubs(env, tree, r, subs[..j - 1]));
    }
  }

  // The listed subcategories of a well-kept category can be added back as they are.
  lemma ListedSubsFit(env: Env, tree: Tree, r: Id, subs: seq<Sub>)
    requires Proper(env) && WellKept(env, tree) && r in tree && SubsListed(env, subs, tree[r].subs)
    ensures forall i :: 0 <= i < |subs| ==>
              && subs[i].id.Some? && subs[i].id.value != r && Owner(subs[i].id.value, r) == r
              && NameFor(env, subs[i].id.value, subs[i].name) == subs[i].name
    ensures forall i, k :: 0 <= i < k < |subs| ==> subs[i].id != subs[k].id
  {
    forall i | 0 <= i < |subs| ensures NameFor(env, subs[i].id.value, subs[i].name) == subs[i].name {
      OutNameIsSettled(env, subs[i].id.value, tree[r].subs[subs[i].id.value]);
    }
    forall i, k | 0 <= i < k < |subs| ensures subs[i].id != subs[k].id {
      LessIsTotal(subs[i].id.value, subs[k].id.value, subs[i].id.value);
    }
  }

  lemma {:induction false} AllSubsAdded(env: Env, before: Tree, r: Id, name: string, subs: seq<Sub>,
                                        names: map<Id, string>, tree: Tree)
    requires SubsListed(env, subs, names) && r !in before && SubsAdded(before, r, name, subs, |subs|, tree)
    requires Nested(r) ==> names != map[]
    ensures tree == before[r := Node(name, RenewedSubs(env, names))]
  {
    assert Nested(r) ==> subs != [] by {
      if Nested(r) {
        var id :| id in names;
        assert ListsSub(subs, |subs|, id);
        var i :| 0 <= i < |subs| && subs[i].id == Some(id);
      }
    }
    forall id ensures id in tree[r].subs <==> id in names {
      if id in names {
        assert ListsSub(subs, |subs|, id);
      }
    }
    assert tree[r].subs == RenewedSubs(env, names);
  }

  ghost predicate KeysUpTo(doc: seq<Category>, k: nat, again: Tree)
    requires k <= |doc|
  {
    forall r {:trigger Lists(doc, k, r)} :: r in again <==> Lists(doc, k, r)
  }

  ghost predicate AllRenewed(env: Env, tree: Tree, again: Tree) {
    forall r :: r in again ==>
      r in tree && again[r] == Node(RenewedName(r, tree[r].name), RenewedSubs(env, tree[r].subs))
  }

  lemma IndexIsBefore(doc: seq<Category>, p: Id, k: nat, again: Tree)
    requires InOrder(doc) && k < |doc| && KeysUpTo(doc, k, again)
    requires Less(p, doc[k].id.value) && Lists(doc, |doc|, p)
    ensures p in again
  {
    var r := doc[k].id.value;
    var i :| 0 <= i < |doc| && doc[i].id == Some(p);
    LessIsTotal(r, p, r);
    assert i < k by {
      assert i > k ==> Less(r, p);
    }
    assert Lists(doc, k, p);
  }

  lemma NotYetRenewed(doc: seq<Category>, k: nat, again: Tree)
    requires InOrder(doc) && k < |doc| && KeysUpTo(doc, k, again)
    ensures doc[k].id.value !in again
  {
    assert doc[k].id.value in again ==> Lists(doc, k, doc[k].id.value);
    forall i | 0 <= i < k ensures doc[i].id != doc[k].id {
      LessIsTotal(doc[i].id.value, doc[k].id.value, doc[i].id.value);
    }
  }

  lemma {:induction false} ParentCameFirst(env: Env, tree: Tree, doc: seq<Category>, k: nat, again: Tree)
    requires NestedInPlace(env, tree) && InOrder(doc) && Covers(doc, tree) && k < |doc|
    requires KeysUpTo(doc, k, again) && AllRenewed(env, tree, again)
    requires doc[k].id.value in tree && Nested(doc[k].id.value)
    ensures var r := doc[k].id.value;
            var p := ParentOf(r).value;
            p in again && r in again[p].subs && again[p].name != ""
  {
    var r := doc[k].id.value;
    var p := ParentOf(r).value;
    ParentIsNotNested(r);
    assert Less(p, r);
    IndexIsBefore(doc, p, k, again);
  }

  lemma ListedAlready(env: Env, again: Tree, r: Id, name: string)
    requires Nested(r) && ParentOf(r).value in again
    requires r in again[ParentOf(r).value].subs && again[ParentOf(r).value].name != ""
    ensures Placed(env, again, r, name) == again
  {
  }

  lemma {:induction false} PlacedAgain(env: Env, tree: Tree, doc: seq<Category>, k: nat, again: Tree)
    requires Proper(env) && NestedInPlace(env, tree) && NamesSettled(env, tree)
    requires InOrder(doc) && Covers(doc, tree) && k < |doc| && EntryOf(env, doc[k], tree)
    requires KeysUpTo(doc, k, again) && AllRenewed(env, tree, again)
    ensures var r := doc[k].id.value;
            && r !in again
            && SubsAdded(again, r, RenewedName(r, tree[r].name), doc[k].subs, 0, Placed(env, again, r, doc[k].name))
  {
    var r := doc[k].id.value;
    NotYetRenewed(doc, k, again);
    if Nested(r) {
      ParentCameFirst(env, tree, doc, k, again);
      ListedAlready(env, again, r, doc[k].name);
    } else {
      OutNameIsSettled(env, r, tree[r].name);
    }
  }

  // A category placed again, and its subcategories: it is as it was, its names filled in.
  lemma {:induction false} EntryRenewed(env: Env, tree: Tree, cat: Category, again: Tree)
    requires Proper(env) && WellKept(env, tree) && EntryOf(env, cat, tree) && cat.id.value !in again
    requires SubsAdded(again, cat.id.value, RenewedName(cat.id.value, tree[cat.id.value].name), cat.subs, 0,
                       Placed(env, again, cat.id.value, cat.name))
    ensures var r := cat.id.value;
            AddCategory(env, again, cat)
            == again[r := Node(RenewedName(r, tree[r].name), RenewedSubs(env, tree[r].subs))]
  {
    var r := cat.id.value;
    ListedSubsFit(env, tree, r, cat.subs);
    SubsPutBack(env, again, Placed(env, again, r, cat.name), r, RenewedName(r, tree[r].name), cat.subs, tree[r].subs);
  }

  lemma {:induction false} SubsPutBack(env: Env, again: Tree, placed: Tree, r: Id, name: string, subs: seq<Sub>,
                                       names: map<Id, string>)
    requires r !in again && SubsListed(env, subs, names) && SubsAdded(again, r, name, subs, 0, placed)
    requires forall i :: 0 <= i < |subs| ==>
               && subs[i].id.Some? && subs[i].id.value != r && Owner(subs[i].id.value, r) == r
               && NameFor(env, subs[i].id.value, subs[i].name) == subs[i].name
    requires forall i, k :: 0 <= i < k < |subs| ==> subs[i].id != subs[k].id
    requires if Nested(r) then name == NameFor(env, r, "") && names != map[] else name != ""
    ensures AddSubs(env, placed, r, subs) == again[r := Node(name, RenewedSubs(env, names))]
  {
    SubsAddedOneByOne(env, again, placed, r, name, subs, |subs|);
    assert subs[..|subs|] == subs;
    AllSubsAdded(env, again, r, name, subs, names, AddSubs(env, placed, r, subs));
  }

  lemma KeysOneMore(doc: seq<Category>, k: nat, again: Tree, node: Node)
    requires k < |doc| && doc[k].id.Some? && KeysUpTo(doc, k, again)
    ensures KeysUpTo(doc, k + 1, again[doc[k].id.value := node])
  {
    var again' := again[doc[k].id.value := node];
    forall r ensures r in again' <==> Lists(doc, k + 1, r) {
      assert r in again <==> Lists(doc, k, r);
      if r == doc[k].id.value {
        assert doc[k].id == Some(r);
      }
    }
  }

  lemma {:induction false} NextRenewed(env: Env, tree: Tree, doc: seq<Category>, k: nat, again: Tree)
    requires Proper(env) && WellKept(env, tree) && InOrder(doc) && Covers(doc, tree) && k < |doc|
    requires EntryOf(env, doc[k], tree)
    requires KeysUpTo(doc, k, again) && AllRenewed(env, tree, again)
    ensures KeysUpTo(doc, k + 1, AddCategory(env, again, doc[k]))
    ensures AllRenewed(env, tree, AddCategory(env, again, doc[k]))
  {
    var cat := doc[k];
    var node := Node(RenewedName(cat.id.value, tree[cat.id.value].name), RenewedSubs(env, tree[cat.id.value].subs));
    PlacedAgain(env, tree, doc, k, again);
    EntryRenewed(env, tree, cat, again);
    KeysOneMore(doc, k, again, node);
    RenewedOneMore(env, tree, again, cat.id.value, node);
  }

  lemma RenewedOneMore(env: Env, tree: Tree, again: Tree, r: Id, node: Node)
    requires AllRenewed(env, tree, again) && r in tree
    requires node == Node(RenewedName(r, tree[r].name), RenewedSubs(env, tree[r].subs))
    ensures AllRenewed(env, tree, again[r := node])
  {
  }

  lemma AddAllOneMore(env: Env, cats: seq<Category>, k: nat)
    requires k < |cats|
    ensures AddAll(env, cats[..k + 1]) == AddCategory(env, AddAll(env, cats[..k]), cats[k])
  {
    assert cats[..k + 1][..k] == cats[..k];
  }

  // `again` is `tree` with its names filled in, as far as the first `k` categories go.
  ghost predicate RenewedUpTo(env: Env, tree: Tree, doc: seq<Category>, k: nat, again: Tree)
    requires k <= |doc|
  {
    KeysUpTo(doc, k, again) && AllRenewed(env, tree, again)
  }

  lemma {:induction false} NothingRenewed(env: Env, tree: Tree, doc: seq<Category>)
    ensures RenewedUpTo(env, tree, doc, 0, AddAll(env, doc[..0]))
  {
  }

  lemma {:induction false} OneMoreRenewed(env: Env, tree: Tree, doc: seq<Category>, k: nat)
    requires Proper(env) && WellKept(env, tree) && DocumentOf(env, doc, tree) && k < |doc|
    requires RenewedUpTo(env, tree, doc, k, AddAll(env, doc[..k]))
    ensures RenewedUpTo(env, tree, doc, k + 1, AddAll(env, doc[..k + 1]))
  {
    AddAllOneMore(env, doc, k);
    NextRenewed(env, tree, doc, k, AddAll(env, doc[..k]));
  }

  lemma {:induction false} RenewedOneByOne(env: Env, tree: Tree, doc: seq<Category>, k: nat)
    requires Proper(env) && WellKept(env, tree) && DocumentOf(env, doc, tree) && k <= |doc|
    ensures RenewedUpTo(env, tree, doc, k, AddAll(env, doc[..k]))
  {
    if k == 0 {
      NothingRenewed(env, tree, doc);
    } else {
      RenewedOneByOne(env, tree, doc, k - 1);
      OneMoreRenewed(env, tree, doc, k - 1);
    }
  }

  lemma AllKeysRenewed(env: Env, tree: Tree, doc: seq<Category>, again: Tree)
    requires Covers(doc, tree) && KeysUpTo(doc, |doc|, again) && AllRenewed(env, tree, again)
    ensures again == Renewed(env, tree)
  {
    forall r ensures r in again <==> r in tree {
      assert r in again <==> Lists(doc, |doc|, r);
      if r in tree {
        var i :| 0 <= i < |doc| && doc[i].id == Some(r);
      }
    }
  }

  /** The tree of a tree's document is that tree, its names filled in. */
  lemma {:induction false} TreeOfDocument(env: Env, tree: Tree, doc: seq<Category>)
    requires Proper(env) && WellKept(env, tree) && DocumentOf(env, doc, tree)
    ensures AddAll(env, doc) == Renewed(env, tree)
  {
    assert doc[..|doc|] == doc;
    RenewedOneByOne(env, tree, doc, |doc|);
    AllKeysRenewed(env, tree, doc, AddAll(env, doc));
  }

  // ---------------------------------------------------------------------------
  // A tree has one document

  ghost predicate Ascending(ids: seq<Id>) {
    forall i, j :: 0 <= i < j < |ids| ==> Less(ids[i], ids[j])
  }

  lemma LargestAgree(a: seq<Id>, b: seq<Id>)
    requires Ascending(a) && Ascending(b) && a != [] && b != [] && forall id :: id in a <==> id in b
    ensures a[|a| - 1] == b[|b| - 1]
  {
    var x, y := a[|a| - 1], b[|b| - 1];
    assert x in b && y in a;
    LessIsTotal(x, y, x);
  }

  lemma LastIsNotBefore(a: seq<Id>, id: Id)
    requires Ascending(a) && a != []
    ensures id in a[..|a| - 1] <==> id in a && id != a[|a| - 1]
  {
    var n := |a| - 1;
    forall i | 0 <= i < n ensures a[i] != a[n] {
      LessIsTotal(a[i], a[n], a[i]);
    }
    assert id in a <==> id in a[..n] || id == a[n];
  }

  lemma {:induction false} AscendingIsUnique(a: seq<Id>, b: seq<Id>)
    requires Ascending(a) && Ascending(b) && forall id :: id in a <==> id in b
    ensures a == b
  {
    assert (a != [] ==> a[0] in b) && (b != [] ==> b[0] in a);
    if a != [] && b != [] {
      var a0, b0 := a[..|a| - 1], b[..|b| - 1];
      LargestAgree(a, b);
      forall id ensures id in a0 <==> id in b0 {
        LastIsNotBefore(a, id);
        LastIsNotBefore(b, id);
      }
      AscendingIsUnique(a0, b0);
      assert a == a0 + [a[|a| - 1]] && b == b0 + [b[|b| - 1]];
    }
  }

  function SubIds(subs: seq<Sub>): seq<Id>
    requires forall i :: 0 <= i < |subs| ==> subs[i].id.Some?
  {
    seq(|subs|, i requires 0 <= i < |subs| => subs[i].id.value)
  }

  function CategoryIds(doc: seq<Category>): seq<Id>
    requires forall i :: 0 <= i < |doc| ==> doc[i].id.Some?
  {
    seq(|doc|, i requires 0 <= i < |doc| => doc[i].id.value)
  }

  lemma SubsAreUnique(env: Env, a: seq<Sub>, b: seq<Sub>, names: map<Id, string>)
    requires SubsListed(env, a, names) && SubsListed(env, b, names)
    ensures a == b
  {
    forall id ensures id in SubIds(a) <==> id in SubIds(b) {
      SubIdsAre(env, a, names, id);
      SubIdsAre(env, b, names, id);
    }
    AscendingIsUnique(SubIds(a), SubIds(b));
    assert |a| == |SubIds(a)| == |b|;
    forall i | 0 <= i < |a| ensures a[i] == b[i] {
      assert a[i].id.value == SubIds(a)[i] == SubIds(b)[i];
    }
  }

  lemma SubIdsAre(env: Env, a: seq<Sub>, names: map<Id, string>, id: Id)
    requires SubsListed(env, a, names)
    ensures id in SubIds(a) <==> id in names
  {
    if id in names {
      assert ListsSub(a, |a|, id);
      var i :| 0 <= i < |a| && a[i].id == Some(id);
      assert SubIds(a)[i] == id;
    }
  }

  lemma CategoryIdsAre(doc: seq<Category>, tree: Tree, id: Id)
    requires InOrder(doc) && Covers(doc, tree) && forall i :: 0 <= i < |doc| ==> doc[i].id.value in tree
    ensures id in CategoryIds(doc) <==> id in tree
  {
    if id in tree {
      assert Lists(doc, |doc|, id);
      var i :| 0 <= i < |doc| && doc[i].id == Some(id);
      assert CategoryIds(doc)[i] == id;
    }
  }

  lemma DocumentIsUnique(env: Env, a: seq<Category>, b: seq<Category>, tree: Tree)
    requires DocumentOf(env, a, tree) && DocumentOf(env, b, tree)
    ensures a == b
  {
    forall id ensures id in CategoryIds(a) <==> id in CategoryIds(b) {
      CategoryIdsAre(a, tree, id);
      CategoryIdsAre(b, tree, id);
    }
    AscendingIsUnique(CategoryIds(a), CategoryIds(b));
    assert |a| == |CategoryIds(a)| == |b|;
    forall i | 0 <= i < |a| ensures a[i] == b[i] {
      assert a[i].id.value == CategoryIds(a)[i] == CategoryIds(b)[i];
      assert EntryOf(env, a[i], tree) && EntryOf(env, b[i], tree);
      SubsAreUnique(env, a[i].subs, b[i].subs, tree[a[i].id.value].subs);
    }
  }

  lemma RenewedSubsListed(env: Env, subs: seq<Sub>, names: map<Id, string>)
    requires Proper(env) && SubsListed(env, subs, names)
    ensures SubsListed(env, subs, RenewedSubs(env, names))
  {
  }

  lemma {:induction false} RenewedDocument(env: Env, doc: seq<Category>, tree: Tree)
    requires Proper(env) && DocumentOf(env, doc, tree)
    ensures DocumentOf(env, doc, Renewed(env, tree))
  {
    forall i | 0 <= i < |doc| ensures EntryOf(env, doc[i], Renewed(env, tree)) {
      assert EntryOf(env, doc[i], tree);
      RenewedSubsListed(env, doc[i].subs, tree[doc[i].id.value].subs);
    }
  }

  /** Merging the document of a well-kept tree gives that document again. */
  lemma {:induction false} DocumentStands(env: Env, tree: Tree, doc: seq<Category>, again: seq<Category>)
    requires Proper(env) && WellKept(env, tree) && DocumentOf(env, doc, tree)
    requires DocumentOf(env, again, AddAll(env, doc))
    ensures again == doc
  {
    TreeOfDocument(env, tree, doc);
    RenewedDocument(env, doc, tree);
    DocumentIsUnique(env, again, doc, Renewed(env, tree));
  }

  // ---------------------------------------------------------------------------
  // The standard tree

  function Root(n: int, name: string, subs: seq<(int, string)>): Category {
    Category(Some(Num(n)), name, seq(|subs|, i requires 0 <= i < |subs| => Sub(Some(Num(subs[i].0)), subs[i].1)))
  }

  const CONSOLE := [
    (1010, "NDS"), (1020, "PSP"), (1030, "Wii"), (1040, "XBox"), (1050, "XBox 360"), (1060, "Wiiware/VC"),
    (1070, "XBox 360 DLC"), (1080, "PS3"), (1090, "Other"), (1110, "3DS"), (1120, "PS Vita"), (1130, "WiiU"),
    (1140, "XBox One"), (1180, "PS4")]
  const MOVIES := [
    (2010, "Foreign"), (2020, "Other"), (2030, "SD"), (2040, "HD"), (2045, "UHD"), (2050, "BluRay"), (2060, "3D"),
    (2070, "DVD"), (2080, "WEB-DL")]
  const AUDIO := [
    (3010, "MP3"), (3020, "Video"), (3030, "Audiobook"), (3040, "Lossless"), (3050, "Other"), (3060, "Foreign")]
  const PC := [
    (4010, "0day"), (4020, "ISO"), (4030, "Mac"), (4040, "Mobile-Other"), (4050, "Games"), (4060, "Mobile-iOS"),
    (4070, "Mobile-Android")]
  const TV := [
    (5010, "WEB-DL"), (5020, "Foreign"), (5030, "SD"), (5040, "HD"), (5045, "UHD"), (5050, "Other"), (5060, "Sport"),
    (5070, "Anime"), (5080, "Documentary")]
  const XXX := [
    (6010, "DVD"), (6020, "WMV"), (6030, "XviD"), (6040, "x264"), (6045, "Pack"), (6050, "ImageSet"), (6060, "Other"),
    (6070, "SD"), (6080, "WEB-DL"), (6090, "UHD")]
  const BOOKS := [
    (7010, "Mags"), (7020, "EBook"), (7030, "Comics"), (7040, "Technical"), (7050, "Other"), (7060, "Foreign")]
  const OTHER := [(8010, "Misc"), (8020, "Hashed")]

  const STANDARD_CATEGORIES := [
    Root(1000, "Console", CONSOLE), Root(2000, "Movies", MOVIES), Root(3000, "Audio", AUDIO), Root(4000, "PC", PC),
    Root(5000, "TV", TV), Root(6000, "XXX", XXX), Root(7000, "Books", BOOKS), Root(8000, "Other", OTHER)]

  // The subcategories of one thousand, in order and named.
  predicate Shelf(n: int, subs: seq<(int, string)>) {
    && (forall i :: 0 <= i < |subs| ==> n < subs[i].0 < n + 1000 && subs[i].1 != "")
    && (forall i :: 0 < i < |subs| ==> subs[i - 1].0 < subs[i].0)
  }

  lemma {:induction false} ShelfAscends(n: int, subs: seq<(int, string)>, i: nat, j: nat)
    requires Shelf(n, subs) && i < j < |subs|
    ensures subs[i].0 < subs[j].0
    decreases j
  {
    if i + 1 < j { ShelfAscends(n, subs, i, j - 1); }
  }

  /** A category at the top level as a caps document should carry it. */
  ghost predicate Tidy(env: Env, cat: Category) {
    && cat.id.Some? && !Nested(cat.id.value) && cat.name != "" && Settled(env, cat.id.value, cat.name)
    && (forall i :: 0 <= i < |cat.subs| ==>
          && cat.subs[i].id.Some? && cat.subs[i].name != ""
          && SubInPlace(env, cat.id.value, cat.subs[i].id.value, cat.subs[i].name))
    && (forall i, j :: 0 <= i < j < |cat.subs| ==> Less(cat.subs[i].id.value, cat.subs[j].id.value))
  }

  ghost predicate TidyDocument(env: Env, doc: seq<Category>) {
    InOrder(doc) && forall i :: 0 <= i < |doc| ==> Tidy(env, doc[i])
  }

  // The standard names are those of these categories.
  ghost predicate NamedBy(standard: map<Id, string>, doc: seq<Category>) {
    forall i :: 0 <= i < |doc| && doc[i].id.Some? ==>
      && doc[i].id.value in standard && standard[doc[i].id.value] == doc[i].name
      && forall j :: 0 <= j < |doc[i].subs| && doc[i].subs[j].id.Some? ==>
           doc[i].subs[j].id.value in standard && standard[doc[i].subs[j].id.value] == doc[i].subs[j].name
  }

  lemma RootIsTidy(env: Env, cat: Category, n: int, name: string, subs: seq<(int, string)>)
    requires cat == Root(n, name, subs) && Shelf(n, subs) && n % 1000 == 0 < n && name != ""
    requires NamedBy(env.standard, [cat])
    ensures Tidy(env, cat)
  {
    assert [cat][0] == cat;
    forall i | 0 <= i < |cat.subs| ensures SubInPlace(env, Num(n), cat.subs[i].id.value, cat.subs[i].name) {
      assert cat.subs[i] == Sub(Some(Num(subs[i].0)), subs[i].1);
      assert subs[i].0 / 1000 * 1000 == n;
    }
    forall i, j | 0 <= i < j < |subs| ensures Less(cat.subs[i].id.value, cat.subs[j].id.value) {
      ShelfAscends(n, subs, i, j);
    }
  }

  lemma ConsoleShelf() ensures Shelf(1000, CONSOLE) {}
  lemma MoviesShelf() ensures Shelf(2000, MOVIES) {}
  lemma AudioShelf() ensures Shelf(3000, AUDIO) {}
  lemma PCShelf() ensures Shelf(4000, PC) {}
  lemma TVShelf() ensures Shelf(5000, TV) {}
  lemma XxxShelf() ensures Shelf(6000, XXX) {}
  lemma BooksShelf() ensures Shelf(7000, BOOKS) {}
  lemma OtherShelf() ensures Shelf(8000, OTHER) {}

  lemma NamedByEach(standard: map<Id, string>, doc: seq<Category>, i: nat)
    requires NamedBy(standard, doc) && i < |doc|
    ensures NamedBy(standard, [doc[i]])
  {
  }

  lemma {:induction false} StandardIsTidy(env: Env)
    requires NamedBy(env.standard, STANDARD_CATEGORIES)
    ensures TidyDocument(env, STANDARD_CATEGORIES)
  {
    var doc := STANDARD_CATEGORIES;
    forall i | 0 <= i < |doc| ensures Tidy(env, doc[i]) {
      NamedByEach(env.standard, doc, i);
      match i
      case 0 => ConsoleShelf(); RootIsTidy(env, doc[0], 1000, "Console", CONSOLE);
      case 1 => MoviesShelf(); RootIsTidy(env, doc[1], 2000, "Movies", MOVIES);
      case 2 => AudioShelf(); RootIsTidy(env, doc[2], 3000, "Audio", AUDIO);
      case 3 => PCShelf(); RootIsTidy(env, doc[3], 4000, "PC", PC);
      case 4 => TVShelf(); RootIsTidy(env, doc[4], 5000, "TV", TV);
      case 5 => XxxShelf(); RootIsTidy(env, doc[5], 6000, "XXX", XXX);
      case 6 => BooksShelf(); RootIsTidy(env, doc[6], 7000, "Books", BOOKS);
      case 7 => OtherShelf(); RootIsTidy(env, doc[7], 8000, "Other", OTHER);
    }
  }

  // The tree a document lists.
  function NamesOf(subs: seq<Sub>): map<Id, string> {
    if subs == [] then map[]
    else
      var last := subs[|subs| - 1];
      if last.id.None? then NamesOf(subs[..|subs| - 1]) else NamesOf(subs[..|subs| - 1])[last.id.value := last.name]
  }

  function ListedTree(doc: seq<Category>): Tree {
    if doc == [] then map[]
    else
      var last := doc[|doc| - 1];
      if last.id.None? then ListedTree(doc[..|doc| - 1])
      else ListedTree(doc[..|doc| - 1])[last.id.value := Node(last.name, NamesOf(last.subs))]
  }

  lemma {:induction false} NamesOfAll(subs: seq<Sub>)
    requires forall i :: 0 <= i < |subs| ==> subs[i].id.Some?
    requires forall i, j :: 0 <= i < j < |subs| ==> subs[i].id != subs[j].id
    ensures forall i :: 0 <= i < |subs| ==>
              subs[i].id.value in NamesOf(subs) && NamesOf(subs)[subs[i].id.value] == subs[i].name
    ensures forall id :: id in NamesOf(subs) ==> ListsSub(subs, |subs|, id)
  {
    if subs != [] {
      var n := |subs| - 1;
      NamesOfAll(subs[..n]);
      forall id | id in NamesOf(subs) ensures ListsSub(subs, |subs|, id) {
        if id != subs[n].id.value {
          var i :| 0 <= i < n && subs[..n][i].id == Some(id);
          assert subs[i].id == Some(id);
        } else {
          assert subs[n].id == Some(id);
        }
      }
    }
  }

  lemma {:induction false} ListedTreeOfAll(doc: seq<Category>)
    requires forall i :: 0 <= i < |doc| ==> doc[i].id.Some?
    requires forall i, j :: 0 <= i < j < |doc| ==> doc[i].id != doc[j].id
    ensures forall i :: 0 <= i < |doc| ==>
              doc[i].id.value in ListedTree(doc)
              && ListedTree(doc)[doc[i].id.value] == Node(doc[i].name, NamesOf(doc[i].subs))
    ensures forall r :: r in ListedTree(doc) ==> Lists(doc, |doc|, r)
  {
    if doc != [] {
      var n := |doc| - 1;
      ListedTreeOfAll(doc[..n]);
      forall r | r in ListedTree(doc) ensures Lists(doc, |doc|, r) {
        if r != doc[n].id.value {
          var i :| 0 <= i < n && doc[..n][i].id == Some(r);
          assert doc[i].id == Some(r);
        } else {
          assert doc[n].id == Some(r);
        }
      }
    }
  }

  lemma AscendingIdsDiffer(ids: seq<Option<Id>>)
    requires forall i :: 0 <= i < |ids| ==> ids[i].Some?
    requires forall i, j :: 0 <= i < j < |ids| ==> Less(ids[i].value, ids[j].value)
    ensures forall i, j :: 0 <= i < j < |ids| ==> ids[i] != ids[j]
  {
    forall i, j | 0 <= i < j < |ids| ensures ids[i] != ids[j] {
      LessIsTotal(ids[i].value, ids[j].value, ids[i].value);
    }
  }

  lemma TidySubsAreListed(env: Env, cat: Category)
    requires Tidy(env, cat)
    ensures SubsListed(env, cat.subs, NamesOf(cat.subs))
    ensures forall s :: s in NamesOf(cat.subs) ==> SubInPlace(env, cat.id.value, s, NamesOf(cat.subs)[s])
  {
    var ids := seq(|cat.subs|, i requires 0 <= i < |cat.subs| => cat.subs[i].id);
    AscendingIdsDiffer(ids);
    assert forall i :: 0 <= i < |cat.subs| ==> ids[i] == cat.subs[i].id;
    NamesOfAll(cat.subs);
  }

  /** A tidy document is the document of the tree it lists, and that tree is well kept. */
  lemma {:induction false} TidyDocumentsAreKept(env: Env, doc: seq<Category>)
    requires TidyDocument(env, doc)
    ensures DocumentOf(env, doc, ListedTree(doc)) && WellKept(env, ListedTree(doc))
  {
    var tree := ListedTree(doc);
    var ids := seq(|doc|, i requires 0 <= i < |doc| => doc[i].id);
    AscendingIdsDiffer(ids);
    assert forall i :: 0 <= i < |doc| ==> ids[i] == doc[i].id;
    ListedTreeOfAll(doc);
    forall i | 0 <= i < |doc| ensures EntryOf(env, doc[i], tree) {
      TidySubsAreListed(env, doc[i]);
    }
    forall r | r in tree
      ensures !Nested(r) && Settled(env, r, tree[r].name)
      ensures forall s :: s in tree[r].subs ==> SubInPlace(env, r, s, tree[r].subs[s])
    {
      var i :| 0 <= i < |doc| && doc[i].id == Some(r);
      TidySubsAreListed(env, doc[i]);
    }
  }

  // ---------------------------------------------------------------------------
  // Merging twice

  /** What merging gives: the document of the tree, or the standard one when that is empty. */
  ghost predicate MergedInto(env: Env, published: seq<Category>, doc: seq<Category>) {
    if AddAll(env, published) == map[] then doc == STANDARD_CATEGORIES else DocumentOf(env, doc, AddAll(env, published))
  }

  lemma SomethingIsKept(env: Env, tree: Tree, doc: seq<Category>)
    requires Proper(env) && WellKept(env, tree) && DocumentOf(env, doc, tree) && tree != map[]
    ensures AddAll(env, doc) != map[]
  {
    TreeOfDocument(env, tree, doc);
    var r :| r in tree;
    assert r in Renewed(env, tree);
  }

  /** Merging a merged document gives that document again, whether it was made of
      published categories or is the standard one. */
  lemma {:induction false} MergingAgainIsTheSame(env: Env, published: seq<Category>, doc: seq<Category>,
                                                 again: seq<Category>)
    requires Proper(env) && CanonicalIds(env, published) && NamedBy(env.standard, STANDARD_CATEGORIES)
    requires MergedInto(env, published, doc) && MergedInto(env, doc, again)
    ensures again == doc
  {
    var tree := AddAll(env, published);
    if tree == map[] {
      StandardIsTidy(env);
      TidyDocumentsAreKept(env, doc);
      tree := ListedTree(doc);
      assert doc[0].id.value in tree;
    } else {
      AlwaysWellKept(env, published);
    }
    SomethingIsKept(env, tree, doc);
    DocumentStands(env, tree, doc, again);
  }

  // ---------------------------------------------------------------------------
  // What is offered

  ghost predicate Offered(tree: Tree, id: Id) {
    id in tree || exists r :: r in tree && id in tree[r].subs
  }

  function WithParent(id: Id): set<Id> {
    if Nested(id) then {id, ParentOf(id).value} else {id}
  }

  function GivenBySubs(subs: seq<Sub>): set<Id> {
    if subs == [] then {}
    else
      var last := subs[|subs| - 1];
      GivenBySubs(subs[..|subs| - 1]) + if last.id.None? then {} else WithParent(last.id.value)
  }

  function Given(cat: Category): set<Id> {
    if cat.id.None? then {} else WithParent(cat.id.value) + GivenBySubs(cat.subs)
  }

  function GivenByAll(cats: seq<Category>): set<Id> {
    if cats == [] then {} else GivenByAll(cats[..|cats| - 1]) + Given(cats[|cats| - 1])
  }

  lemma NamedOffers(env: Env, tree: Tree, r: Id, published: string, id: Id)
    ensures Offered(Named(env, tree, r, published), id) <==> Offered(tree, id) || id == r
  {
    var tree' := Named(env, tree, r, published);
    if Offered(tree, id) && id !in tree {
      var q :| q in tree && id in tree[q].subs;
      assert q in tree' && id in tree'[q].subs;
    }
  }

  lemma AddSubOffers(env: Env, tree: Tree, owner: Id, sub: Id, published: string, id: Id)
    ensures Offered(AddSub(env, tree, owner, sub, published), id) <==> Offered(tree, id) || id == owner || id == sub
  {
    var named, tree' := Named(env, tree, owner, ""), AddSub(env, tree, owner, sub, published);
    NamedOffers(env, tree, owner, "", id);
    assert sub in tree'[owner].subs;
    if Offered(named, id) && id !in named {
      var q :| q in named && id in named[q].subs;
      assert q in tree' && id in tree'[q].subs;
    }
  }

  lemma {:induction false} AddSubsOffers(env: Env, tree: Tree, parent: Id, subs: seq<Sub>, id: Id)
    requires forall x :: x in WithParent(parent) ==> Offered(tree, x)
    ensures Offered(AddSubs(env, tree, parent, subs), id) <==> Offered(tree, id) || id in GivenBySubs(subs)
  {
    if subs != [] {
      var before, last := subs[..|subs| - 1], subs[|subs| - 1];
      AddSubsOffers(env, tree, parent, before, id);
      if last.id.Some? && last.id.value != parent {
        AddSubOffers(env, AddSubs(env, tree, parent, before), Owner(last.id.value, parent), last.id.value, last.name,
                     id);
      }
    }
  }

  lemma AddCategoryOffers(env: Env, tree: Tree, cat: Category, id: Id)
    ensures Offered(AddCategory(env, tree, cat), id) <==> Offered(tree, id) || id in Given(cat)
  {
    if cat.id.Some? {
      var r := cat.id.value;
      var placed := Placed(env, tree, r, cat.name);
      forall x ensures Offered(placed, x) <==> Offered(tree, x) || x in WithParent(r) {
        if Nested(r) {
          AddSubOffers(env, tree, ParentOf(r).value, r, cat.name, x);
        } else {
          NamedOffers(env, tree, r, cat.name, x);
        }
      }
      AddSubsOffers(env, placed, r, cat.subs, id);
    }
  }

  /** Merging offers exactly the categories that were published, and the top-level
      categories they roll up into. */
  lemma {:induction false} OffersExactlyWhatIsPublished(env: Env, published: seq<Category>, id: Id)
    ensures Offered(AddAll(env, published), id) <==> id in GivenByAll(published)
  {
    if published != [] {
      var n := |published| - 1;
      OffersExactlyWhatIsPublished(env, published[..n], id);
      AddCategoryOffers(env, AddAll(env, published[..n]), published[n], id);
    }
  }

  // ---------------------------------------------------------------------------
  // The loops

  method AddCategoryTo(env: Env, tree: Tree, cat: Category) returns (tree': Tree)
    ensures tree' == AddCategory(env, tree, cat)
  {
    tree' := tree;
    if cat.id.None? {
      return;
    }
    var id := cat.id.value;
    if Nested(id) {
      tree' := AddSub(env, tree', ParentOf(id).value, id, cat.name);
    } else {
      tree' := Named(env, tree', id, cat.name);
    }
    ghost var placed := tree';
    for i := 0 to |cat.subs|
      invariant tree' == AddSubs(env, placed, id, cat.subs[..i])
    {
      assert cat.subs[..i + 1][..i] == cat.subs[..i];
      var sub := cat.subs[i];
      if sub.id.None? || sub.id.value == id {
        continue;
      }
      tree' := AddSub(env, tree', Owner(sub.id.value, id), sub.id.value, sub.name);
    }
    assert cat.subs[..|cat.subs|] == cat.subs;
  }

  method SortIds(ids: set<Id>) returns (sorted: seq<Id>)
    ensures Ascending(sorted) && forall id :: id in sorted <==> id in ids
  {
    sorted := [];
    var left := ids;
    while left != {}
      invariant Ascending(sorted) && left <= ids
      invariant forall id :: id in sorted <==> id in ids && id !in left
      decreases left
    {
      var id :| id in left;
      sorted := InsertId(sorted, id);
      left := left - {id};
    }
  }

  method InsertId(sorted: seq<Id>, id: Id) returns (longer: seq<Id>)
    requires Ascending(sorted) && id !in sorted
    ensures Ascending(longer) && forall x :: x in longer <==> x in sorted || x == id
  {
    var k := |sorted|;
    while k > 0 && Less(id, sorted[k - 1])
      invariant 0 <= k <= |sorted|
      invariant forall j :: k <= j < |sorted| ==> Less(id, sorted[j])
    {
      k := k - 1;
    }
    longer := sorted[..k] + [id] + sorted[k..];
    InsertedIsAscending(sorted, id, k);
  }

  lemma InsertedIsAscending(sorted: seq<Id>, id: Id, k: nat)
    requires Ascending(sorted) && id !in sorted && k <= |sorted|
    requires forall j :: k <= j < |sorted| ==> Less(id, sorted[j])
    requires k > 0 ==> !Less(id, sorted[k - 1])
    ensures Ascending(sorted[..k] + [id] + sorted[k..])
  {
    forall j | 0 <= j < k ensures Less(sorted[j], id) {
      LessIsTotal(id, sorted[k - 1], id);
      LessIsTotal(sorted[j], sorted[k - 1], id);
    }
  }

  method ListSubs(env: Env, names: map<Id, string>) returns (subs: seq<Sub>)
    ensures SubsListed(env, subs, names)
  {
    var ids := SortIds(names.Keys);
    subs := [];
    for i := 0 to |ids|
      invariant |subs| == i
      invariant forall j :: 0 <= j < i ==> subs[j] == Sub(Some(ids[j]), OutSubName(env, ids[j], names[ids[j]]))
    {
      subs := subs + [Sub(Some(ids[i]), if names[ids[i]] == "" then Written(env, ids[i]) else names[ids[i]])];
    }
    forall id | id in names ensures ListsSub(subs, |subs|, id) {
      var i :| 0 <= i < |ids| && ids[i] == id;
      assert subs[i].id == Some(id);
    }
  }

  method ListTree(env: Env, tree: Tree) returns (doc: seq<Category>)
    ensures DocumentOf(env, doc, tree)
  {
    var ids := SortIds(tree.Keys);
    doc := [];
    for i := 0 to |ids|
      invariant |doc| == i
      invariant forall j :: 0 <= j < i ==> doc[j].id == Some(ids[j]) && EntryOf(env, doc[j], tree)
    {
      var node := tree[ids[i]];
      var subs := ListSubs(env, node.subs);
      doc := doc + [Category(Some(ids[i]), if node.name == "" then "Other" else node.name, subs)];
    }
    forall id | id in tree ensures Lists(doc, |doc|, id) {
      var i :| 0 <= i < |ids| && ids[i] == id;
      assert doc[i].id == Some(id);
    }
  }

  /** What indexers publish, one after the other, or the standard tree when that is nothing. */
  method MergeCategories(env: Env, published: seq<Category>) returns (doc: seq<Category>)
    ensures MergedInto(env, published, doc)
  {
    var tree: Tree := map[];
    for i := 0 to |published|
      invariant tree == AddAll(env, published[..i])
    {
      assert published[..i + 1][..i] == published[..i];
      tree := AddCategoryTo(env, tree, published[i]);
    }
    assert published[..|published|] == published;
    if |tree| == 0 {
      return STANDARD_CATEGORIES;
    }
    doc := ListTree(env, tree);
  }

  // ---------------------------------------------------------------------------
  // Functions and limits

  // A search function: whether it is there, and the parameters it takes.
  datatype Function = Function(on: bool, params: map<string, bool>)

  datatype Surface = Surface(search: Function, tv: Function, movie: Function, audio: Function, book: Function,
                             max: int, standard: int, retention: int)

  const NO_FUNCTION := Function(false, map[])
  const NO_SURFACE := Surface(NO_FUNCTION, NO_FUNCTION, NO_FUNCTION, NO_FUNCTION, NO_FUNCTION, 0, 0, 0)

  function MergeParams(into: map<string, bool>, from: map<string, bool>): map<string, bool> {
    into + map p | p in from && from[p] :: true
  }

  function MergeFunction(a: Function, b: Function): Function {
    Function(a.on || b.on, MergeParams(a.params, b.params))
  }

  function MergeSurface(a: Surface, b: Surface): Surface {
    Surface(MergeFunction(a.search, b.search), MergeFunction(a.tv, b.tv), MergeFunction(a.movie, b.movie),
            MergeFunction(a.audio, b.audio), MergeFunction(a.book, b.book),
            Max(a.max, b.max), Max(a.standard, b.standard), Max(a.retention, b.retention))
  }

  function MergeSurfaces(published: seq<Surface>): Surface {
    if published == [] then NO_SURFACE
    else MergeSurface(MergeSurfaces(published[..|published| - 1]), published[|published| - 1])
  }

  function OrHundred(n: int): int {
    if n <= 0 then 100 else n
  }

  // Defaults for what nobody published; the default page is no larger than the largest.
  function Advertised(published: seq<Surface>): Surface {
    var merged := MergeSurfaces(published);
    var s := if published == []
             then merged.(search := merged.search.(on := true), tv := merged.tv.(on := true),
                          movie := merged.movie.(on := true))
             else merged;
    var max, standard := OrHundred(s.max), OrHundred(s.standard);
    s.(max := max, standard := if standard > max then max else standard)
  }

  predicate OnlyAccepted(params: map<string, bool>) {
    forall p :: p in params ==> params[p]
  }

  ghost predicate Merged(s: Surface) {
    && OnlyAccepted(s.search.params) && OnlyAccepted(s.tv.params) && OnlyAccepted(s.movie.params)
    && OnlyAccepted(s.audio.params) && OnlyAccepted(s.book.params) && s.retention >= 0
  }

  lemma {:induction false} AlwaysMerged(published: seq<Surface>)
    ensures Merged(MergeSurfaces(published))
  {
    if published != [] {
      AlwaysMerged(published[..|published| - 1]);
    }
  }

  lemma AcceptedParamsStand(params: map<string, bool>)
    requires OnlyAccepted(params)
    ensures MergeParams(map[], params) == params
  {
  }

  /** Merging a merged surface advertises the same functions, parameters and limits. */
  lemma AdvertisingAgainIsTheSame(published: seq<Surface>)
    ensures Advertised([Advertised(published)]) == Advertised(published)
  {
    var s := Advertised(published);
    AlwaysMerged(published);
    assert [s][..0] == [];
    AcceptedParamsStand(s.search.params);
    AcceptedParamsStand(s.tv.params);
    AcceptedParamsStand(s.movie.params);
    AcceptedParamsStand(s.audio.params);
    AcceptedParamsStand(s.book.params);
    assert MergeSurfaces([s]) == s;
  }

  datatype Mode = Search | TV | Movie | Audio | Book

  function FunctionOf(s: Surface, mode: Mode): Function {
    match mode
    case Search => s.search
    case TV => s.tv
    case Movie => s.movie
    case Audio => s.audio
    case Book => s.book
  }

  datatype Limit = Largest | Page | Retention

  function LimitOf(s: Surface, limit: Limit): int {
    match limit
    case Largest => s.max
    case Page => s.standard
    case Retention => s.retention
  }

  ghost predicate SomeOffers(published: seq<Surface>, mode: Mode) {
    exists i :: 0 <= i < |published| && FunctionOf(published[i], mode).on
  }

  ghost predicate SomeAccepts(published: seq<Surface>, mode: Mode, p: string) {
    exists i :: 0 <= i < |published| && p in FunctionOf(published[i], mode).params
                && FunctionOf(published[i], mode).params[p]
  }

  // The largest that anybody published, none being below zero.
  ghost predicate IsLargest(published: seq<Surface>, limit: Limit, n: int) {
    && n >= 0 && (forall i :: 0 <= i < |published| ==> LimitOf(published[i], limit) <= n)
    && (n == 0 || exists i :: 0 <= i < |published| && LimitOf(published[i], limit) == n)
  }

  lemma SomeOneMore(published: seq<Surface>, mode: Mode, p: string)
    requires published != []
    ensures var n := |published| - 1;
            && (SomeOffers(published, mode) <==> SomeOffers(published[..n], mode) || FunctionOf(published[n], mode).on)
            && (SomeAccepts(published, mode, p) <==>
                  || SomeAccepts(published[..n], mode, p)
                  || (p in FunctionOf(published[n], mode).params && FunctionOf(published[n], mode).params[p]))
  {
    var n := |published| - 1;
    if SomeOffers(published[..n], mode) {
      var i :| 0 <= i < n && FunctionOf(published[..n][i], mode).on;
      assert FunctionOf(published[i], mode).on;
    }
    if SomeAccepts(published[..n], mode, p) {
      var i :| 0 <= i < n && p in FunctionOf(published[..n][i], mode).params
               && FunctionOf(published[..n][i], mode).params[p];
      assert p in FunctionOf(published[i], mode).params && FunctionOf(published[i], mode).params[p];
    }
  }

  lemma {:induction false} MergedFunctionsAre(published: seq<Surface>, mode: Mode, p: string)
    ensures var f := FunctionOf(MergeSurfaces(published), mode);
            (f.on <==> SomeOffers(published, mode)) && (p in f.params <==> SomeAccepts(published, mode, p))
  {
    if published != [] {
      MergedFunctionsAre(published[..|published| - 1], mode, p);
      SomeOneMore(published, mode, p);
    }
  }

  lemma {:induction false} MergedLimitsAre(published: seq<Surface>, limit: Limit)
    ensures IsLargest(published, limit, LimitOf(MergeSurfaces(published), limit))
  {
    if published != [] {
      var n := |published| - 1;
      var before := published[..n];
      MergedLimitsAre(before, limit);
      assert forall i :: 0 <= i < n ==> before[i] == published[i];
      var most := LimitOf(MergeSurfaces(before), limit);
      if most > 0 && LimitOf(published[n], limit) <= most {
        var i :| 0 <= i < n && LimitOf(before[i], limit) == most;
        assert LimitOf(published[i], limit) == most;
      }
    }
  }

  /** What is advertised: a function that somebody offers, with the parameters somebody
      accepts there; without any publisher the first three functions, bare. */
  lemma FunctionsAreTheUnion(published: seq<Surface>, mode: Mode, p: string)
    ensures var f := FunctionOf(Advertised(published), mode);
            && (published != [] ==> (f.on <==> SomeOffers(published, mode)))
            && (published == [] ==> (f.on <==> mode.Search? || mode.TV? || mode.Movie?) && f.params == map[])
            && (p in f.params <==> SomeAccepts(published, mode, p))
  {
    MergedFunctionsAre(published, mode, p);
  }

  /** Every limit is the largest one published; a maximum and a page nobody states are a
      hundred, and the page never exceeds the maximum. */
  lemma LimitsAreTheLargest(published: seq<Surface>, largest: int, page: int, retention: int)
    requires IsLargest(published, Largest, largest) && IsLargest(published, Page, page)
    requires IsLargest(published, Retention, retention)
    ensures var s := Advertised(published);
            && s.retention == retention
            && s.max == (if largest == 0 then 100 else largest)
            && s.standard == Min(s.max, if page == 0 then 100 else page)
  {
    OneLargest(published, Largest, largest);
    OneLargest(published, Page, page);
    OneLargest(published, Retention, retention);
  }

  lemma OneLargest(published: seq<Surface>, limit: Limit, n: int)
    requires IsLargest(published, limit, n)
    ensures LimitOf(MergeSurfaces(published), limit) == n
  {
    MergedLimitsAre(published, limit);
  }
}
