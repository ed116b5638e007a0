/** What every module here needs: options and ends of sequences. */
module Basics {

  datatype Option<+T> = None | Some(value: T)

  function Min(a: int, b: int): int {
    if a < b then a else b
  }

  function Max(a: int, b: int): int {
    if a < b then b else a
  }

  // ---------------------------------------------------------------------------
  // Sequences in which an element can be nil

  function Present<T>(items: seq<Option<T>>): seq<T> {
    if items == [] then []
    else
      var n := |items| - 1;
      Present(items[..n]) + if items[n].Some? then [items[n].value] else []
  }

  function AllPresent<T>(items: seq<T>): seq<Option<T>> {
    seq(|items|, i requires 0 <= i < |items| => Some(items[i]))
  }

  lemma {:induction false} PresentOfAll<T>(items: seq<T>)
    ensures Present(AllPresent(items)) == items
  {
    if items != [] {
      var n := |items| - 1;
      assert AllPresent(items)[..n] == AllPresent(items[..n]);
      PresentOfAll(items[..n]);
    }
  }

  // ---------------------------------------------------------------------------
  // Taking sequences apart at the end

  lemma InitAndLast<T>(s: seq<T>)
    requires s != []
    ensures s == s[..|s| - 1] + [s[|s| - 1]]
    ensures multiset(s) == multiset(s[..|s| - 1]) + multiset{s[|s| - 1]}
  {
    assert s == s[..|s| - 1] + [s[|s| - 1]];
  }

  lemma TakeOneMore<T>(s: seq<T>, n: nat)
    requires n < |s|
    ensures s[..n + 1] == s[..n] + [s[n]]
  {
  }

  lemma InitOfBoth<T>(a: seq<T>, b: seq<T>)
    requires b != []
    ensures var both := a + b;
            both != [] && both[..|both| - 1] == a + b[..|b| - 1] && both[|both| - 1] == b[|b| - 1]
  {
  }
}
