/** Searches that overlap on one cache: each looks, joins or makes the flight for its
    key, and the flight looks again, asks its indexer, stores and lands. */
module QueryFlights {
  import opened Basics
  import opened QueryCache

  // The indexers behind the cache, by number.
  datatype Setup = Setup(names: seq<string>, ttls: seq<int>)

  ghost predicate Proper(u: Setup) {
    && |u.ttls| == |u.names|
    && (forall i :: 0 <= i < |u.ttls| ==> u.ttls[i] > 0)
    && (forall i, j :: 0 <= i < j < |u.names| ==> KeysApart(u.names[i], u.names[j]))
  }

  // One key of one indexer.
  datatype Slot = Slot(owner: nat, key: string)

  datatype Answer = Said(value: ResponseValue) | Nothing | Failed

  // Only a complete answer without error is stored.
  predicate Storable(a: Answer) {
    a.Said? && !a.value.fields.incomplete
  }

  // What an indexer said, and what was put into the cache: replies are known by their
  // place in the order in which they came.
  datatype Reply = Reply(slot: Slot, answer: Answer)
  datatype Kept = Kept(reply: nat, until: int)
  datatype Put = Put(slot: Slot, reply: nat, at: int)

  datatype Phase =
    | Opened
    | Asking(since: int)               // looked again, in vain, at `since`
    | Storing(reply: nat, since: int)
    | Decided(reply: nat)              // the function has returned
    | Landed(reply: nat)               // and its callers have been let go
  datatype Flight = Flight(slot: Slot, phase: Phase)

  datatype Call =
    | Missed(slot: Slot)
    | Waiting(slot: Slot, flight: nat)
    | Returned(slot: Slot, reply: nat, via: Option<nat>)

  // `open` is the group of calls in flight; `said` and `puts` are everything so far.
  datatype World = World(contents: map<string, Kept>, calls: map<nat, Call>, flights: seq<Flight>, open: map<Slot, nat>,
                         said: seq<Reply>, puts: seq<Put>)

  const START := World(map[], map[], [], map[], [], [])

  datatype Step =
    | Look(call: nat, owner: nat, request: string, now: int)
    | Join(call: nat)
    | LookAgain(flight: nat, now: int)
    | Answers(flight: nat, answer: Answer)
    | Store(flight: nat, now: int)
    | Land(flight: nat)
    | Return(call: nat)
    | Clear

  predicate Fresh(contents: map<string, Kept>, key: string, now: int) {
    key in contents && now <= contents[key].until
  }

  predicate Enabled(u: Setup, w: World, step: Step) {
    match step
    case Look(c, i, _, _) => c !in w.calls && i < |u.names|
    case Join(c) => c in w.calls && w.calls[c].Missed?
    case LookAgain(f, _) => f < |w.flights| && w.flights[f].phase.Opened?
    case Answers(f, _) => f < |w.flights| && w.flights[f].phase.Asking?
    case Store(f, _) => f < |w.flights| && w.flights[f].phase.Storing? && w.flights[f].slot.owner < |u.ttls|
    case Land(f) => f < |w.flights| && w.flights[f].phase.Decided?
    case Return(c) =>
      && c in w.calls && w.calls[c].Waiting? && w.calls[c].flight < |w.flights|
      && w.flights[w.calls[c].flight].phase.Landed?
    case Clear => true
  }

  function Moved(w: World, f: nat, phase: Phase): World
    requires f < |w.flights|
  {
    w.(flights := w.flights[f := w.flights[f].(phase := phase)])
  }

  function Apply(u: Setup, w: World, step: Step): World
    requires Enabled(u, w, step)
  {
    match step
    case Look(c, i, request, now) =>
      var key := KeyFor(u.names[i], request);
      if Fresh(w.contents, key, now) then w.(calls := w.calls[c := Returned(Slot(i, key), w.contents[key].reply, None)])
      else w.(calls := w.calls[c := Missed(Slot(i, key))])
    case Join(c) =>
      var slot := w.calls[c].slot;
      if slot in w.open then w.(calls := w.calls[c := Waiting(slot, w.open[slot])])
      else
        w.(calls := w.calls[c := Waiting(slot, |w.flights|)], open := w.open[slot := |w.flights|],
           flights := w.flights + [Flight(slot, Opened)])
    case LookAgain(f, now) =>
      var key := w.flights[f].slot.key;
      Moved(w, f, if Fresh(w.contents, key, now) then Decided(w.contents[key].reply) else Asking(now))
    case Answers(f, answer) =>
      var n := |w.said|;
      var w' := w.(said := w.said + [Reply(w.flights[f].slot, answer)]);
      Moved(w', f, if Storable(answer) then Storing(n, w.flights[f].phase.since) else Decided(n))
    case Store(f, now) =>
      var slot, n := w.flights[f].slot, w.flights[f].phase.reply;
      Moved(w.(contents := w.contents[slot.key := Kept(n, now + u.ttls[slot.owner])],
               puts := w.puts + [Put(slot, n, now)]),
            f, Decided(n))
    case Land(f) =>
      Moved(w, f, Landed(w.flights[f].phase.reply)).(open := w.open - {w.flights[f].slot})
    case Return(c) =>
      var f := w.calls[c].flight;
      w.(calls := w.calls[c := Returned(w.calls[c].slot, w.flights[f].phase.reply, Some(f))])
    case Clear => w.(contents := map[])
  }

  function Play(u: Setup, w: World, steps: seq<Step>): Option<World> {
    if steps == [] then Some(w)
    else
      match Play(u, w, steps[..|steps| - 1])
      case None => None
      case Some(w') => if Enabled(u, w', steps[|steps| - 1]) then Some(Apply(u, w', steps[|steps| - 1])) else None
  }

  // ---------------------------------------------------------------------------
  // One flight for each key

  ghost predicate HasTheKey(w: World, f: nat)
    requires f < |w.flights|
  {
    !w.flights[f].phase.Landed? ==> w.flights[f].slot in w.open && w.open[w.flights[f].slot] == f
  }

  ghost predicate OpensTo(w: World, s: Slot)
    requires s in w.open
  {
    w.open[s] < |w.flights| && w.flights[w.open[s]].slot == s && !w.flights[w.open[s]].phase.Landed?
  }

  /** A flight that has not landed is the one its key is open to. */
  ghost predicate SingleFlight(w: World) {
    && (forall f :: 0 <= f < |w.flights| ==> HasTheKey(w, f))
    && (forall s :: s in w.open ==> OpensTo(w, s))
  }

  predicate IsAsking(w: World, f: int) {
    0 <= f < |w.flights| && w.flights[f].phase.Asking?
  }

  lemma StepKeepsSingleFlight(u: Setup, w: World, step: Step)
    requires SingleFlight(w) && Enabled(u, w, step)
    ensures SingleFlight(Apply(u, w, step))
  {
    var w' := Apply(u, w, step);
    if step.Land? {
      assert HasTheKey(w, step.flight);
    }
    forall f | 0 <= f < |w'.flights| ensures HasTheKey(w', f) {
      if f < |w.flights| {
        assert HasTheKey(w, f);
      }
    }
    forall s | s in w'.open ensures OpensTo(w', s) {
      if s in w.open {
        assert OpensTo(w, s);
      }
    }
  }

  /** In every interleaving an indexer is asked for a key by one flight at a time. */
  lemma {:induction false} AlwaysSingleFlight(u: Setup, steps: seq<Step>)
    requires Play(u, START, steps).Some?
    ensures SingleFlight(Play(u, START, steps).value)
    ensures var w := Play(u, START, steps).value;
            forall f, g :: IsAsking(w, f) && IsAsking(w, g) && w.flights[f].slot == w.flights[g].slot ==> f == g
  {
    if steps != [] {
      AlwaysSingleFlight(u, steps[..|steps| - 1]);
      StepKeepsSingleFlight(u, Play(u, START, steps[..|steps| - 1]).value, steps[|steps| - 1]);
    }
    var w := Play(u, START, steps).value;
    forall f, g | IsAsking(w, f) && IsAsking(w, g) && w.flights[f].slot == w.flights[g].slot ensures f == g {
      assert HasTheKey(w, f) && HasTheKey(w, g);
    }
  }

  // ---------------------------------------------------------------------------
  // Whose answers they are

  predicate Owned(u: Setup, s: Slot) {
    s.owner < |u.names| && IsKeyOf(u.names[s.owner], s.key)
  }

  predicate SaidTo(w: World, s: Slot, reply: nat) {
    reply < |w.said| && w.said[reply].slot == s
  }

  ghost predicate FlightTraced(u: Setup, w: World, f: nat)
    requires f < |w.flights|
  {
    var slot, phase := w.flights[f].slot, w.flights[f].phase;
    && Owned(u, slot)
    && (phase.Storing? ==> SaidTo(w, slot, phase.reply) && Storable(w.said[phase.reply].answer))
    && (phase.Decided? || phase.Landed? ==> SaidTo(w, slot, phase.reply))
  }

  ghost predicate CallTraced(u: Setup, w: World, call: Call) {
    match call
    case Missed(slot) => Owned(u, slot)
    case Waiting(slot, f) => f < |w.flights| && w.flights[f].slot == slot
    case Returned(slot, reply, via) =>
      && SaidTo(w, slot, reply)
      && (via.Some? ==> via.value < |w.flights| && w.flights[via.value] == Flight(slot, Landed(reply)))
  }

  // What is kept under a key of an indexer it said, and it was put there `ttl` before the end.
  ghost predicate KeptTraced(u: Setup, w: World, s: Slot)
    requires |u.ttls| == |u.names| && s.owner < |u.names| && s.key in w.contents
  {
    var kept := w.contents[s.key];
    && SaidTo(w, s, kept.reply) && Storable(w.said[kept.reply].answer)
    && Put(s, kept.reply, kept.until - u.ttls[s.owner]) in w.puts
  }

  ghost predicate FlightsTraced(u: Setup, w: World) {
    forall f :: 0 <= f < |w.flights| ==> FlightTraced(u, w, f)
  }

  ghost predicate CallsTraced(u: Setup, w: World) {
    forall c :: c in w.calls ==> CallTraced(u, w, w.calls[c])
  }

  ghost predicate ContentsTraced(u: Setup, w: World) {
    && |u.ttls| == |u.names|
    && forall s {:trigger Owned(u, s)} :: Owned(u, s) && s.key in w.contents ==> KeptTraced(u, w, s)
  }

  ghost predicate Traced(u: Setup, w: World) {
    FlightsTraced(u, w) && CallsTraced(u, w) && ContentsTraced(u, w)
  }

  lemma SlotsApart(u: Setup, s: Slot, t: Slot)
    requires Proper(u) && Owned(u, s) && Owned(u, t) && s.key == t.key
    ensures s == t
  {
  }

  lemma KeyIsOwned(u: Setup, i: nat, request: string)
    requires i < |u.names|
    ensures Owned(u, Slot(i, KeyFor(u.names[i], request)))
  {
    assert Head(u.names[i]) <= KeyFor(u.names[i], request);
  }

  lemma StepKeepsFlights(u: Setup, w: World, step: Step)
    requires Traced(u, w) && Enabled(u, w, step)
    ensures FlightsTraced(u, Apply(u, w, step))
  {
    var w' := Apply(u, w, step);
    forall f | 0 <= f < |w'.flights| ensures FlightTraced(u, w', f) {
      if f < |w.flights| {
        assert FlightTraced(u, w, f);
        if step.LookAgain? && step.flight == f && w.flights[f].slot.key in w.contents {
          assert KeptTraced(u, w, w.flights[f].slot);
        }
      } else {
        assert CallTraced(u, w, w.calls[step.call]);
      }
    }
  }

  lemma StepKeepsCalls(u: Setup, w: World, step: Step)
    requires Traced(u, w) && SingleFlight(w) && Enabled(u, w, step)
    ensures CallsTraced(u, Apply(u, w, step))
  {
    var w' := Apply(u, w, step);
    if step.Look? {
      KeyIsOwned(u, step.owner, step.request);
    } else if step.Return? {
      assert CallTraced(u, w, w.calls[step.call]);
      assert FlightTraced(u, w, w.calls[step.call].flight);
    }
    forall c | c in w'.calls ensures CallTraced(u, w', w'.calls[c]) {
      if c in w.calls {
        assert CallTraced(u, w, w.calls[c]);
      }
    }
  }

  lemma StepKeepsContents(u: Setup, w: World, step: Step)
    requires Proper(u) && Traced(u, w) && Enabled(u, w, step)
    ensures ContentsTraced(u, Apply(u, w, step))
  {
    var w' := Apply(u, w, step);
    if step.Store? {
      assert FlightTraced(u, w, step.flight);
      assert w'.puts[|w.puts|] == Put(w.flights[step.flight].slot, w.flights[step.flight].phase.reply, step.now);
    }
    forall s {:trigger Owned(u, s)} | Owned(u, s) && s.key in w'.contents ensures KeptTraced(u, w', s) {
      if step.Store? && s.key == w.flights[step.flight].slot.key {
        SlotsApart(u, s, w.flights[step.flight].slot);
      } else {
        assert KeptTraced(u, w, s);
      }
    }
  }

  lemma {:induction false} AlwaysTraced(u: Setup, steps: seq<Step>)
    requires Proper(u) && Play(u, START, steps).Some?
    ensures Traced(u, Play(u, START, steps).value)
  {
    if steps != [] {
      var before := steps[..|steps| - 1];
      AlwaysTraced(u, before);
      AlwaysSingleFlight(u, before);
      StepKeepsFlights(u, Play(u, START, before).value, steps[|steps| - 1]);
      StepKeepsCalls(u, Play(u, START, before).value, steps[|steps| - 1]);
      StepKeepsContents(u, Play(u, START, before).value, steps[|steps| - 1]);
    }
  }

  // The call waited for this flight and returned.
  predicate CameBackWith(w: World, c: nat, via: Option<nat>) {
    c in w.calls && w.calls[c].Returned? && w.calls[c].via.Some? && w.calls[c].via == via
  }

  /** In every interleaving a caller comes back only with something its own indexer
      said to its own key, and all who waited for one flight with the same. */
  lemma {:induction false} EveryAnswerIsItsIndexers(u: Setup, steps: seq<Step>, c: nat)
    requires Proper(u) && Play(u, START, steps).Some?
    requires c in Play(u, START, steps).value.calls && Play(u, START, steps).value.calls[c].Returned?
    ensures var w := Play(u, START, steps).value;
            && w.calls[c].reply < |w.said| && w.said[w.calls[c].reply].slot == w.calls[c].slot
            && forall d :: CameBackWith(w, d, w.calls[c].via) ==> w.calls[d].reply == w.calls[c].reply
  {
    AlwaysTraced(u, steps);
    var w := Play(u, START, steps).value;
    assert CallTraced(u, w, w.calls[c]);
    forall d | CameBackWith(w, d, w.calls[c].via) ensures w.calls[d].reply == w.calls[c].reply {
      assert CallTraced(u, w, w.calls[d]);
    }
  }

  /** What a look finds in the cache this indexer said, complete, to the same key, and
      it was stored no more than `ttl` before. */
  lemma {:induction false} WhatIsServedWasStored(u: Setup, steps: seq<Step>, i: nat, request: string, now: int)
      returns (n: nat)
    requires Proper(u) && Play(u, START, steps).Some? && i < |u.names|
    requires Fresh(Play(u, START, steps).value.contents, KeyFor(u.names[i], request), now)
    ensures var w := Play(u, START, steps).value;
            var slot := Slot(i, KeyFor(u.names[i], request));
            var reply := w.contents[slot.key].reply;
            && n < |w.puts| && w.puts[n].slot == slot && w.puts[n].reply == reply && now <= w.puts[n].at + u.ttls[i]
            && SaidTo(w, slot, reply)
            && w.said[reply].answer.Said? && !w.said[reply].answer.value.fields.incomplete
  {
    AlwaysTraced(u, steps);
    KeyIsOwned(u, i, request);
    var w := Play(u, START, steps).value;
    var slot := Slot(i, KeyFor(u.names[i], request));
    assert KeptTraced(u, w, slot);
    var kept := w.contents[slot.key];
    n :| 0 <= n < |w.puts| && w.puts[n] == Put(slot, kept.reply, kept.until - u.ttls[i]);
  }

  /** And what is said completely is stored and served: whoever looks up to `ttl` after the
      storing gets it. An incomplete answer, an empty one or an error leaves the cache as it was
      and is for the waiting callers only. */
  lemma CompleteAnswersAreServed(u: Setup, w: World, f: nat, answer: Answer, i: nat, request: string, at: int, now: int)
    requires Proper(u) && i < |u.names| && Enabled(u, w, Answers(f, answer))
    requires w.flights[f].slot == Slot(i, KeyFor(u.names[i], request))
    ensures var w' := Apply(u, w, Answers(f, answer));
            var reply := |w.said|;
            && w'.said == w.said + [Reply(w.flights[f].slot, answer)] && w'.contents == w.contents
            && (answer.Said? && !answer.value.fields.incomplete ==>
                  && Enabled(u, w', Store(f, at)) &&
                  var w'' := Apply(u, w', Store(f, at));
                  && w''.flights[f].phase == Decided(reply)
                  && (forall key :: key != KeyFor(u.names[i], request) ==>
                        (key in w''.contents <==> key in w.contents)
                        && (key in w.contents ==> w''.contents[key] == w.contents[key]))
                  && forall c: nat :: c !in w.calls ==>
                       Apply(u, w'', Look(c, i, request, now)).calls[c] ==
                       if now <= at + u.ttls[i] then Returned(w.flights[f].slot, reply, None)
                       else Missed(w.flights[f].slot))
            && (!(answer.Said? && !answer.value.fields.incomplete) ==> w'.flights[f].phase == Decided(reply))
  {
  }

  /** Nobody is left waiting: a caller's flight can take its next step until it has
      landed, and then the caller can return. */
  lemma {:induction false} WaitersAreServed(u: Setup, steps: seq<Step>, c: nat)
    requires Proper(u) && Play(u, START, steps).Some?
    requires c in Play(u, START, steps).value.calls && Play(u, START, steps).value.calls[c].Waiting?
    ensures var w := Play(u, START, steps).value;
            var f := w.calls[c].flight;
            && f < |w.flights|
            && match w.flights[f].phase
               case Opened => forall now :: Enabled(u, w, LookAgain(f, now))
               case Asking(_) => forall answer :: Enabled(u, w, Answers(f, answer))
               case Storing(_, _) => forall now :: Enabled(u, w, Store(f, now))
               case Decided(_) => Enabled(u, w, Land(f))
               case Landed(_) => Enabled(u, w, Return(c))
  {
    AlwaysTraced(u, steps);
    var w := Play(u, START, steps).value;
    assert CallTraced(u, w, w.calls[c]);
    assert FlightTraced(u, w, w.calls[c].flight);
  }

  // ---------------------------------------------------------------------------
  // How often an indexer is asked

  function TimeOf(step: Step): Option<int> {
    match step
    case Look(_, _, _, now) => Some(now)
    case LookAgain(_, now) => Some(now)
    case Store(_, now) => Some(now)
    case Join(_) => None
    case Answers(_, _) => None
    case Land(_) => None
    case Return(_) => None
    case Clear => None
  }

  // The clock does not run backwards, has not passed `now`, and nobody clears the cache.
  predicate Ordered(steps: seq<Step>, now: int) {
    steps == [] ||
    var last := steps[|steps| - 1];
    && !last.Clear?
    && (TimeOf(last).Some? ==> TimeOf(last).value <= now)
    && Ordered(steps[..|steps| - 1], if TimeOf(last).Some? then TimeOf(last).value else now)
  }

  // Everything stored is still there or was replaced by something newer; what a flight
  // found missing had been stored more than `ttl` before; and nothing is from the future.
  ghost predicate Unforgotten(u: Setup, w: World, now: int) {
    && |u.ttls| == |u.names|
    && (forall n :: 0 <= n < |w.puts| ==> PutStands(u, w, n) && w.puts[n].at <= now)
    && (forall f :: 0 <= f < |w.flights| && SinceOf(w.flights[f]).Some? ==> SinceOf(w.flights[f]).value <= now)
    && (forall f, n :: 0 <= f < |w.flights| && 0 <= n < |w.puts| ==> Later(u, w.flights[f], w.puts[n]))
  }

  function SinceOf(f: Flight): Option<int> {
    match f.phase
    case Asking(since) => Some(since)
    case Storing(_, since) => Some(since)
    case Opened => None
    case Decided(_) => None
    case Landed(_) => None
  }

  predicate PutStands(u: Setup, w: World, n: nat)
    requires n < |w.puts| && |u.ttls| == |u.names|
  {
    var put := w.puts[n];
    Owned(u, put.slot) && put.slot.key in w.contents
    && w.contents[put.slot.key].until >= put.at + u.ttls[put.slot.owner]
  }

  predicate Later(u: Setup, f: Flight, put: Put) {
    f.slot == put.slot && SinceOf(f).Some? && put.slot.owner < |u.ttls| ==>
      SinceOf(f).value > put.at + u.ttls[put.slot.owner]
  }

  predicate AreSpaced(u: Setup, a: Put, b: Put) {
    a.slot == b.slot && a.slot.owner < |u.ttls| ==> b.at > a.at + u.ttls[a.slot.owner]
  }

  ghost predicate Spaced(u: Setup, w: World) {
    forall a, b :: 0 <= a < b < |w.puts| ==> AreSpaced(u, w.puts[a], w.puts[b])
  }

  lemma PutsStand(u: Setup, w: World, step: Step, now: int)
    requires Proper(u) && Traced(u, w) && Unforgotten(u, w, now) && Enabled(u, w, step) && !step.Clear?
    requires TimeOf(step).Some? ==> TimeOf(step).value == now
    ensures var w' := Apply(u, w, step); forall n :: 0 <= n < |w'.puts| ==> PutStands(u, w', n) && w'.puts[n].at <= now
  {
    var w' := Apply(u, w, step);
    if step.Store? {
      assert FlightTraced(u, w, step.flight);
    }
    forall n | 0 <= n < |w'.puts| ensures PutStands(u, w', n) && w'.puts[n].at <= now {
      if n < |w.puts| {
        assert PutStands(u, w, n);
        if step.Store? && w.puts[n].slot.key == w.flights[step.flight].slot.key {
          SlotsApart(u, w.puts[n].slot, w.flights[step.flight].slot);
        }
      }
    }
  }

  lemma SincesAreLater(u: Setup, w: World, step: Step, now: int)
    requires SingleFlight(w) && Unforgotten(u, w, now) && Enabled(u, w, step) && !step.Clear?
    requires TimeOf(step).Some? ==> TimeOf(step).value == now
    ensures var w' := Apply(u, w, step);
            && (forall f :: 0 <= f < |w'.flights| && SinceOf(w'.flights[f]).Some? ==>
                  SinceOf(w'.flights[f]).value <= now)
            && (forall f, n :: 0 <= f < |w'.flights| && 0 <= n < |w'.puts| ==> Later(u, w'.flights[f], w'.puts[n]))
  {
    var w' := Apply(u, w, step);
    forall f, n | 0 <= f < |w'.flights| && 0 <= n < |w'.puts| ensures Later(u, w'.flights[f], w'.puts[n]) {
      if f < |w.flights| && n < |w.puts| {
        assert Later(u, w.flights[f], w.puts[n]) && PutStands(u, w, n);
      } else if f < |w.flights| {
        assert HasTheKey(w, f) && HasTheKey(w, step.flight);
      }
    }
  }

  lemma NextIsSpaced(u: Setup, w: World, step: Step, now: int)
    requires Unforgotten(u, w, now) && Spaced(u, w) && Enabled(u, w, step)
    requires TimeOf(step).Some? ==> TimeOf(step).value == now
    ensures Spaced(u, Apply(u, w, step))
  {
    var w' := Apply(u, w, step);
    forall a, b | 0 <= a < b < |w'.puts| ensures AreSpaced(u, w'.puts[a], w'.puts[b]) {
      if b == |w.puts| {
        assert Later(u, w.flights[step.flight], w.puts[a]);
      }
    }
  }

  lemma TimePasses(u: Setup, w: World, t: int, now: int)
    requires Unforgotten(u, w, t) && t <= now
    ensures Unforgotten(u, w, now)
  {
  }

  lemma {:induction false} AlwaysUnforgotten(u: Setup, steps: seq<Step>, now: int)
    requires Proper(u) && Play(u, START, steps).Some? && Ordered(steps, now)
    ensures Unforgotten(u, Play(u, START, steps).value, now) && Spaced(u, Play(u, START, steps).value)
  {
    if steps != [] {
      var before, last := steps[..|steps| - 1], steps[|steps| - 1];
      var t := if TimeOf(last).Some? then TimeOf(last).value else now;
      var w := Play(u, START, before).value;
      AlwaysUnforgotten(u, before, t);
      AlwaysTraced(u, before);
      AlwaysSingleFlight(u, before);
      PutsStand(u, w, last, t);
      SincesAreLater(u, w, last, t);
      NextIsSpaced(u, w, last, t);
      TimePasses(u, Apply(u, w, last), t, now);
    }
  }

  /** However many callers overlap, two answers of one indexer to one key are stored
      more than `ttl` apart, as long as the clock does not run backwards and nobody
      clears the cache: the second look inside the flight is what does it. */
  lemma {:induction false} StoredOncePerTtl(u: Setup, steps: seq<Step>, now: int, a: nat, b: nat)
    requires Proper(u) && Play(u, START, steps).Some? && Ordered(steps, now)
    requires a < b < |Play(u, START, steps).value.puts|
    requires Play(u, START, steps).value.puts[a].slot == Play(u, START, steps).value.puts[b].slot
    ensures var w := Play(u, START, steps).value;
            && w.puts[a].slot.owner < |u.ttls|
            && w.puts[b].at > w.puts[a].at + u.ttls[w.puts[a].slot.owner]
  {
    AlwaysUnforgotten(u, steps, now);
    var w := Play(u, START, steps).value;
    assert PutStands(u, w, a);
    assert AreSpaced(u, w.puts[a], w.puts[b]);
  }

  // ---------------------------------------------------------------------------
  // What clearing the cache forgets

  // Nothing said before the mark is in the cache or about to be put there.
  ghost predicate Forgotten(w: World, mark: nat) {
    && mark <= |w.said|
    && (forall key :: key in w.contents ==> w.contents[key].reply >= mark)
    && (forall f :: 0 <= f < |w.flights| && w.flights[f].phase.Storing? ==> w.flights[f].phase.reply >= mark)
  }

  ghost predicate AllNewer(w: World, mark: nat) {
    forall key :: key in w.contents ==> w.contents[key].reply >= mark
  }

  lemma StepKeepsForgotten(u: Setup, w: World, step: Step, mark: nat)
    requires Forgotten(w, mark) && Enabled(u, w, step)
    ensures Forgotten(Apply(u, w, step), mark)
  {
  }

  lemma {:induction false} StaysForgotten(u: Setup, w: World, more: seq<Step>, mark: nat)
    requires Forgotten(w, mark) && Play(u, w, more).Some?
    ensures Forgotten(Play(u, w, more).value, mark)
  {
    if more != [] {
      StaysForgotten(u, w, more[..|more| - 1], mark);
      StepKeepsForgotten(u, Play(u, w, more[..|more| - 1]).value, more[|more| - 1], mark);
    }
  }

  predicate SomebodyStores(w: World) {
    exists f :: 0 <= f < |w.flights| && w.flights[f].phase.Storing?
  }

  lemma PlayOne(u: Setup, w: World, step: Step)
    requires Enabled(u, w, step)
    ensures Play(u, w, [step]) == Some(Apply(u, w, step))
  {
    assert [step][..0] == [];
  }

  lemma StoreBringsBack(u: Setup, w: World, f: nat)
    requires FlightsTraced(u, w) && |u.ttls| == |u.names| && f < |w.flights| && w.flights[f].phase.Storing?
    ensures var cleared := Apply(u, w, Clear);
            && Play(u, cleared, [Store(f, 0)]).Some?
            && !AllNewer(Play(u, cleared, [Store(f, 0)]).value, |w.said|)
  {
    var cleared := Apply(u, w, Clear);
    assert FlightTraced(u, w, f);
    PlayOne(u, cleared, Store(f, 0));
    assert Apply(u, cleared, Store(f, 0)).contents[w.flights[f].slot.key].reply < |w.said|;
  }

  /** After a clear nothing that was said before it is ever in the cache again if and
      only if no flight had its answer and was yet to store it. */
  lemma {:induction false} ClearForgetsExactlyWhenNobodyStores(u: Setup, steps: seq<Step>)
    requires Proper(u) && Play(u, START, steps).Some?
    ensures var w := Play(u, START, steps).value;
            !SomebodyStores(w) <==>
              forall more :: Play(u, Apply(u, w, Clear), more).Some? ==>
                AllNewer(Play(u, Apply(u, w, Clear), more).value, |w.said|)
  {
    var w := Play(u, START, steps).value;
    var cleared := Apply(u, w, Clear);
    AlwaysTraced(u, steps);
    if f :| 0 <= f < |w.flights| && w.flights[f].phase.Storing? {
      StoreBringsBack(u, w, f);
    } else {
      forall more | Play(u, cleared, more).Some? ensures AllNewer(Play(u, cleared, more).value, |w.said|) {
        StaysForgotten(u, cleared, more, |w.said|);
      }
    }
  }
}
