/** Every interleaving of the callers of one session's playback stream. Each
    lock-held region is one step; opening a stream, and closing a detached one,
    happen between steps. */
module LeaseProtocol {
  import opened Basics
  import opened PlaybackStream

  // Where one call of acquirePlaybackStream stands, and later its lease.
  datatype Call =
    | Waiting(state: nat, spec: Spec, allowBusy: bool, signalled: bool)
    | Opening(state: nat, spec: Spec)
    | Holding(state: nat)
    | Done

  // `states` are all state records the session ever made, by identity; `current`
  // is the one it has now. `openedFor` is every stream ever opened and the key it
  // was opened for; `closing` are detached and about to be closed by the caller
  // that detached them.
  datatype World = World(current: Option<nat>, states: seq<Playback>, calls: map<nat, Call>,
                         openedFor: map<Stream, string>, closing: set<Stream>, closed: set<Stream>)

  const START := World(None, [], map[], map[], {}, {})

  datatype Step =
    | Acquire(call: nat, spec: Spec, allowBusy: bool)
    | Wake(call: nat)
    | OpenSucceeds(call: nat, stream: Stream)
    | OpenFails(call: nat)
    | Release(call: nat)
    | CacheSnapshot(spec: Spec, startup: Option<int>)
    | SetStartInfo(key: string, info: int)
    | Reset
    | CloseSession
    | CloseDetached(stream: Stream)

  predicate HasRecord(w: World) {
    w.current.Some? ==> w.current.value < |w.states|
  }

  predicate Enabled(w: World, step: Step) {
    && HasRecord(w)
    && match step
    case Acquire(c, spec, _) => c !in w.calls && spec.key != ""
    case Wake(c) => c in w.calls && w.calls[c].Waiting? && w.calls[c].signalled && w.calls[c].state < |w.states|
    case OpenSucceeds(c, s) => c in w.calls && w.calls[c].Opening? && s !in w.openedFor && w.calls[c].state < |w.states|
    case OpenFails(c) => c in w.calls && w.calls[c].Opening? && w.calls[c].state < |w.states|
    case Release(c) => c in w.calls && w.calls[c].Holding? && w.calls[c].state < |w.states|
    case CacheSnapshot(_, _) => true
    case SetStartInfo(_, _) => true
    case Reset => true
    case CloseSession => true
    case CloseDetached(s) => s in w.closing
  }

  function Broadcast(calls: map<nat, Call>, i: nat): map<nat, Call> {
    map c | c in calls ::
      if calls[c].Waiting? && calls[c].state == i then calls[c].(signalled := true) else calls[c]
  }

  function Detached(s: Option<Stream>): set<Stream> {
    if s.Some? then {s.value} else {}
  }

  // The session's state record, made if there is none.
  function Ensured(w: World): World {
    if w.current.Some? then w else w.(current := Some(|w.states|), states := w.states + [IDLE])
  }

  function TakeTurn(w: World, c: nat, i: nat, spec: Spec, allowBusy: bool): World
    requires i < |w.states|
  {
    var (p, turn) := Attempt(w.states[i], spec, allowBusy);
    match turn
    case Reuse => w.(states := w.states[i := p], calls := w.calls[c := Holding(i)])
    case BusySameKey => w.(calls := w.calls[c := Done])
    case Park => w.(calls := w.calls[c := Waiting(i, spec, allowBusy, false)])
    case Open(replaced) => w.(states := w.states[i := p], calls := w.calls[c := Opening(i, spec)],
                         closing := w.closing + Detached(replaced))
  }

  function Apply(w: World, step: Step): World
    requires Enabled(w, step)
  {
    match step
    case Acquire(c, spec, allowBusy) =>
      var w' := Ensured(w);
      TakeTurn(w', c, w'.current.value, spec, allowBusy)
    case Wake(c) =>
      var call := w.calls[c];
      TakeTurn(w, c, call.state, call.spec, call.allowBusy)
    case OpenSucceeds(c, s) =>
      var Opening(i, spec) := w.calls[c];
      w.(states := w.states[i := Opened(w.states[i], spec, s)],
         calls := Broadcast(w.calls[c := Holding(i)], i),
         openedFor := w.openedFor[s := spec.key])
    case OpenFails(c) =>
      var Opening(i, spec) := w.calls[c];
      w.(states := w.states[i := OpenFailed(w.states[i], spec)], calls := Broadcast(w.calls[c := Done], i))
    case Release(c) =>
      var i := w.calls[c].state;
      if w.current == Some(i)
      then w.(states := w.states[i := Released(w.states[i])], calls := Broadcast(w.calls[c := Done], i))
      else w.(calls := w.calls[c := Done])
    case CacheSnapshot(spec, startup) =>
      if spec.key == "" then w
      else
        var w' := Ensured(w);
        var i := w'.current.value;
        var (p, detached) := Snapshotted(w'.states[i], spec, startup);
        w'.(states := w'.states[i := p], calls := Broadcast(w'.calls, i), closing := w'.closing + Detached(detached))
    case SetStartInfo(key, info) =>
      if w.current.None? then w
      else w.(states := w.states[w.current.value := WithStartInfo(w.states[w.current.value], key, info)])
    case Reset => Clear(w)
    case CloseSession => Clear(w).(current := None)
    case CloseDetached(s) => w.(closing := w.closing - {s}, closed := w.closed + {s})
  }

  // resetLocked on the session's record.
  function Clear(w: World): World
    requires HasRecord(w)
  {
    if w.current.None? then w
    else
      var i := w.current.value;
      w.(states := w.states[i := IDLE], calls := Broadcast(w.calls, i),
         closing := w.closing + Detached(w.states[i].stream))
  }

  /** What a lease's Read and Seek reach. */
  function ActiveStream(w: World, c: nat): Option<Stream> {
    if c in w.calls && w.calls[c].Holding? && w.current == Some(w.calls[c].state) && w.calls[c].state < |w.states|
    then w.states[w.calls[c].state].stream
    else None
  }

  // ---------------------------------------------------------------------------
  // Runs

  // Three habits of the callers that some guarantees depend on.
  datatype Habits = Habits(idleResets: bool, quietCloses: bool, sameKeySnapshots: bool)

  predicate Idle(w: World) {
    HasRecord(w) && (w.current.Some? ==> !Busy(w.states[w.current.value]))
  }

  // No acquire is waiting or opening on the session's record.
  predicate Quiet(w: World) {
    forall c :: c in w.calls && (w.calls[c].Waiting? || w.calls[c].Opening?) ==> w.current != Some(w.calls[c].state)
  }

  // A snapshot stored over a stream in use must be for the stream's own key.
  predicate SameKey(w: World, key: string) {
    HasRecord(w) &&
    (w.current.Some? ==>
       var p := w.states[w.current.value];
       key == "" || (Busy(p) && p.stream.Some? ==> p.spec.key == key))
  }

  predicate Obeys(w: World, step: Step, habits: Habits) {
    && (habits.idleResets && step.Reset? ==> Idle(w))
    && (habits.quietCloses && step.CloseSession? ==> Quiet(w))
    && (habits.sameKeySnapshots && step.CacheSnapshot? ==> SameKey(w, step.spec.key))
  }

  const ANY := Habits(false, false, false)

  /** Where some steps lead, or nothing when one of them could not happen. */
  function Play(w: World, steps: seq<Step>, habits: Habits): Option<World>
    decreases |steps|
  {
    if steps == [] then Some(w)
    else
      var last := steps[|steps| - 1];
      match Play(w, steps[..|steps| - 1], habits)
      case None => None
      case Some(w0) => if Enabled(w0, last) && Obeys(w0, last, habits) then Some(Apply(w0, last)) else None
  }

  lemma PlayOneMore(w: World, steps: seq<Step>, habits: Habits, step: Step)
    requires Play(w, steps, habits).Some?
    requires Enabled(Play(w, steps, habits).value, step) && Obeys(Play(w, steps, habits).value, step, habits)
    ensures Play(w, steps + [step], habits) == Some(Apply(Play(w, steps, habits).value, step))
  {
    var longer := steps + [step];
    assert longer[..|longer| - 1] == steps && longer[|longer| - 1] == step;
  }

  // ---------------------------------------------------------------------------
  // What every step of every run keeps

  /** Records exist; a record never opens and serves at once; and nobody is parked
      unsignalled on a record that is neither opening nor in use. */
  ghost predicate Sound(w: World) {
    && HasRecord(w)
    && (forall c :: c in w.calls && !w.calls[c].Done? ==> w.calls[c].state < |w.states|)
    && (forall i :: 0 <= i < |w.states| ==> !(w.states[i].opening && w.states[i].inUse))
    && (forall c :: c in w.calls && w.calls[c].Waiting? && !w.calls[c].signalled ==> Busy(w.states[w.calls[c].state]))
  }

  lemma TurnKeepsSound(w: World, c: nat, i: nat, spec: Spec, allowBusy: bool)
    requires Sound(w) && i < |w.states|
    ensures Sound(TakeTurn(w, c, i, spec, allowBusy))
  {
  }

  lemma ClearKeepsSound(w: World)
    requires Sound(w)
    ensures Sound(Clear(w)) && Sound(Clear(w).(current := None))
  {
  }

  lemma OpenKeepsSound(w: World, step: Step)
    requires Sound(w) && Enabled(w, step) && (step.OpenSucceeds? || step.OpenFails?)
    ensures Sound(Apply(w, step))
  {
  }

  lemma {:induction false} StepKeepsSound(w: World, step: Step)
    requires Sound(w) && Enabled(w, step)
    ensures Sound(Apply(w, step))
  {
    match step
    case Acquire(c, spec, allowBusy) => TurnKeepsSound(Ensured(w), c, Ensured(w).current.value, spec, allowBusy);
    case Wake(c) => TurnKeepsSound(w, c, w.calls[c].state, w.calls[c].spec, w.calls[c].allowBusy);
    case OpenSucceeds(c, s) => OpenKeepsSound(w, step);
    case OpenFails(c) => OpenKeepsSound(w, step);
    case Release(c) =>
    case CacheSnapshot(spec, startup) =>
    case SetStartInfo(key, info) =>
    case Reset => ClearKeepsSound(w);
    case CloseSession => ClearKeepsSound(w);
    case CloseDetached(s) =>
  }

  lemma {:induction false} AlwaysSound(steps: seq<Step>, habits: Habits)
    requires Play(START, steps, habits).Some?
    ensures Sound(Play(START, steps, habits).value)
    decreases |steps|
  {
    if steps != [] {
      var before := steps[..|steps| - 1];
      AlwaysSound(before, habits);
      StepKeepsSound(Play(START, before, habits).value, steps[|steps| - 1]);
    }
  }

  // ---------------------------------------------------------------------------
  // Exclusion, when the stream is reset only while idle

  /** On the session's record: whoever is opening is alone and the record says so,
      whoever holds a lease is alone and the record says so. */
  ghost predicate Exclusive(w: World) {
    HasRecord(w) && (w.current.Some? ==> ExclusiveOn(w, w.current.value))
  }

  ghost predicate OpeningOn(w: World, c: nat, i: nat) {
    c in w.calls && w.calls[c].Opening? && w.calls[c].state == i
  }

  ghost predicate HoldingOn(w: World, c: nat, i: nat) {
    c in w.calls && w.calls[c].Holding? && w.calls[c].state == i
  }

  ghost predicate ExclusiveOn(w: World, i: nat)
    requires i < |w.states|
  {
    && (forall c :: c in w.calls && w.calls[c].Opening? && w.calls[c].state == i ==> w.states[i].opening)
    && (forall c :: c in w.calls && w.calls[c].Holding? && w.calls[c].state == i ==> w.states[i].inUse)
    && (forall c, d ::
          (c in w.calls && d in w.calls && w.calls[c].Opening? && w.calls[d].Opening?
           && w.calls[c].state == w.calls[d].state == i)
          ==> c == d)
    && (forall c, d ::
          (c in w.calls && d in w.calls && w.calls[c].Holding? && w.calls[d].Holding?
           && w.calls[c].state == w.calls[d].state == i)
          ==> c == d)
    && (w.states[i].opening ==> w.states[i].stream.None?)
    && (w.states[i].inUse ==> w.states[i].stream.Some?)
  }

  lemma TurnKeepsExclusive(w: World, c: nat, i: nat, spec: Spec, allowBusy: bool)
    requires Sound(w) && Exclusive(w) && i < |w.states|
    requires c in w.calls ==> w.calls[c].Waiting?
    ensures Exclusive(TakeTurn(w, c, i, spec, allowBusy))
  {
  }

  lemma OpenKeepsExclusive(w: World, step: Step)
    requires Sound(w) && Exclusive(w) && Enabled(w, step) && (step.OpenSucceeds? || step.OpenFails?)
    ensures Exclusive(Apply(w, step))
  {
  }

  lemma ReleaseKeepsExclusive(w: World, c: nat)
    requires Sound(w) && Exclusive(w) && Enabled(w, Release(c))
    ensures Exclusive(Apply(w, Release(c)))
  {
  }

  lemma EnsuredKeepsExclusive(w: World)
    requires Sound(w) && Exclusive(w)
    ensures Sound(Ensured(w)) && Exclusive(Ensured(w))
  {
  }

  lemma RecordStepKeepsExclusive(w: World, step: Step)
    requires Sound(w) && Exclusive(w) && Enabled(w, step)
    requires step.CacheSnapshot? || step.SetStartInfo?
    ensures Exclusive(Apply(w, step))
  {
    EnsuredKeepsExclusive(w);
  }

  lemma IdleClearKeepsExclusive(w: World)
    requires Sound(w) && Exclusive(w) && Idle(w)
    ensures Exclusive(Clear(w))
  {
  }

  lemma {:induction false} StepKeepsExclusive(w: World, step: Step)
    requires Sound(w) && Exclusive(w) && Enabled(w, step)
    requires step.Reset? ==> Idle(w)
    ensures Exclusive(Apply(w, step))
  {
    match step
    case Acquire(c, spec, allowBusy) =>
      EnsuredKeepsExclusive(w);
      TurnKeepsExclusive(Ensured(w), c, Ensured(w).current.value, spec, allowBusy);
    case Wake(c) => TurnKeepsExclusive(w, c, w.calls[c].state, w.calls[c].spec, w.calls[c].allowBusy);
    case OpenSucceeds(c, s) => OpenKeepsExclusive(w, step);
    case OpenFails(c) => OpenKeepsExclusive(w, step);
    case Release(c) => ReleaseKeepsExclusive(w, c);
    case CacheSnapshot(spec, startup) => RecordStepKeepsExclusive(w, step);
    case SetStartInfo(key, info) => RecordStepKeepsExclusive(w, step);
    case Reset => IdleClearKeepsExclusive(w);
    case CloseSession =>
    case CloseDetached(s) =>
  }

  lemma {:induction false} AlwaysExclusive(steps: seq<Step>, habits: Habits)
    requires habits.idleResets && Play(START, steps, habits).Some?
    ensures Exclusive(Play(START, steps, habits).value)
    decreases |steps|
  {
    if steps != [] {
      var before := steps[..|steps| - 1];
      AlwaysExclusive(before, habits);
      AlwaysSound(before, habits);
      StepKeepsExclusive(Play(START, before, habits).value, steps[|steps| - 1]);
    }
  }

  /** At most one lease reaches the stream, in every state of every run in which
      the stream is reset only while idle; and meanwhile nobody is opening one. */
  lemma OneReader(steps: seq<Step>, habits: Habits, c: nat, d: nat)
    requires habits.idleResets && Play(START, steps, habits).Some?
    ensures var w := Play(START, steps, habits).value;
            && (ActiveStream(w, c).Some? && ActiveStream(w, d).Some? ==> c == d)
            && (ActiveStream(w, c).Some? ==> !OpeningOn(w, d, w.calls[c].state))
  {
    AlwaysSound(steps, habits);
    AlwaysExclusive(steps, habits);
  }

  // ---------------------------------------------------------------------------
  // No lost wakeup

  /** The session's record is never busy for nobody: some caller is opening when it
      says so, some lease is held when it says so. */
  ghost predicate Attended(w: World) {
    HasRecord(w) &&
    (w.current.Some? ==>
       var i := w.current.value;
       && (w.states[i].opening ==> exists c :: OpeningOn(w, c, i))
       && (w.states[i].inUse ==> exists c :: HoldingOn(w, c, i)))
  }

  lemma StillThere(w: World, step: Step, c: nat, i: nat)
    requires Sound(w) && Enabled(w, step)
    requires OpeningOn(w, c, i) || HoldingOn(w, c, i)
    requires step.OpenSucceeds? || step.OpenFails? || step.Release? ==> step.call != c
    ensures var w' := Apply(w, step);
            (OpeningOn(w, c, i) ==> OpeningOn(w', c, i)) && (HoldingOn(w, c, i) ==> HoldingOn(w', c, i))
  {
  }

  lemma TurnIsAttended(w: World, c: nat, i: nat, spec: Spec, allowBusy: bool)
    requires i < |w.states|
    ensures var (p, turn) := Attempt(w.states[i], spec, allowBusy);
            var w' := TakeTurn(w, c, i, spec, allowBusy);
            && (turn.Open? ==> OpeningOn(w', c, i))
            && (turn.Reuse? ==> HoldingOn(w', c, i))
            && (!turn.Open? && !turn.Reuse? ==> w'.states == w.states)
            && w'.current == w.current
  {
  }

  lemma StepKeepsAttended(w: World, step: Step)
    requires Sound(w) && Attended(w) && Enabled(w, step)
    ensures Attended(Apply(w, step))
  {
    var w' := Apply(w, step);
    if w.current.Some? && w'.current == w.current {
      var i := w.current.value;
      if c :| OpeningOn(w, c, i) && (step.OpenSucceeds? || step.OpenFails? || step.Release? ==> step.call != c) {
        StillThere(w, step, c, i);
      }
      if c :| HoldingOn(w, c, i) && (step.OpenSucceeds? || step.OpenFails? || step.Release? ==> step.call != c) {
        StillThere(w, step, c, i);
      }
    }
    match step
    case Acquire(c, spec, allowBusy) =>
      TurnIsAttended(Ensured(w), c, Ensured(w).current.value, spec, allowBusy);
    case Wake(c) =>
      TurnIsAttended(w, c, w.calls[c].state, w.calls[c].spec, w.calls[c].allowBusy);
    case OpenSucceeds(c, s) =>
      assert HoldingOn(w', c, w.calls[c].state);
    case OpenFails(c) =>
    case Release(c) =>
    case CacheSnapshot(spec, startup) =>
    case SetStartInfo(key, info) =>
    case Reset =>
    case CloseSession =>
    case CloseDetached(s) =>
  }

  lemma {:induction false} AlwaysAttended(steps: seq<Step>, habits: Habits)
    requires Play(START, steps, habits).Some?
    ensures Attended(Play(START, steps, habits).value)
    decreases |steps|
  {
    if steps != [] {
      var before := steps[..|steps| - 1];
      AlwaysAttended(before, habits);
      AlwaysSound(before, habits);
      StepKeepsAttended(Play(START, before, habits).value, steps[|steps| - 1]);
    }
  }

  predicate ParkedOn(w: World, c: nat, i: nat) {
    c in w.calls && w.calls[c].Waiting? && w.calls[c].state == i && !w.calls[c].signalled
  }

  /** No lost wakeup. In every state of every run, a caller parked on the session's
      record waits for somebody: a caller that is opening or a lease that is held,
      and whichever it is, its next step signals the parked caller. */
  lemma ParkedCallersWaitForSomebody(steps: seq<Step>, habits: Habits, c: nat) returns (d: nat)
    requires Play(START, steps, habits).Some?
    requires var w := Play(START, steps, habits).value; w.current.Some? && ParkedOn(w, c, w.current.value)
    ensures var w := Play(START, steps, habits).value;
            var i := w.current.value;
            && c != d && (OpeningOn(w, d, i) || HoldingOn(w, d, i))
            && (forall step ::
                  Enabled(w, step) && (step.OpenSucceeds? || step.OpenFails? || step.Release?) && step.call == d ==>
                  c in Apply(w, step).calls && Apply(w, step).calls[c] == w.calls[c].(signalled := true))
  {
    AlwaysSound(steps, habits);
    AlwaysAttended(steps, habits);
    var w := Play(START, steps, habits).value;
    var i := w.current.value;
    if w.states[i].opening {
      d :| OpeningOn(w, d, i);
    } else {
      d :| HoldingOn(w, d, i);
    }
  }

  // ---------------------------------------------------------------------------
  // Idle resets are what it takes

  lemma {:induction false} FreshNumber(used: set<nat>) returns (n: nat)
    ensures n !in used && n + 1 !in used
  {
    n := AboveAll(used);
  }

  lemma {:induction false} AboveAll(used: set<nat>) returns (n: nat)
    ensures forall m: nat :: m in used ==> m < n
  {
    n := 0;
    if used != {} {
      var k :| k in used;
      var above := AboveAll(used - {k});
      n := if above <= k then k + 1 else above;
      forall m: nat | m in used ensures m < n {
        assert m == k || m in used - {k};
      }
    }
  }

  // An opener that finishes holds a lease on its record, and others keep theirs.
  lemma OpenThenHold(w: World, c: nat, s: Stream, other: nat)
    requires Sound(w) && Enabled(w, OpenSucceeds(c, s))
    ensures var w' := Apply(w, OpenSucceeds(c, s));
            && Sound(w') && w'.current == w.current && w'.openedFor.Keys == w.openedFor.Keys + {s}
            && w'.calls[c] == Holding(w.calls[c].state)
            && w'.states[w.calls[c].state].stream == Some(s)
            && (other != c && other in w.calls && !w.calls[other].Waiting? ==>
                  other in w'.calls && w'.calls[other] == w.calls[other])
  {
    StepKeepsSound(w, OpenSucceeds(c, s));
  }

  lemma PlayOne(w: World, step: Step, habits: Habits)
    requires Enabled(w, step) && Obeys(w, step, habits)
    ensures Play(w, [step], habits) == Some(Apply(w, step))
  {
    PlayOneMore(w, [], habits, step);
    assert [] + [step] == [step];
  }

  // On a record that looks idle, the next caller opens.
  lemma AcquireOnReset(w: World, d: nat, wanted: Spec) returns (w': World)
    requires Sound(w) && w.current.Some? && d !in w.calls && wanted.key != ""
    requires w.states[w.current.value] == Apply(w, Reset).states[w.current.value]
    requires Enabled(w, Acquire(d, wanted, false))
    ensures w' == Apply(w, Acquire(d, wanted, false))
    ensures Sound(w') && w'.current == w.current && w'.openedFor == w.openedFor
    ensures w'.calls == w.calls[d := Opening(w.current.value, wanted)]
  {
    w' := Apply(w, Acquire(d, wanted, false));
    StepKeepsSound(w, Acquire(d, wanted, false));
  }

  // A second caller opens right after a reset, whoever else is still around.
  lemma AcquireAfterReset(w: World, c: nat, d: nat, wanted: Spec, habits: Habits) returns (w': World)
    requires Sound(w) && w.current.Some? && d !in w.calls && wanted.key != ""
    requires c in w.calls && (w.calls[c].Holding? || w.calls[c].Opening?)
    ensures Play(Apply(w, Reset), [Acquire(d, wanted, false)], habits) == Some(w')
    ensures Sound(w') && w'.current == w.current && w'.openedFor == w.openedFor
    ensures c in w'.calls && w'.calls[c] == w.calls[c]
    ensures d in w'.calls && w'.calls[d] == Opening(w.current.value, wanted)
  {
    var w1 := Apply(w, Reset);
    StepKeepsSound(w, Reset);
    w' := AcquireOnReset(w1, d, wanted);
    PlayOne(w1, Acquire(d, wanted, false), habits);
  }

  /** Whatever led here, a reset while a lease is held or a stream is being opened
      lets two leases reach one stream a few steps later. */
  lemma BusyResetBreaksExclusion(w: World, c: nat, d: nat, s: Stream, t: Stream, habits: Habits)
      returns (steps: seq<Step>, w': World)
    requires Sound(w) && w.current.Some? && d !in w.calls
    requires HoldingOn(w, c, w.current.value) || OpeningOn(w, c, w.current.value)
    requires s !in w.openedFor && t !in w.openedFor && s != t
    ensures Play(Apply(w, Reset), steps, habits) == Some(w')
    ensures c != d && ActiveStream(w', c) == ActiveStream(w', d) == Some(t)
  {
    var wanted := Spec("k", "", 0);
    var w1 := Apply(w, Reset);
    w' := AcquireAfterReset(w, c, d, wanted, habits);
    steps := [Acquire(d, wanted, false)];
    if w.calls[c].Opening? {
      PlayOneMore(w1, steps, habits, OpenSucceeds(c, s));
      OpenThenHold(w', c, s, d);
      steps, w' := steps + [OpenSucceeds(c, s)], Apply(w', OpenSucceeds(c, s));
    }
    PlayOneMore(w1, steps, habits, OpenSucceeds(d, t));
    OpenThenHold(w', d, t, c);
    steps, w' := steps + [OpenSucceeds(d, t)], Apply(w', OpenSucceeds(d, t));
  }

  ghost predicate OneReaderIn(w: World) {
    forall c, d :: ActiveStream(w, c).Some? && ActiveStream(w, d).Some? ==> c == d
  }

  lemma {:induction false} StaysExclusive(w: World, steps: seq<Step>, habits: Habits)
    requires Sound(w) && Exclusive(w) && habits.idleResets && Play(w, steps, habits).Some?
    ensures var w' := Play(w, steps, habits).value; Sound(w') && Exclusive(w')
    decreases |steps|
  {
    if steps != [] {
      var before, last := steps[..|steps| - 1], steps[|steps| - 1];
      StaysExclusive(w, before, habits);
      StepKeepsSound(Play(w, before, habits).value, last);
      StepKeepsExclusive(Play(w, before, habits).value, last);
    }
  }

  lemma IdleResetIsSafe(w: World, more: seq<Step>, habits: Habits)
    requires Sound(w) && Exclusive(w) && Idle(w) && habits.idleResets && Play(Apply(w, Reset), more, habits).Some?
    ensures OneReaderIn(Play(Apply(w, Reset), more, habits).value)
  {
    StepKeepsSound(w, Reset);
    StepKeepsExclusive(w, Reset);
    StaysExclusive(Apply(w, Reset), more, habits);
  }

  lemma BusyResetIsUnsafe(w: World, habits: Habits) returns (more: seq<Step>)
    requires Sound(w) && Attended(w) && !Idle(w)
    ensures Play(Apply(w, Reset), more, habits).Some? && !OneReaderIn(Play(Apply(w, Reset), more, habits).value)
  {
    var i := w.current.value;
    var c :| OpeningOn(w, c, i) || HoldingOn(w, c, i);
    var d := FreshNumber(w.calls.Keys);
    var s := FreshNumber(w.openedFor.Keys);
    var w';
    more, w' := BusyResetBreaksExclusion(w, c, d, s, s + 1, habits);
  }

  /** Resetting is safe exactly when idle: whatever follows, as long as later
      resets are idle too, has one reader at a time if and only if this one was. */
  lemma ResetIsSafeExactlyWhenIdle(steps: seq<Step>, habits: Habits)
    requires habits.idleResets && Play(START, steps, habits).Some?
    ensures var w := Play(START, steps, habits).value;
            HasRecord(w) &&
            (Idle(w) <==>
               forall more :: Play(Apply(w, Reset), more, habits).Some? ==>
                 OneReaderIn(Play(Apply(w, Reset), more, habits).value))
  {
    var w := Play(START, steps, habits).value;
    AlwaysSound(steps, habits);
    AlwaysExclusive(steps, habits);
    AlwaysAttended(steps, habits);
    if Idle(w) {
      forall more | Play(Apply(w, Reset), more, habits).Some?
        ensures OneReaderIn(Play(Apply(w, Reset), more, habits).value)
      {
        IdleResetIsSafe(w, more, habits);
      }
    } else {
      var more := BusyResetIsUnsafe(w, habits);
    }
  }

  // ---------------------------------------------------------------------------
  // No use after close

  ghost predicate DeadRecord(w: World, i: nat) {
    i < |w.states| && w.current != Some(i)
  }

  lemma StepKeepsDead(w: World, step: Step, i: nat)
    requires DeadRecord(w, i) && Enabled(w, step)
    ensures DeadRecord(Apply(w, step), i)
  {
  }

  lemma {:induction false} DeadStaysDead(w: World, steps: seq<Step>, habits: Habits, i: nat)
    requires DeadRecord(w, i) && Play(w, steps, habits).Some?
    ensures DeadRecord(Play(w, steps, habits).value, i)
    decreases |steps|
  {
    if steps != [] {
      var before := steps[..|steps| - 1];
      DeadStaysDead(w, before, habits, i);
      StepKeepsDead(Play(w, before, habits).value, steps[|steps| - 1], i);
    }
  }

  // A lease that is held stays the same lease until it is closed.
  ghost predicate SameLease(w: World, c: nat, call: Call) {
    c in w.calls && (w.calls[c] == call || w.calls[c].Done?)
  }

  lemma StepKeepsLease(w: World, step: Step, c: nat, call: Call)
    requires SameLease(w, c, call) && (call.Holding? || call.Done?) && Enabled(w, step)
    ensures SameLease(Apply(w, step), c, call)
  {
  }

  lemma {:induction false} LeaseKeepsItsRecord(w: World, steps: seq<Step>, habits: Habits, c: nat)
    requires Play(w, steps, habits).Some?
    requires c in w.calls && (w.calls[c].Holding? || w.calls[c].Done?)
    ensures SameLease(Play(w, steps, habits).value, c, w.calls[c])
    decreases |steps|
  {
    if steps != [] {
      var before := steps[..|steps| - 1];
      LeaseKeepsItsRecord(w, before, habits, c);
      StepKeepsLease(Play(w, before, habits).value, steps[|steps| - 1], c, w.calls[c]);
    }
  }

  /** A lease taken before the session closes never yields a stream again, whatever
      happens afterwards, a new acquire on the closed session included. */
  lemma {:induction false} NoUseAfterClose(steps: seq<Step>, after: seq<Step>, habits: Habits, c: nat)
    requires Play(START, steps, habits).Some?
    requires var w := Play(START, steps, habits).value;
             && c in w.calls && w.calls[c].Holding?
             && Enabled(w, CloseSession)
             && Play(Apply(w, CloseSession), after, habits).Some?
    ensures ActiveStream(Play(Apply(Play(START, steps, habits).value, CloseSession), after, habits).value, c) == None
  {
    var w := Play(START, steps, habits).value;
    AlwaysSound(steps, habits);
    StepKeepsSound(w, CloseSession);
    var w' := Apply(w, CloseSession);
    DeadStaysDead(w', after, habits, w.calls[c].state);
    LeaseKeepsItsRecord(w', after, habits, c);
  }

  // ---------------------------------------------------------------------------
  // Every opened stream is accounted for, when the session closes quietly

  /** Streams anywhere in the books were opened. */
  ghost predicate Known(w: World) {
    && (forall i :: 0 <= i < |w.states| && w.states[i].stream.Some? ==> w.states[i].stream.value in w.openedFor)
    && w.closing <= w.openedFor.Keys && w.closed <= w.openedFor.Keys
  }

  lemma TurnKeepsKnown(w: World, c: nat, i: nat, spec: Spec, allowBusy: bool)
    requires Known(w) && i < |w.states|
    ensures Known(TakeTurn(w, c, i, spec, allowBusy))
  {
  }

  lemma StepKeepsKnown(w: World, step: Step)
    requires Sound(w) && Known(w) && Enabled(w, step)
    ensures Known(Apply(w, step))
  {
    if step.Acquire? {
      TurnKeepsKnown(Ensured(w), step.call, Ensured(w).current.value, step.spec, step.allowBusy);
    } else if step.Wake? {
      var call := w.calls[step.call];
      TurnKeepsKnown(w, step.call, call.state, call.spec, call.allowBusy);
    }
  }

  lemma {:induction false} AlwaysKnown(steps: seq<Step>, habits: Habits)
    requires Play(START, steps, habits).Some?
    ensures Known(Play(START, steps, habits).value)
    decreases |steps|
  {
    if steps != [] {
      var before := steps[..|steps| - 1];
      AlwaysKnown(before, habits);
      AlwaysSound(before, habits);
      StepKeepsKnown(Play(START, before, habits).value, steps[|steps| - 1]);
    }
  }

  ghost predicate Installed(w: World, s: Stream) {
    w.current.Some? && w.current.value < |w.states| && w.states[w.current.value].stream == Some(s)
  }

  /** Each opened stream is the installed one, or on its way to be closed, or
      closed, and only one of these; and no caller is still at work on a record
      that is not the session's. */
  ghost predicate Conserved(w: World) {
    && w.closing !! w.closed
    && (forall s :: s in w.openedFor ==> s in w.closing || s in w.closed || Installed(w, s))
    && (forall s :: Installed(w, s) ==> s in w.openedFor && s !in w.closing && s !in w.closed)
    && (forall c :: c in w.calls && (w.calls[c].Waiting? || w.calls[c].Opening?) ==>
          w.current == Some(w.calls[c].state))
  }

  lemma TurnKeepsConserved(w: World, c: nat, i: nat, spec: Spec, allowBusy: bool)
    requires Sound(w) && Known(w) && Conserved(w) && w.current == Some(i)
    ensures Conserved(TakeTurn(w, c, i, spec, allowBusy))
  {
  }

  lemma ClearKeepsConserved(w: World)
    requires Sound(w) && Known(w) && Conserved(w)
    ensures Conserved(Clear(w))
    ensures Quiet(w) ==> Conserved(Clear(w).(current := None))
  {
    forall s | s in w.openedFor
      ensures s in Clear(w).closing || s in Clear(w).closed
    {
      assert s in w.closing || s in w.closed || Installed(w, s);
    }
  }

  lemma OpenKeepsConserved(w: World, c: nat, s: Stream)
    requires Sound(w) && Exclusive(w) && Known(w) && Conserved(w) && Enabled(w, OpenSucceeds(c, s))
    ensures Conserved(Apply(w, OpenSucceeds(c, s)))
  {
    assert Installed(Apply(w, OpenSucceeds(c, s)), s);
  }

  lemma SnapshotKeepsConserved(w: World, spec: Spec, startup: Option<int>)
    requires Sound(w) && Known(w) && Conserved(w)
    ensures Conserved(Apply(w, CacheSnapshot(spec, startup)))
  {
  }

  lemma {:induction false} StepKeepsConserved(w: World, step: Step)
    requires Sound(w) && Exclusive(w) && Known(w) && Conserved(w) && Enabled(w, step)
    requires step.CloseSession? ==> Quiet(w)
    ensures Conserved(Apply(w, step))
  {
    match step
    case Acquire(c, spec, allowBusy) =>
      EnsuredKeepsExclusive(w);
      TurnKeepsConserved(Ensured(w), c, Ensured(w).current.value, spec, allowBusy);
    case Wake(c) => TurnKeepsConserved(w, c, w.calls[c].state, w.calls[c].spec, w.calls[c].allowBusy);
    case OpenSucceeds(c, s) => OpenKeepsConserved(w, c, s);
    case OpenFails(c) =>
    case Release(c) =>
    case CacheSnapshot(spec, startup) => SnapshotKeepsConserved(w, spec, startup);
    case SetStartInfo(key, info) =>
    case Reset => ClearKeepsConserved(w);
    case CloseSession => ClearKeepsConserved(w);
    case CloseDetached(s) =>
  }

  lemma {:induction false} AlwaysConserved(steps: seq<Step>, habits: Habits)
    requires habits.idleResets && habits.quietCloses && Play(START, steps, habits).Some?
    ensures var w := Play(START, steps, habits).value; Known(w) && Conserved(w)
    decreases |steps|
  {
    if steps != [] {
      var before, last := steps[..|steps| - 1], steps[|steps| - 1];
      var w := Play(START, before, habits).value;
      AlwaysConserved(before, habits);
      AlwaysSound(before, habits);
      AlwaysExclusive(before, habits);
      StepKeepsKnown(w, last);
      StepKeepsConserved(w, last);
    }
  }

  /** A stream that is open on a record which is not the session's and is in use
      for good: nobody is left who would close it. */
  ghost predicate Orphaned(w: World, s: Stream) {
    && s in w.openedFor && s !in w.closing && s !in w.closed
    && (forall i :: 0 <= i < |w.states| && w.states[i].stream == Some(s) ==> w.current != Some(i) && w.states[i].inUse)
  }

  lemma OpenKeepsOrphaned(w: World, step: Step, s: Stream)
    requires Sound(w) && Known(w) && Orphaned(w, s) && Enabled(w, step) && (step.OpenSucceeds? || step.OpenFails?)
    ensures Orphaned(Apply(w, step), s)
  {
  }

  lemma StepKeepsOrphaned(w: World, step: Step, s: Stream)
    requires Sound(w) && Known(w) && Orphaned(w, s) && Enabled(w, step)
    ensures Orphaned(Apply(w, step), s)
  {
    if step.OpenSucceeds? || step.OpenFails? {
      OpenKeepsOrphaned(w, step, s);
    }
  }

  /** An orphaned stream is never closed, whatever anybody does later. */
  lemma {:induction false} OrphanedForGood(w: World, steps: seq<Step>, habits: Habits, s: Stream)
    requires Sound(w) && Known(w) && Orphaned(w, s) && Play(w, steps, habits).Some?
    ensures var w' := Play(w, steps, habits).value;
            Sound(w') && Known(w') && Orphaned(w', s) && s !in w'.closed
    decreases |steps|
  {
    if steps != [] {
      var before, last := steps[..|steps| - 1], steps[|steps| - 1];
      OrphanedForGood(w, before, habits, s);
      var w0 := Play(w, before, habits).value;
      StepKeepsSound(w0, last);
      StepKeepsKnown(w0, last);
      StepKeepsOrphaned(w0, last, s);
    }
  }

  // After the session closes, a caller that was waiting on its record or opening
  // for it is opening for a record that is no longer the session's.
  lemma {:induction false} CloseUnderACaller(w: World, c: nat, habits: Habits) returns (more: seq<Step>, w': World)
    requires Sound(w) && Known(w) && w.current.Some?
    requires c in w.calls && (w.calls[c].Waiting? || w.calls[c].Opening?) && w.calls[c].state == w.current.value
    ensures Play(Apply(w, CloseSession), more, habits) == Some(w')
    ensures Sound(w') && Known(w') && w'.current == None && w'.openedFor == w.openedFor
    ensures OpeningOn(w', c, w.current.value)
  {
    more, w' := [], Apply(w, CloseSession);
    StepKeepsSound(w, CloseSession);
    StepKeepsKnown(w, CloseSession);
    if w.calls[c].Waiting? {
      PlayOneMore(w', more, habits, Wake(c));
      StepKeepsSound(w', Wake(c));
      StepKeepsKnown(w', Wake(c));
      more, w' := more + [Wake(c)], Apply(w', Wake(c));
    }
  }

  /** Closing the session under a caller that is waiting for its stream or opening
      it can orphan a stream: that caller carries on with the record it has. */
  lemma {:induction false} UnquietCloseOrphansAStream(w: World, c: nat, s: Stream, habits: Habits)
      returns (more: seq<Step>, w': World)
    requires Sound(w) && Known(w) && w.current.Some?
    requires c in w.calls && (w.calls[c].Waiting? || w.calls[c].Opening?) && w.calls[c].state == w.current.value
    requires s !in w.openedFor
    ensures Play(Apply(w, CloseSession), more, habits) == Some(w')
    ensures Sound(w') && Known(w') && Orphaned(w', s)
  {
    more, w' := CloseUnderACaller(w, c, habits);
    var open := OpenSucceeds(c, s);
    PlayOneMore(Apply(w, CloseSession), more, habits, open);
    StepKeepsSound(w', open);
    StepKeepsKnown(w', open);
    more, w' := more + [open], Apply(w', open);
  }

  lemma {:induction false} StaysConserved(w: World, steps: seq<Step>, habits: Habits)
    requires Sound(w) && Exclusive(w) && Known(w) && Conserved(w)
    requires habits.idleResets && habits.quietCloses && Play(w, steps, habits).Some?
    ensures var w' := Play(w, steps, habits).value; Sound(w') && Exclusive(w') && Known(w') && Conserved(w')
    decreases |steps|
  {
    if steps != [] {
      var before, last := steps[..|steps| - 1], steps[|steps| - 1];
      StaysConserved(w, before, habits);
      var w0 := Play(w, before, habits).value;
      StepKeepsSound(w0, last);
      StepKeepsExclusive(w0, last);
      StepKeepsKnown(w0, last);
      StepKeepsConserved(w0, last);
    }
  }

  lemma ConservedHasNoOrphan(w: World, s: Stream)
    requires Sound(w) && Conserved(w)
    ensures !Orphaned(w, s)
  {
    if s in w.openedFor && s !in w.closing && s !in w.closed {
      assert Installed(w, s);
    }
  }

  /** Closing loses no stream exactly when it is quiet: whatever careful callers do
      next, no stream ends up beyond reach if and only if nobody was waiting for
      the session's stream or opening it. */
  lemma CloseIsSafeExactlyWhenQuiet(steps: seq<Step>, habits: Habits)
    requires habits.idleResets && habits.quietCloses && Play(START, steps, habits).Some?
    ensures var w := Play(START, steps, habits).value;
            HasRecord(w) &&
            (Quiet(w) <==> forall more, s: Stream ::
               Play(Apply(w, CloseSession), more, habits).Some? ==>
                 !Orphaned(Play(Apply(w, CloseSession), more, habits).value, s))
  {
    var w := Play(START, steps, habits).value;
    AlwaysSound(steps, habits);
    AlwaysExclusive(steps, habits);
    AlwaysConserved(steps, habits);
    if Quiet(w) {
      StepKeepsSound(w, CloseSession);
      StepKeepsExclusive(w, CloseSession);
      StepKeepsKnown(w, CloseSession);
      StepKeepsConserved(w, CloseSession);
      forall more, s: Stream | Play(Apply(w, CloseSession), more, habits).Some?
        ensures !Orphaned(Play(Apply(w, CloseSession), more, habits).value, s)
      {
        StaysConserved(Apply(w, CloseSession), more, habits);
        ConservedHasNoOrphan(Play(Apply(w, CloseSession), more, habits).value, s);
      }
    } else {
      var c :| c in w.calls && (w.calls[c].Waiting? || w.calls[c].Opening?) && w.current == Some(w.calls[c].state);
      var s := FreshNumber(w.openedFor.Keys);
      var more, w' := UnquietCloseOrphansAStream(w, c, s, habits);
      assert Orphaned(Play(Apply(w, CloseSession), more, habits).value, s);
    }
  }

  // ---------------------------------------------------------------------------
  // What closing does to several waiters

  /** Parked on a record that is in use, is not the session's, and that nobody is
      opening for. */
  ghost predicate Stranded(w: World, c: nat, i: nat) {
    && DeadRecord(w, i) && ParkedOn(w, c, i) && w.states[i].inUse
    && (forall d :: d in w.calls && w.calls[d].Opening? ==> w.calls[d].state != i)
  }

  lemma TurnKeepsStranded(w: World, step: Step, c: nat, i: nat)
    requires Sound(w) && Stranded(w, c, i) && Enabled(w, step) && (step.Acquire? || step.Wake?)
    ensures Stranded(Apply(w, step), c, i)
  {
  }

  lemma StepKeepsStranded(w: World, step: Step, c: nat, i: nat)
    requires Sound(w) && Stranded(w, c, i) && Enabled(w, step)
    ensures Stranded(Apply(w, step), c, i)
  {
    if step.Acquire? || step.Wake? {
      TurnKeepsStranded(w, step, c, i);
    }
  }

  /** A stranded caller is never signalled, not even by the lease that is in its
      way: a lease gives its record back only while it is the session's. */
  lemma {:induction false} StrandedForGood(w: World, steps: seq<Step>, habits: Habits, c: nat, i: nat)
    requires Sound(w) && Stranded(w, c, i) && Play(w, steps, habits).Some?
    ensures Sound(Play(w, steps, habits).value) && Stranded(Play(w, steps, habits).value, c, i)
    decreases |steps|
  {
    if steps != [] {
      var before, last := steps[..|steps| - 1], steps[|steps| - 1];
      StrandedForGood(w, before, habits, c, i);
      StepKeepsSound(Play(w, before, habits).value, last);
      StepKeepsStranded(Play(w, before, habits).value, last, c, i);
    }
  }

  // A caller still to get a stream out of a record: waiting for it or opening it.
  predicate Pending(w: World, c: nat, i: nat) {
    c in w.calls && (w.calls[c].Waiting? || w.calls[c].Opening?) && w.calls[c].state == i
  }

  // The waiting caller `d` does not mind finding the stream of caller `c` in use.
  predicate Tolerates(w: World, d: nat, c: nat)
    requires d in w.calls && w.calls[d].Waiting? && c in w.calls && (w.calls[c].Waiting? || w.calls[c].Opening?)
  {
    w.calls[d].allowBusy && w.calls[d].spec.key == w.calls[c].spec.key
  }

  ghost predicate InTheWay(w: World, c: nat, d: nat, i: nat) {
    c != d && Pending(w, c, i) && Pending(w, d, i) && w.calls[d].Waiting? && !Tolerates(w, d, c)
  }

  /** Two callers are pending on a record, one of them waiting and unwilling to find
      it busy with the other. */
  ghost predicate Crowded(w: World, i: nat) {
    exists c, d :: InTheWay(w, c, d, i)
  }

  // --- from a crowded record to a stranded caller

  // A dead record nobody has been at since it was cleared, but the openers.
  ghost predicate Cleared(w: World, i: nat) {
    DeadRecord(w, i) && !Busy(w.states[i]) && w.states[i].stream == None
  }

  function Openers(w: World, i: nat): set<nat> {
    set e | e in w.calls && w.calls[e].Opening? && w.calls[e].state == i
  }

  // What the steps up to the stranding keep of the two callers.
  ghost predicate Poised(w: World, c: nat, d: nat, i: nat) {
    && Sound(w) && Cleared(w, i) && InTheWay(w, c, d, i)
    && w.calls[d].signalled && (w.calls[c].Waiting? ==> w.calls[c].signalled)
  }

  lemma OtherFails(w: World, c: nat, d: nat, i: nat, e: nat)
    requires Poised(w, c, d, i) && OpeningOn(w, e, i) && e != c
    ensures Enabled(w, OpenFails(e))
    ensures var w' := Apply(w, OpenFails(e));
            && Poised(w', c, d, i) && w'.openedFor == w.openedFor
            && Openers(w', i) == Openers(w, i) - {e}
  {
    StepKeepsSound(w, OpenFails(e));
  }

  // Every opener on the record but `c` fails.
  lemma {:induction false} OthersFail(w0: World, steps: seq<Step>, w: World, c: nat, d: nat, i: nat, habits: Habits)
      returns (steps': seq<Step>, w': World)
    requires Play(w0, steps, habits) == Some(w) && Poised(w, c, d, i)
    ensures Play(w0, steps', habits) == Some(w') && Poised(w', c, d, i) && w'.openedFor == w.openedFor
    ensures Openers(w', i) <= {c}
    decreases Openers(w, i)
  {
    steps', w' := steps, w;
    if e :| e in Openers(w, i) && e != c {
      OtherFails(w, c, d, i, e);
      PlayOneMore(w0, steps, habits, OpenFails(e));
      steps', w' := OthersFail(w0, steps + [OpenFails(e)], Apply(w, OpenFails(e)), c, d, i, habits);
    }
  }

  // Caller `c` opens, if it was waiting; `d` waits on.
  lemma {:induction false} FirstOpens(w0: World, steps: seq<Step>, w: World, c: nat, d: nat, i: nat, habits: Habits)
      returns (steps': seq<Step>, w': World)
    requires Play(w0, steps, habits) == Some(w) && Poised(w, c, d, i) && Openers(w, i) <= {c}
    ensures Play(w0, steps', habits) == Some(w') && Sound(w') && DeadRecord(w', i) && w'.openedFor == w.openedFor
    ensures OpeningOn(w', c, i) && InTheWay(w', c, d, i) && w'.calls[d].signalled && Openers(w', i) <= {c}
  {
    steps', w' := steps, w;
    if w.calls[c].Waiting? {
      PlayOneMore(w0, steps, habits, Wake(c));
      StepKeepsSound(w, Wake(c));
      steps', w' := steps + [Wake(c)], Apply(w, Wake(c));
      assert w'.calls == w.calls[c := Opening(i, w.calls[c].spec)];
    }
  }

  // It succeeds, and `d` finds the record in use for good.
  lemma {:induction false} SecondParks(w0: World, steps: seq<Step>, w: World, c: nat, d: nat, i: nat, s: Stream,
                                       habits: Habits)
      returns (steps': seq<Step>, w': World)
    requires Play(w0, steps, habits) == Some(w) && Sound(w) && DeadRecord(w, i) && s !in w.openedFor
    requires OpeningOn(w, c, i) && InTheWay(w, c, d, i) && w.calls[d].signalled && Openers(w, i) <= {c}
    ensures Play(w0, steps', habits) == Some(w') && Sound(w') && Stranded(w', d, i)
  {
    var open := OpenSucceeds(c, s);
    var w1 := Apply(w, open);
    PlayOneMore(w0, steps, habits, open);
    StepKeepsSound(w, open);
    assert Openers(w1, i) == {} by {
      assert Openers(w1, i) <= Openers(w, i) - {c};
    }
    assert w1.calls[d] == w.calls[d] && w1.states[i].inUse && w1.states[i].spec == w.calls[c].spec;
    PlayOneMore(w0, steps + [open], habits, Wake(d));
    StepKeepsSound(w1, Wake(d));
    steps', w' := steps + [open] + [Wake(d)], Apply(w1, Wake(d));
    assert forall e :: e in w'.calls && w'.calls[e].Opening? && w'.calls[e].state == i ==> e in Openers(w1, i);
  }

  /** When the session closes over a crowded record, the caller in the way can take
      the dead record and leave the other parked on it for good. */
  lemma {:induction false} CloseStrandsTheSecondWaiter(w: World, c: nat, d: nat, habits: Habits)
      returns (more: seq<Step>, w': World)
    requires Sound(w) && w.current.Some? && InTheWay(w, c, d, w.current.value)
    ensures Play(Apply(w, CloseSession), more, habits) == Some(w')
    ensures Sound(w') && Stranded(w', d, w.current.value)
  {
    var i := w.current.value;
    var w0 := Apply(w, CloseSession);
    StepKeepsSound(w, CloseSession);
    assert Poised(w0, c, d, i);
    more, w' := OthersFail(w0, [], w0, c, d, i, habits);
    more, w' := FirstOpens(w0, more, w', c, d, i, habits);
    var s := FreshNumber(w'.openedFor.Keys);
    more, w' := SecondParks(w0, more, w', c, d, i, s, habits);
  }

  // --- without a crowd, nobody parks on the dead record

  ghost predicate AllTolerate(w: World, i: nat) {
    forall c, d :: c != d && Pending(w, c, i) && Pending(w, d, i) && w.calls[d].Waiting? ==> Tolerates(w, d, c)
  }

  // Whoever waits on the record is on its way, and would not mind finding it as it is.
  ghost predicate WaitersAtEase(w: World, i: nat) {
    forall d :: Pending(w, d, i) && w.calls[d].Waiting? ==>
      w.calls[d].signalled
      && (i < |w.states| && Busy(w.states[i]) ==> w.calls[d].allowBusy && w.calls[d].spec.key == w.states[i].spec.key)
  }

  ghost predicate Easy(w: World, i: nat) {
    && DeadRecord(w, i) && (w.states[i].inUse ==> w.states[i].stream.Some?)
    && AllTolerate(w, i) && WaitersAtEase(w, i)
  }

  // Nobody new comes to a dead record, and who is there asks for what it asked for.
  ghost predicate NobodyNew(w: World, w': World, i: nat) {
    forall c :: Pending(w', c, i) ==>
      && Pending(w, c, i) && w'.calls[c].spec == w.calls[c].spec
      && (w'.calls[c].Waiting? ==> w.calls[c].Waiting? && w'.calls[c].allowBusy == w.calls[c].allowBusy)
  }

  lemma NobodyComesToADeadRecord(w: World, step: Step, i: nat)
    requires DeadRecord(w, i) && Enabled(w, step)
    ensures NobodyNew(w, Apply(w, step), i)
  {
  }

  lemma StillTolerate(w: World, w': World, i: nat)
    requires AllTolerate(w, i) && NobodyNew(w, w', i)
    ensures AllTolerate(w', i)
  {
  }

  // A step that leaves the record alone, but may signal.
  lemma StillAtEase(w: World, w': World, i: nat)
    requires i < |w.states| && i < |w'.states| && w'.states[i] == w.states[i] && WaitersAtEase(w, i)
    requires NobodyNew(w, w', i)
    requires forall d :: Pending(w', d, i) && w'.calls[d].Waiting? ==> w'.calls[d].signalled
    ensures WaitersAtEase(w', i)
  {
  }

  lemma OthersStaySignalled(w: World, step: Step, i: nat)
    requires DeadRecord(w, i) && WaitersAtEase(w, i) && Enabled(w, step)
    requires step.Wake? ==> w.calls[step.call].state != i
    ensures forall d :: Pending(Apply(w, step), d, i) && Apply(w, step).calls[d].Waiting? ==>
              Apply(w, step).calls[d].signalled
  {
  }

  // The waiter that wakes opens, or leaves; with it opening, the others are still at ease.
  lemma WakeKeepsEasy(w: World, c: nat, i: nat)
    requires Sound(w) && Easy(w, i) && Enabled(w, Wake(c)) && w.calls[c].state == i
    ensures Easy(Apply(w, Wake(c)), i)
  {
    var w' := Apply(w, Wake(c));
    NobodyComesToADeadRecord(w, Wake(c), i);
    StillTolerate(w, w', i);
    forall d | Pending(w', d, i) && w'.calls[d].Waiting?
      ensures w'.calls[d].signalled
      ensures Busy(w'.states[i]) ==> w'.calls[d].allowBusy && w'.calls[d].spec.key == w'.states[i].spec.key
    {
      assert d != c && w'.calls[d] == w.calls[d];
      assert Tolerates(w, d, c);
    }
  }

  lemma OpenKeepsEasy(w: World, step: Step, i: nat)
    requires Sound(w) && Easy(w, i) && Enabled(w, step) && (step.OpenSucceeds? || step.OpenFails?)
    requires w.calls[step.call].state == i
    ensures Easy(Apply(w, step), i)
  {
    var c, w' := step.call, Apply(w, step);
    NobodyComesToADeadRecord(w, step, i);
    StillTolerate(w, w', i);
    forall d | Pending(w', d, i) && w'.calls[d].Waiting?
      ensures w'.calls[d].signalled
      ensures Busy(w'.states[i]) ==> w'.calls[d].allowBusy && w'.calls[d].spec.key == w'.states[i].spec.key
    {
      assert d != c && w'.calls[d].spec == w.calls[d].spec;
      assert Tolerates(w, d, c);
    }
  }

  predicate ActsOn(w: World, step: Step, i: nat) {
    (step.Wake? || step.OpenSucceeds? || step.OpenFails?) && step.call in w.calls && !w.calls[step.call].Done?
    && w.calls[step.call].state == i
  }

  lemma ElsewhereKeepsRecord(w: World, step: Step, i: nat)
    requires DeadRecord(w, i) && Enabled(w, step) && !ActsOn(w, step, i)
    ensures i < |Apply(w, step).states| && Apply(w, step).states[i] == w.states[i]
  {
  }

  lemma ElsewhereKeepsEasy(w: World, step: Step, i: nat)
    requires Sound(w) && Easy(w, i) && Enabled(w, step) && !ActsOn(w, step, i)
    ensures Easy(Apply(w, step), i)
  {
    ElsewhereKeepsRecord(w, step, i);
    StepKeepsDead(w, step, i);
    NobodyComesToADeadRecord(w, step, i);
    StillTolerate(w, Apply(w, step), i);
    OthersStaySignalled(w, step, i);
    StillAtEase(w, Apply(w, step), i);
  }

  lemma StepKeepsEasy(w: World, step: Step, i: nat)
    requires Sound(w) && Easy(w, i) && Enabled(w, step)
    ensures Easy(Apply(w, step), i)
  {
    if !ActsOn(w, step, i) {
      ElsewhereKeepsEasy(w, step, i);
    } else if step.Wake? {
      WakeKeepsEasy(w, step.call, i);
    } else {
      OpenKeepsEasy(w, step, i);
    }
  }

  lemma {:induction false} StaysEasy(w: World, steps: seq<Step>, habits: Habits, i: nat)
    requires Sound(w) && Easy(w, i) && Play(w, steps, habits).Some?
    ensures Sound(Play(w, steps, habits).value) && Easy(Play(w, steps, habits).value, i)
    decreases |steps|
  {
    if steps != [] {
      var before, last := steps[..|steps| - 1], steps[|steps| - 1];
      StaysEasy(w, before, habits, i);
      StepKeepsSound(Play(w, before, habits).value, last);
      StepKeepsEasy(Play(w, before, habits).value, last, i);
    }
  }

  lemma UncrowdedCloseIsEasy(w: World)
    requires Sound(w) && w.current.Some? && !Crowded(w, w.current.value)
    ensures Easy(Apply(w, CloseSession), w.current.value)
  {
    var i, w' := w.current.value, Apply(w, CloseSession);
    forall c, d | c != d && Pending(w', c, i) && Pending(w', d, i) && w'.calls[d].Waiting?
      ensures Tolerates(w', d, c)
    {
      assert !InTheWay(w, c, d, i);
    }
  }

  /** What a close does to the callers pending on the session's record, whatever
      happens next: one of them can be stranded exactly when the record is crowded,
      and when it is not, none ever parks there again. */
  lemma {:induction false} CloseStrandsExactlyWhenCrowded(steps: seq<Step>, habits: Habits)
    requires Play(START, steps, habits).Some? && Play(START, steps, habits).value.current.Some?
    ensures var w := Play(START, steps, habits).value;
            var i := w.current.value;
            && HasRecord(w)
            && (Crowded(w, i) <==> exists more, d: nat ::
                  Play(Apply(w, CloseSession), more, habits).Some?
                  && Stranded(Play(Apply(w, CloseSession), more, habits).value, d, i))
            && (!Crowded(w, i) ==> forall more, d: nat ::
                  Play(Apply(w, CloseSession), more, habits).Some? ==>
                    !ParkedOn(Play(Apply(w, CloseSession), more, habits).value, d, i))
  {
    var w := Play(START, steps, habits).value;
    var i := w.current.value;
    AlwaysSound(steps, habits);
    if c, d :| InTheWay(w, c, d, i) {
      var more, w' := CloseStrandsTheSecondWaiter(w, c, d, habits);
      assert Stranded(Play(Apply(w, CloseSession), more, habits).value, d, i);
    } else {
      StepKeepsSound(w, CloseSession);
      UncrowdedCloseIsEasy(w);
      forall more, d: nat | Play(Apply(w, CloseSession), more, habits).Some?
        ensures !ParkedOn(Play(Apply(w, CloseSession), more, habits).value, d, i)
      {
        StaysEasy(Apply(w, CloseSession), more, habits, i);
      }
    }
  }

  // ---------------------------------------------------------------------------
  // A reused stream is for the requested key, when snapshots keep to it

  ghost predicate KeyAgrees(w: World) {
    HasRecord(w) &&
    (w.current.Some? ==>
       var p := w.states[w.current.value];
       p.stream.Some? ==> p.stream.value in w.openedFor && w.openedFor[p.stream.value] == p.spec.key)
  }

  lemma StepKeepsKeyAgrees(w: World, step: Step)
    requires Sound(w) && KeyAgrees(w) && Enabled(w, step)
    requires step.CacheSnapshot? ==> SameKey(w, step.spec.key)
    ensures KeyAgrees(Apply(w, step))
  {
  }

  lemma {:induction false} AlwaysKeyAgrees(steps: seq<Step>, habits: Habits)
    requires habits.sameKeySnapshots && Play(START, steps, habits).Some?
    ensures KeyAgrees(Play(START, steps, habits).value)
    decreases |steps|
  {
    if steps != [] {
      var before := steps[..|steps| - 1];
      AlwaysKeyAgrees(before, habits);
      AlwaysSound(before, habits);
      StepKeepsKeyAgrees(Play(START, before, habits).value, steps[|steps| - 1]);
    }
  }

  /** A snapshot stored for another key over a stream in use makes the next caller
      with that key read a stream opened for a different one. */
  lemma CrossKeySnapshotServesTheWrongStream(w: World, c: nat, d: nat, snapshot: Step, habits: Habits)
      returns (more: seq<Step>, w': World)
    requires Sound(w) && Known(w) && w.current.Some? && HoldingOn(w, c, w.current.value) && d !in w.calls
    requires w.states[w.current.value].inUse && w.states[w.current.value].stream.Some?
    requires snapshot.CacheSnapshot? && snapshot.spec.key != ""
    requires w.openedFor[w.states[w.current.value].stream.value] != snapshot.spec.key
    ensures Play(Apply(w, snapshot), more, habits) == Some(w') && Enabled(w', Acquire(d, snapshot.spec, false))
    ensures var s := ActiveStream(Apply(w', Acquire(d, snapshot.spec, false)), d);
            s.Some? && s.value in w'.openedFor && w'.openedFor[s.value] != snapshot.spec.key
  {
    var w1 := Apply(w, snapshot);
    StepKeepsSound(w, snapshot);
    PlayOneMore(w1, [], habits, Release(c));
    StepKeepsSound(w1, Release(c));
    more, w' := [] + [Release(c)], Apply(w1, Release(c));
  }

  // What the call can reach afterwards, if anything, was opened for this key.
  predicate ReachesOnly(w: World, w': World, c: nat, key: string) {
    ActiveStream(w', c).Some? ==>
      ActiveStream(w', c).value in w.openedFor && w.openedFor[ActiveStream(w', c).value] == key
  }

  predicate AcquireServes(w: World, c: nat, spec: Spec, allowBusy: bool) {
    Enabled(w, Acquire(c, spec, allowBusy)) ==> ReachesOnly(w, Apply(w, Acquire(c, spec, allowBusy)), c, spec.key)
  }

  predicate WakeServes(w: World, c: nat) {
    Enabled(w, Wake(c)) ==> ReachesOnly(w, Apply(w, Wake(c)), c, w.calls[c].spec.key)
  }

  /** A lease on a stream that is open already, granted to a caller that just came or
      to one that had to wait, is on a stream opened for its key. */
  ghost predicate ServesTheKey(w: World) {
    && (forall c, spec, allowBusy :: AcquireServes(w, c, spec, allowBusy))
    && (forall c :: WakeServes(w, c))
  }

  lemma {:induction false} StaysKeyAgrees(w: World, steps: seq<Step>, habits: Habits)
    requires Sound(w) && KeyAgrees(w) && habits.sameKeySnapshots && Play(w, steps, habits).Some?
    ensures var w' := Play(w, steps, habits).value; Sound(w') && KeyAgrees(w')
    decreases |steps|
  {
    if steps != [] {
      var before, last := steps[..|steps| - 1], steps[|steps| - 1];
      StaysKeyAgrees(w, before, habits);
      StepKeepsSound(Play(w, before, habits).value, last);
      StepKeepsKeyAgrees(Play(w, before, habits).value, last);
    }
  }

  lemma AcquireServesTheKey(w: World, c: nat, spec: Spec, allowBusy: bool)
    requires Sound(w) && KeyAgrees(w)
    ensures AcquireServes(w, c, spec, allowBusy)
  {
  }

  lemma WakeServesTheKey(w: World, c: nat)
    requires Sound(w) && KeyAgrees(w)
    ensures WakeServes(w, c)
  {
  }

  lemma KeyAgreesServesTheKey(w: World)
    requires Sound(w) && KeyAgrees(w)
    ensures ServesTheKey(w)
  {
    forall c, spec, allowBusy ensures AcquireServes(w, c, spec, allowBusy) {
      AcquireServesTheKey(w, c, spec, allowBusy);
    }
    forall c ensures WakeServes(w, c) {
      WakeServesTheKey(w, c);
    }
  }

  /** Storing a snapshot keeps reuse truthful exactly when it does not put another
      key over a stream in use. */
  lemma {:induction false} SnapshotIsSafeExactlyForTheSameKey(steps: seq<Step>, habits: Habits, spec: Spec,
                                                              startup: Option<int>)
    requires habits.idleResets && habits.sameKeySnapshots && Play(START, steps, habits).Some?
    ensures var w := Play(START, steps, habits).value;
            var snapshot := CacheSnapshot(spec, startup);
            HasRecord(w) &&
            (SameKey(w, spec.key) <==> forall more ::
               Play(Apply(w, snapshot), more, habits).Some? ==>
                 ServesTheKey(Play(Apply(w, snapshot), more, habits).value))
  {
    var w := Play(START, steps, habits).value;
    var snapshot := CacheSnapshot(spec, startup);
    AlwaysSound(steps, habits);
    AlwaysKnown(steps, habits);
    AlwaysExclusive(steps, habits);
    AlwaysAttended(steps, habits);
    AlwaysKeyAgrees(steps, habits);
    if SameKey(w, spec.key) {
      StepKeepsSound(w, snapshot);
      StepKeepsKeyAgrees(w, snapshot);
      forall more | Play(Apply(w, snapshot), more, habits).Some?
        ensures ServesTheKey(Play(Apply(w, snapshot), more, habits).value)
      {
        StaysKeyAgrees(Apply(w, snapshot), more, habits);
        KeyAgreesServesTheKey(Play(Apply(w, snapshot), more, habits).value);
      }
    } else {
      var c :| HoldingOn(w, c, w.current.value);
      var d := FreshNumber(w.calls.Keys);
      var more, w' := CrossKeySnapshotServesTheWrongStream(w, c, d, snapshot, habits);
      assert !AcquireServes(w', d, spec, false);
    }
  }
}
