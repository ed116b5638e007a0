/** What a session shows of its playback: the cached spec and its startup info. What each
    step leaves of them, and when the info shown is for the stream shown. */
module PlaybackInfo {
  import opened Basics
  import opened PlaybackStream
  import opened LeaseProtocol

  /** The snapshot a caller is given, if there is one. */
  function Shown(w: World): Option<Snapshot> {
    if w.current.Some? && w.current.value < |w.states| then ShownBy(w.states[w.current.value]) else None
  }

  predicate ShowsKey(w: World, key: string) {
    Shown(w).Some? && Shown(w).value.spec.key == key
  }

  predicate ShowsInfo(w: World) {
    Shown(w).Some? && Shown(w).value.startup.Some?
  }

  // The info shown, if any.
  function InfoShown(w: World): Option<int> {
    if Shown(w).Some? then Shown(w).value.startup else None
  }

  predicate IsOpening(w: World, c: nat) {
    c in w.calls && w.calls[c].Opening?
  }

  // The call is opening a stream on the record the session has now.
  predicate OpensHere(w: World, c: nat) {
    IsOpening(w, c) && w.current == Some(w.calls[c].state)
  }

  predicate IsHolding(w: World, c: nat) {
    c in w.calls && w.calls[c].Holding?
  }

  // ---------------------------------------------------------------------------
  // What each step leaves

  /** A snapshot that was just stored is what is shown. */
  lemma SnapshotIsShown(w: World, spec: Spec, startup: Option<int>)
    requires HasRecord(w)
    ensures Shown(Apply(w, CacheSnapshot(spec, startup))) ==
              if spec.key != "" then Some(Snapshot(spec, startup)) else Shown(w)
  {
  }

  /** Startup info is taken exactly for the key that is shown. */
  lemma InfoIsTakenForTheKeyShown(w: World, key: string, info: int)
    requires HasRecord(w)
    ensures Shown(Apply(w, SetStartInfo(key, info))) ==
              if ShowsKey(w, key) then Some(Snapshot(Shown(w).value.spec, Some(info))) else Shown(w)
  {
  }

  // A record that shows nothing holds no info either.
  ghost predicate NothingHidden(w: World) {
    HasRecord(w) && (w.current.Some? && w.states[w.current.value].spec.key == "" ==>
                       w.states[w.current.value].startup.None?)
  }

  // What the caller's spec is shown with once it has the stream, or opens it: the info of
  // its own key, and none of another's.
  function OwnInfo(w: World, key: string): Option<int> {
    if ShowsKey(w, key) then Shown(w).value.startup else None
  }

  // A turn on the session's record: the caller opens, holds, or leaves what is shown alone.
  predicate TurnShows(w: World, w': World, c: nat, spec: Spec) {
    if IsOpening(w', c) || IsHolding(w', c) then Shown(w') == Some(Snapshot(spec, OwnInfo(w, spec.key)))
    else Shown(w') == Shown(w)
  }

  /** A call that starts opening, or gets the stream that is open, shows its own spec: with
      the info there was for its key, and with none when another key was shown. */
  lemma AcquireShowsItsSpec(w: World, c: nat, spec: Spec, allowBusy: bool)
    requires NothingHidden(w) && Enabled(w, Acquire(c, spec, allowBusy))
    ensures TurnShows(w, Apply(w, Acquire(c, spec, allowBusy)), c, spec)
  {
  }

  lemma WakeShowsItsSpec(w: World, c: nat)
    requires NothingHidden(w) && Enabled(w, Wake(c)) && w.current == Some(w.calls[c].state) && w.calls[c].spec.key != ""
    ensures TurnShows(w, Apply(w, Wake(c)), c, w.calls[c].spec)
  {
  }

  /** A finished open shows its spec, with whatever info was shown before. */
  lemma FinishedOpenShowsItsSpec(w: World, c: nat, s: Stream)
    requires NothingHidden(w) && Enabled(w, OpenSucceeds(c, s)) && w.calls[c].spec.key != ""
    ensures Shown(Apply(w, OpenSucceeds(c, s))) ==
              if OpensHere(w, c) then Some(Snapshot(w.calls[c].spec, InfoShown(w))) else Shown(w)
  {
  }

  /** A failed open leaves nothing, unless another key is shown by then or a stream is there. */
  lemma FailedOpenLeavesNothing(w: World, c: nat)
    requires Enabled(w, OpenFails(c)) && w.calls[c].spec.key != ""
    ensures Shown(Apply(w, OpenFails(c))) ==
              if OpensHere(w, c) && ShowsKey(w, w.calls[c].spec.key)
                 && w.states[w.calls[c].state].stream.None? then None
              else Shown(w)
  {
  }

  /** A reset and a close leave nothing; all other steps leave what was shown. */
  lemma ResetAndCloseLeaveNothing(w: World)
    requires HasRecord(w)
    ensures Shown(Apply(w, Reset)) == None && Shown(Apply(w, CloseSession)) == None
  {
  }

  lemma OthersLeaveWhatIsShown(w: World, step: Step)
    requires Enabled(w, step)
    requires step.Release? || step.CloseDetached? || (step.Wake? && w.current != Some(w.calls[step.call].state))
    ensures Shown(Apply(w, step)) == Shown(w)
  {
  }

  // ---------------------------------------------------------------------------
  // How a turn goes

  // A caller that wants a key finds a record as `p`, and leaves it as `p'`: what becomes of
  // the caller.
  predicate Goes(p: Playback, spec: Spec, allowBusy: bool, i: nat, call: Call, p': Playback) {
    var busy := p.opening || p.inUse;
    var own := p.spec.key == spec.key;
    // it gets the stream of its own key when that is free
    && (call == Holding(i) <==> own && p.stream.Some? && !busy)
    // and nothing when that is in use or being opened and it does not want to wait
    && (call == Done <==> allowBusy && own && busy)
    && (call == Waiting(i, spec, allowBusy, false) <==> busy && !(allowBusy && own))
    && (call == Opening(i, spec) <==> !busy && !(own && p.stream.Some?))
    && (call.Holding? ==> p'.stream == p.stream && !p'.opening && p'.inUse)
    && (call.Opening? ==> p'.stream.None? && p'.opening && !p'.inUse)
    && (call.Done? || call.Waiting? ==> p' == p)
  }

  // Who starts opening closes the stream that is there.
  ghost predicate ClosesOnlyToOpen(p: Playback, call: Call, before: set<Stream>, after: set<Stream>) {
    forall s :: s in after <==> s in before || (call.Opening? && p.stream == Some(s))
  }

  // The record a caller finds; a session that has none makes an idle one.
  function Found(w: World): Playback
    requires HasRecord(w)
  {
    if w.current.Some? then w.states[w.current.value] else Playback(Spec("", "", 0), None, false, false, None)
  }

  /** How an acquire goes, by the record it finds. */
  lemma AcquireGoes(w: World, c: nat, spec: Spec, allowBusy: bool)
    requires Enabled(w, Acquire(c, spec, allowBusy))
    ensures var w' := Apply(w, Acquire(c, spec, allowBusy));
            && w'.current.Some? && w'.current.value < |w'.states| && c in w'.calls
            && (w.current.Some? ==> w'.current == w.current)
            && Goes(Found(w), spec, allowBusy, w'.current.value, w'.calls[c], w'.states[w'.current.value])
            && ClosesOnlyToOpen(Found(w), w'.calls[c], w.closing, w'.closing)
  {
  }

  /** And how it goes on once the caller was woken. */
  lemma WakeGoes(w: World, c: nat)
    requires Enabled(w, Wake(c))
    ensures var w' := Apply(w, Wake(c));
            var Waiting(i, spec, allowBusy, _) := w.calls[c];
            && |w'.states| == |w.states| && c in w'.calls
            && Goes(w.states[i], spec, allowBusy, i, w'.calls[c], w'.states[i])
            && ClosesOnlyToOpen(w.states[i], w'.calls[c], w.closing, w'.closing)
  {
  }

  /** A snapshot takes away the open stream exactly when nobody uses it or is opening one,
      and wakes everybody who waits on the record. */
  lemma SnapshotDetachesExactlyTheIdle(w: World, spec: Spec, startup: Option<int>)
    requires HasRecord(w) && w.current.Some? && spec.key != ""
    ensures var w' := Apply(w, CacheSnapshot(spec, startup));
            var i := w.current.value;
            var p, p' := w.states[i], w'.states[i];
            && w'.current == w.current && p'.opening == p.opening && p'.inUse == p.inUse
            && p'.stream == (if p.opening || p.inUse then p.stream else None)
            && (forall s :: s in w'.closing <==> s in w.closing || (p.stream == Some(s) && !p.opening && !p.inUse))
            && (forall c :: c in w.calls && w.calls[c].Waiting? && w.calls[c].state == i ==>
                  c in w'.calls && w'.calls[c].Waiting? && w'.calls[c].signalled)
  {
  }

  ghost predicate CallsKeyed(w: World) {
    forall c :: c in w.calls && (w.calls[c].Waiting? || w.calls[c].Opening?) ==> w.calls[c].spec.key != ""
  }

  // Calls at work on a record have a key, and a record without one holds no info.
  ghost predicate Keyed(w: World) {
    Sound(w) && NothingHidden(w) && CallsKeyed(w)
  }

  lemma TurnHidesNothing(w: World, c: nat, i: nat, spec: Spec, allowBusy: bool)
    requires NothingHidden(w) && i < |w.states| && spec.key != ""
    ensures NothingHidden(TakeTurn(w, c, i, spec, allowBusy))
  {
  }

  lemma OpenHidesNothing(w: World, step: Step)
    requires Keyed(w) && Enabled(w, step) && (step.OpenSucceeds? || step.OpenFails?)
    ensures NothingHidden(Apply(w, step))
  {
  }

  lemma {:induction false} StepHidesNothing(w: World, step: Step)
    requires Keyed(w) && Enabled(w, step)
    ensures NothingHidden(Apply(w, step))
  {
    match step
    case Acquire(c, spec, allowBusy) => TurnHidesNothing(Ensured(w), c, Ensured(w).current.value, spec, allowBusy);
    case Wake(c) => TurnHidesNothing(w, c, w.calls[c].state, w.calls[c].spec, w.calls[c].allowBusy);
    case OpenSucceeds(c, s) => OpenHidesNothing(w, step);
    case OpenFails(c) => OpenHidesNothing(w, step);
    case Release(c) =>
    case CacheSnapshot(spec, startup) =>
    case SetStartInfo(key, info) =>
    case Reset =>
    case CloseSession =>
    case CloseDetached(s) =>
  }

  lemma {:induction false} StepKeepsCallsKeyed(w: World, step: Step)
    requires CallsKeyed(w) && Enabled(w, step)
    ensures CallsKeyed(Apply(w, step))
  {
  }

  lemma {:induction false} StepKeepsKeyed(w: World, step: Step)
    requires Keyed(w) && Enabled(w, step)
    ensures Keyed(Apply(w, step))
  {
    StepKeepsSound(w, step);
    StepHidesNothing(w, step);
    StepKeepsCallsKeyed(w, step);
  }

  lemma {:induction false} AlwaysKeyed(steps: seq<Step>, habits: Habits)
    requires Play(START, steps, habits).Some?
    ensures Keyed(Play(START, steps, habits).value)
    decreases |steps|
  {
    if steps != [] {
      AlwaysKeyed(steps[..|steps| - 1], habits);
      StepKeepsKeyed(Play(START, steps[..|steps| - 1], habits).value, steps[|steps| - 1]);
    }
  }

  // ---------------------------------------------------------------------------
  // Whose info is shown, over whole runs

  // The step gives info for a key.
  predicate Gives(w: World, step: Step) {
    (step.CacheSnapshot? && step.spec.key != "") || (step.SetStartInfo? && ShowsKey(w, step.key))
  }

  function KeyGiven(step: Step): string
    requires step.CacheSnapshot? || step.SetStartInfo?
  {
    if step.CacheSnapshot? then step.spec.key else step.key
  }

  function InfoGiven(step: Step): Option<int>
    requires step.CacheSnapshot? || step.SetStartInfo?
  {
    if step.CacheSnapshot? then step.startup else Some(step.info)
  }

  /** The step that gave the info shown: the last that gave any, if it is still shown. */
  function Origin(steps: seq<Step>, habits: Habits): (n: Option<nat>)
    requires Play(START, steps, habits).Some?
    ensures n.Some? ==> n.value < |steps| && (steps[n.value].CacheSnapshot? || steps[n.value].SetStartInfo?)
    decreases |steps|
  {
    if steps == [] || !ShowsInfo(Play(START, steps, habits).value) then None
    else
      var k := |steps| - 1;
      if Gives(Play(START, steps[..k], habits).value, steps[k]) then Some(k) else Origin(steps[..k], habits)
  }

  // The info shown was given for the key shown.
  ghost predicate Truthful(steps: seq<Step>, habits: Habits)
    requires Play(START, steps, habits).Some?
  {
    var w := Play(START, steps, habits).value;
    ShowsInfo(w) ==>
      && Origin(steps, habits).Some?
      && KeyGiven(steps[Origin(steps, habits).value]) == Shown(w).value.spec.key
  }

  // An open ends over info that is shown for another key.
  predicate OpensOver(w: World, step: Step) {
    step.OpenSucceeds? && OpensHere(w, step.call) && ShowsInfo(w) && !ShowsKey(w, w.calls[step.call].spec.key)
  }

  // What is not given by a step was shown before it, and for the same key but when an open
  // ends over it.
  lemma {:induction false} KeptInfo(w: World, step: Step)
    requires Keyed(w) && Enabled(w, step) && !Gives(w, step) && ShowsInfo(Apply(w, step))
    ensures ShowsInfo(w) && InfoShown(w) == InfoShown(Apply(w, step))
    ensures ShowsKey(w, Shown(Apply(w, step)).value.spec.key) <==> !OpensOver(w, step)
  {
    match step
    case Acquire(c, spec, allowBusy) => AcquireShowsItsSpec(w, c, spec, allowBusy);
    case Wake(c) =>
      if w.current == Some(w.calls[c].state) {
        WakeShowsItsSpec(w, c);
      } else {
        OthersLeaveWhatIsShown(w, step);
      }
    case OpenSucceeds(c, s) => FinishedOpenShowsItsSpec(w, c, s);
    case OpenFails(c) => FailedOpenLeavesNothing(w, c);
    case Release(c) => OthersLeaveWhatIsShown(w, step);
    case CacheSnapshot(spec, startup) => SnapshotIsShown(w, spec, startup);
    case SetStartInfo(key, info) => InfoIsTakenForTheKeyShown(w, key, info);
    case Reset => ResetAndCloseLeaveNothing(w);
    case CloseSession => ResetAndCloseLeaveNothing(w);
    case CloseDetached(s) => OthersLeaveWhatIsShown(w, step);
  }

  lemma {:induction false} GivenIsShown(w: World, step: Step)
    requires Keyed(w) && Enabled(w, step) && Gives(w, step)
    ensures ShowsKey(Apply(w, step), KeyGiven(step)) && InfoShown(Apply(w, step)) == InfoGiven(step)
    ensures !OpensOver(w, step)
  {
    if step.CacheSnapshot? {
      SnapshotIsShown(w, step.spec, step.startup);
    } else {
      InfoIsTakenForTheKeyShown(w, step.key, step.info);
    }
  }

  /** Info that is shown was given, as it is shown. */
  lemma {:induction false} InfoComesFromItsOrigin(steps: seq<Step>, habits: Habits)
    requires Play(START, steps, habits).Some? && ShowsInfo(Play(START, steps, habits).value)
    ensures Origin(steps, habits).Some?
    ensures InfoGiven(steps[Origin(steps, habits).value]) == InfoShown(Play(START, steps, habits).value)
    decreases |steps|
  {
    var k := |steps| - 1;
    var w := Play(START, steps[..k], habits).value;
    AlwaysKeyed(steps[..k], habits);
    if Gives(w, steps[k]) {
      GivenIsShown(w, steps[k]);
    } else {
      KeptInfo(w, steps[k]);
      InfoComesFromItsOrigin(steps[..k], habits);
    }
  }

  lemma {:induction false} TruthfulOneMore(steps: seq<Step>, habits: Habits)
    requires steps != [] && Play(START, steps, habits).Some? && Truthful(steps[..|steps| - 1], habits)
    ensures var k := |steps| - 1;
            Truthful(steps, habits) <==> !OpensOver(Play(START, steps[..k], habits).value, steps[k])
  {
    var k := |steps| - 1;
    var w := Play(START, steps[..k], habits).value;
    AlwaysKeyed(steps[..k], habits);
    if Gives(w, steps[k]) {
      GivenIsShown(w, steps[k]);
    } else if ShowsInfo(Apply(w, steps[k])) {
      KeptInfo(w, steps[k]);
    } else if steps[k].OpenSucceeds? {
      FinishedOpenShowsItsSpec(w, steps[k].call, steps[k].stream);
    }
  }

  lemma {:induction false} PlayPrefix(steps: seq<Step>, habits: Habits, n: nat)
    requires Play(START, steps, habits).Some? && n <= |steps|
    ensures Play(START, steps[..n], habits).Some?
    decreases |steps|
  {
    if n < |steps| {
      PlayPrefix(steps[..|steps| - 1], habits, n);
      assert steps[..|steps| - 1][..n] == steps[..n];
    } else {
      assert steps[..n] == steps;
    }
  }

  ghost predicate TruthfulAt(steps: seq<Step>, habits: Habits, n: nat) {
    n <= |steps| && Play(START, steps[..n], habits).Some? && Truthful(steps[..n], habits)
  }

  ghost predicate OpensOverAt(steps: seq<Step>, habits: Habits, n: nat) {
    n < |steps| && Play(START, steps[..n], habits).Some? && OpensOver(Play(START, steps[..n], habits).value, steps[n])
  }

  lemma {:induction false} TruthfulNext(steps: seq<Step>, habits: Habits, n: nat)
    requires Play(START, steps, habits).Some? && n < |steps| && TruthfulAt(steps, habits, n)
    ensures TruthfulAt(steps, habits, n + 1) <==> !OpensOverAt(steps, habits, n)
  {
    PlayPrefix(steps, habits, n + 1);
    assert steps[..n + 1][..n] == steps[..n];
    TruthfulOneMore(steps[..n + 1], habits);
  }

  lemma {:induction false} TruthfulUpTo(steps: seq<Step>, habits: Habits, n: nat)
    requires Play(START, steps, habits).Some? && n <= |steps|
    requires forall k: nat :: k < |steps| ==> !OpensOverAt(steps, habits, k)
    ensures TruthfulAt(steps, habits, n)
  {
    if n > 0 {
      TruthfulUpTo(steps, habits, n - 1);
      TruthfulNext(steps, habits, n - 1);
    } else {
      assert steps[..0] == [];
    }
  }

  /** In every run, the info shown was given for the key shown at every moment if and only
      if no open ended over info that was shown for another key. */
  lemma {:induction false} InfoIsForTheKeyExactlyWhen(steps: seq<Step>, habits: Habits)
    requires Play(START, steps, habits).Some?
    ensures (forall n: nat :: n <= |steps| ==> TruthfulAt(steps, habits, n))
            <==> (forall n: nat :: n < |steps| ==> !OpensOverAt(steps, habits, n))
  {
    if forall n: nat :: n < |steps| ==> !OpensOverAt(steps, habits, n) {
      forall n: nat | n <= |steps| ensures TruthfulAt(steps, habits, n) {
        TruthfulUpTo(steps, habits, n);
      }
    }
    if forall n: nat :: n <= |steps| ==> TruthfulAt(steps, habits, n) {
      forall n: nat | n < |steps| ensures !OpensOverAt(steps, habits, n) {
        assert TruthfulAt(steps, habits, n) && TruthfulAt(steps, habits, n + 1);
        TruthfulNext(steps, habits, n);
      }
    }
  }

  // ---------------------------------------------------------------------------
  // When storing a snapshot is safe

  // Some call is opening a stream for another key on the session's record.
  ghost predicate OpensAnother(w: World, key: string) {
    exists c :: OpensHere(w, c) && w.calls[c].spec.key != key
  }

  // Steps that give no info.
  predicate NobodyGives(steps: seq<Step>) {
    forall i :: 0 <= i < |steps| ==> !steps[i].CacheSnapshot? && !steps[i].SetStartInfo?
  }

  ghost predicate OnlyFor(w: World, key: string) {
    ShowsInfo(w) ==> ShowsKey(w, key)
  }

  // The info is gone, or for this key and nobody opens for another.
  ghost predicate SafeFor(w: World, key: string) {
    ShowsInfo(w) ==> ShowsKey(w, key) && !OpensAnother(w, key)
  }

  lemma {:induction false} StepKeepsSafe(w: World, step: Step, key: string)
    requires Keyed(w) && SafeFor(w, key) && Enabled(w, step) && !step.CacheSnapshot? && !step.SetStartInfo?
    ensures SafeFor(Apply(w, step), key)
  {
    var w' := Apply(w, step);
    if ShowsInfo(w') {
      KeptInfo(w, step);
      NoNewOpener(w, step, key);
    }
  }

  // Who was opening before opens the same on the same record.
  lemma OpenerStays(w: World, step: Step, c: nat)
    requires Enabled(w, step) && w.current.Some? && IsOpening(w, c) && OpensHere(Apply(w, step), c)
    ensures Apply(w, step).calls[c] == w.calls[c] && OpensHere(w, c)
  {
  }

  lemma {:induction false} NoNewOpener(w: World, step: Step, key: string)
    requires Keyed(w) && Enabled(w, step) && !step.CacheSnapshot? && !step.SetStartInfo?
    requires ShowsInfo(w) && ShowsKey(w, key) && !OpensAnother(w, key) && ShowsInfo(Apply(w, step))
    ensures !OpensAnother(Apply(w, step), key)
  {
    var w' := Apply(w, step);
    forall c | OpensHere(w', c) ensures w'.calls[c].spec.key == key {
      if IsOpening(w, c) {
        OpenerStays(w, step, c);
      } else if step.Acquire? {
        AcquireShowsItsSpec(w, step.call, step.spec, step.allowBusy);
      } else {
        assert step.Wake? && step.call == c;
        WakeShowsItsSpec(w, c);
      }
    }
  }

  lemma {:induction false} StaysSafe(w: World, more: seq<Step>, key: string)
    requires Keyed(w) && SafeFor(w, key) && NobodyGives(more) && Play(w, more, ANY).Some?
    ensures Keyed(Play(w, more, ANY).value) && SafeFor(Play(w, more, ANY).value, key)
    decreases |more|
  {
    if more != [] {
      var n := |more| - 1;
      StaysSafe(w, more[..n], key);
      StepKeepsSafe(Play(w, more[..n], ANY).value, more[n], key);
      StepKeepsKeyed(Play(w, more[..n], ANY).value, more[n]);
    }
  }

  ghost predicate StaysOnlyFor(w: World, key: string) {
    forall more :: NobodyGives(more) && Play(w, more, ANY).Some? ==> OnlyFor(Play(w, more, ANY).value, key)
  }

  lemma PlayOne(w: World, step: Step)
    requires Enabled(w, step) && Obeys(w, step, ANY)
    ensures Play(w, [step], ANY) == Some(Apply(w, step))
  {
    assert [step][..0] == [];
  }

  lemma {:induction false} OpenerOutlivesIt(w: World, c: nat, key: string)
    requires Keyed(w) && ShowsInfo(w) && ShowsKey(w, key) && OpensHere(w, c) && w.calls[c].spec.key != key
    ensures !StaysOnlyFor(w, key)
  {
    var s := FreshNumber(w.openedFor.Keys);
    var step := OpenSucceeds(c, s);
    assert Enabled(w, step);
    PlayOne(w, step);
    FinishedOpenShowsItsSpec(w, c, s);
    NotOnlyFor(w, [step], key);
  }

  lemma NotOnlyFor(w: World, more: seq<Step>, key: string)
    requires NobodyGives(more) && Play(w, more, ANY).Some? && !OnlyFor(Play(w, more, ANY).value, key)
    ensures !StaysOnlyFor(w, key)
  {
  }

  /** A snapshot with info stays for its key, until somebody gives info again, if and only
      if nobody is opening a stream for another key when it is stored. */
  lemma {:induction false} SnapshotIsTruthfulExactlyWhenNobodyOpensAnother(steps: seq<Step>, habits: Habits, spec: Spec,
                                                                            info: int)
    requires Play(START, steps, habits).Some? && spec.key != ""
    ensures var w := Play(START, steps, habits).value;
            StaysOnlyFor(Apply(w, CacheSnapshot(spec, Some(info))), spec.key) <==> !OpensAnother(w, spec.key)
  {
    var w := Play(START, steps, habits).value;
    var w' := Apply(w, CacheSnapshot(spec, Some(info)));
    AlwaysKeyed(steps, habits);
    StepKeepsKeyed(w, CacheSnapshot(spec, Some(info)));
    SnapshotIsShown(w, spec, Some(info));
    assert forall c :: OpensHere(w', c) <==> OpensHere(w, c);
    if c :| OpensHere(w, c) && w.calls[c].spec.key != spec.key {
      OpenerOutlivesIt(w', c, spec.key);
    } else {
      forall more | NobodyGives(more)
      && Play(w', more, ANY).Some? ensures OnlyFor(Play(w', more, ANY).value, spec.key) {
        StaysSafe(w', more, spec.key);
      }
    }
  }

  lemma {:induction false} PlayAfter(steps: seq<Step>, w: World, step: Step) returns (more: seq<Step>, w': World)
    requires Play(START, steps, ANY) == Some(w) && Enabled(w, step) && Obeys(w, step, ANY)
    ensures more == steps + [step] && w' == Apply(w, step) && Play(START, more, ANY) == Some(w')
  {
    PlayOneMore(START, steps, ANY, step);
    more, w' := steps + [step], Apply(w, step);
  }

  /** It happens: a snapshot for another key is stored while a stream is being opened, and
      its info is then shown for the stream that was opened. */
  lemma {:induction false} AnotherKeysInfoIsShown(spec: Spec, other: Spec, info: int)
      returns (steps: seq<Step>, w: World)
    requires spec.key != other.key && spec.key != "" && other.key != ""
    ensures steps == [Acquire(0, spec, false), CacheSnapshot(other, Some(info)), OpenSucceeds(0, 0)]
    ensures Play(START, steps, ANY) == Some(w) && Shown(w) == Some(Snapshot(spec, Some(info)))
  {
    steps, w := PlayAfter([], START, Acquire(0, spec, false));
    steps, w := PlayAfter(steps, w, CacheSnapshot(other, Some(info)));
    steps, w := PlayAfter(steps, w, OpenSucceeds(0, 0));
  }
}
