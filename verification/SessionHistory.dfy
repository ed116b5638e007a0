/** What the fields of a session record say about the run that led to them. */
module SessionHistory {
  import opened Basics
  import opened SessionLifecycle

  // ---------------------------------------------------------------------------
  // The two counters

  datatype Counter = Plays | Startups

  // What one step moves a counter of session `h` by.
  function Moves(step: Step, h: nat, counter: Counter): int {
    if !step.Update? || step.session != h then 0
    else if (counter.Plays? && step.touch.StartPlayback?) || (counter.Startups? && step.touch.BeginStartup?) then 1
    else if (counter.Plays? && step.touch.EndPlayback?) || (counter.Startups? && step.touch.EndStartup?) then -1
    else 0
  }

  // A validated playback and a close end all startups.
  predicate Clears(step: Step, h: nat, counter: Counter) {
    counter.Startups? && (step == CloseQueued(h) || (step.Update? && step.session == h && step.touch.MarkValidated?))
  }

  /** Begun less ended over a stretch of a run. */
  function Net(steps: seq<Step>, h: nat, counter: Counter): int {
    if steps == [] then 0 else Net(steps[..|steps| - 1], h, counter) + Moves(steps[|steps| - 1], h, counter)
  }

  ghost predicate Uncleared(steps: seq<Step>, from: nat, h: nat, counter: Counter) {
    from <= |steps| && forall i :: from <= i < |steps| ==> !Clears(steps[i], h, counter)
  }

  // From some point of the run on, this many more were begun than ended.
  ghost predicate Reached(steps: seq<Step>, h: nat, counter: Counter, count: int) {
    exists k: nat :: Uncleared(steps, k, h, counter) && Net(steps[k..], h, counter) == count
  }

  ghost predicate NeverExceeded(steps: seq<Step>, h: nat, counter: Counter, count: int) {
    forall k: nat :: Uncleared(steps, k, h, counter) ==> Net(steps[k..], h, counter) <= count
  }

  lemma NetOneMore(steps: seq<Step>, k: nat, h: nat, counter: Counter)
    requires k < |steps|
    ensures Net(steps[k..], h, counter) ==
            Net(steps[..|steps| - 1][k..], h, counter) + Moves(steps[|steps| - 1], h, counter)
  {
    assert steps[k..][..|steps| - 1 - k] == steps[..|steps| - 1][k..];
  }

  // The count of a session; zero before it exists.
  function CountAt(w: World, h: nat, counter: Counter): nat {
    if h >= |w.sessions| then 0
    else if counter.Plays? then w.sessions[h].activePlays else w.sessions[h].starting
  }

  lemma CountMoves(w: World, step: Step, h: nat, counter: Counter)
    requires Enabled(w, step)
    ensures CountAt(Apply(w, step), h, counter) ==
              if Clears(step, h, counter) then 0 else Max(0, CountAt(w, h, counter) + Moves(step, h, counter))
  {
  }

  lemma ReachedOneMore(steps: seq<Step>, h: nat, counter: Counter, before: nat, after: nat)
    requires steps != [] && Reached(steps[..|steps| - 1], h, counter, before)
    requires var last := steps[|steps| - 1];
             after == if Clears(last, h, counter) then 0 else Max(0, before + Moves(last, h, counter))
    ensures Reached(steps, h, counter, after)
  {
    var n := |steps| - 1;
    var init, last := steps[..n], steps[n];
    assert Uncleared(steps, n + 1, h, counter) && Net(steps[n + 1..], h, counter) == 0;
    if !Clears(last, h, counter) && before + Moves(last, h, counter) >= 0 {
      var k: nat :| Uncleared(init, k, h, counter) && Net(init[k..], h, counter) == before;
      assert Uncleared(steps, k, h, counter);
      NetOneMore(steps, k, h, counter);
    }
  }

  lemma NeverExceededOneMore(steps: seq<Step>, h: nat, counter: Counter, before: nat, after: nat)
    requires steps != [] && NeverExceeded(steps[..|steps| - 1], h, counter, before)
    requires var last := steps[|steps| - 1];
             after == if Clears(last, h, counter) then 0 else Max(0, before + Moves(last, h, counter))
    ensures NeverExceeded(steps, h, counter, after)
  {
    var n := |steps| - 1;
    forall k: nat | Uncleared(steps, k, h, counter)
      ensures Net(steps[k..], h, counter) <= after
    {
      if k <= n {
        assert !Clears(steps[n], h, counter);
        assert Uncleared(steps[..n], k, h, counter);
        NetOneMore(steps, k, h, counter);
      }
    }
  }

  /** In every run the plays of a session are those begun and not ended since: the most by
      which the begun ones ever outnumber the ended ones over the rest of the run. So are its
      startups, since a playback was last validated or the session closed. */
  lemma {:induction false} CountsAreTheUnended(steps: seq<Step>, h: nat, counter: Counter)
    requires Play(steps).Some?
    ensures Reached(steps, h, counter, CountAt(Play(steps).value, h, counter))
    ensures NeverExceeded(steps, h, counter, CountAt(Play(steps).value, h, counter))
  {
    if steps == [] {
      assert Uncleared(steps, 0, h, counter) && Net(steps[0..], h, counter) == 0;
    } else {
      var init := steps[..|steps| - 1];
      PlayInit(steps);
      CountsAreTheUnended(init, h, counter);
      CountMoves(Play(init).value, steps[|steps| - 1], h, counter);
      var before, after := CountAt(Play(init).value, h, counter), CountAt(Play(steps).value, h, counter);
      ReachedOneMore(steps, h, counter, before, after);
      NeverExceededOneMore(steps, h, counter, before, after);
    }
  }

  // ---------------------------------------------------------------------------
  // The times

  // The times of a session after a run, unset when there is no such session.
  datatype Times = Times(validated: Option<int>, started: Option<int>, ended: Option<int>)

  function TimesAt(w: World, h: nat): Times {
    if h >= |w.sessions| then Times(None, None, None)
    else Times(w.sessions[h].validatedAt, w.sessions[h].startedAt, w.sessions[h].endedAt)
  }

  function TimesAfter(steps: seq<Step>, h: nat): Times {
    if Play(steps).Some? then TimesAt(Play(steps).value, h) else Times(None, None, None)
  }

  function PlaysAfter(steps: seq<Step>, h: nat): nat {
    if Play(steps).Some? then CountAt(Play(steps).value, h, Plays) else 0
  }

  predicate Touches(step: Step, h: nat) {
    step.Update? && step.session == h
  }

  // The step begins a playback of a session at which nobody was playing.
  predicate OpensPlayback(steps: seq<Step>, n: nat, h: nat) {
    n < |steps| && Touches(steps[n], h) && steps[n].touch.StartPlayback? && PlaysAfter(steps[..n], h) == 0
  }

  // The step ends a playback of a session, and nobody is playing there then.
  predicate EndsPlayback(steps: seq<Step>, n: nat, h: nat) {
    n < |steps| && Touches(steps[n], h) && steps[n].touch.EndPlayback? && PlaysAfter(steps[..n + 1], h) == 0
  }

  predicate Validates(steps: seq<Step>, n: nat, h: nat) {
    n < |steps| && Touches(steps[n], h) && steps[n].touch.MarkValidated?
  }

  // A session's playback began with the n-th step, and somebody has been playing since.
  ghost predicate PlayingSince(steps: seq<Step>, n: nat, h: nat) {
    OpensPlayback(steps, n, h) && forall m :: n < m <= |steps| ==> PlaysAfter(steps[..m], h) > 0
  }

  ghost predicate LastEnded(steps: seq<Step>, n: nat, h: nat) {
    EndsPlayback(steps, n, h) && forall m :: n < m < |steps| ==> !EndsPlayback(steps, m, h)
  }

  ghost predicate FirstValidated(steps: seq<Step>, n: nat, h: nat) {
    Validates(steps, n, h) && forall m :: 0 <= m < n ==> !Validates(steps, m, h)
  }

  lemma OneMore(steps: seq<Step>, n: nat, h: nat)
    requires n + 1 < |steps|
    ensures var init := steps[..|steps| - 1];
            && (EndsPlayback(init, n, h) <==> EndsPlayback(steps, n, h))
            && (OpensPlayback(init, n, h) <==> OpensPlayback(steps, n, h))
            && (Validates(init, n, h) <==> Validates(steps, n, h))
            && init[n] == steps[n]
  {
    var init := steps[..|steps| - 1];
    assert init[..n + 1] == steps[..n + 1] && init[..n] == steps[..n];
  }

  lemma StepMovesEnds(w: World, step: Step, h: nat)
    requires Enabled(w, step)
    ensures var before, after := TimesAt(w, h), TimesAt(Apply(w, step), h);
            var opens := Touches(step, h) && step.touch.StartPlayback? && CountAt(w, h, Plays) == 0;
            var ends := Touches(step, h) && step.touch.EndPlayback? && CountAt(Apply(w, step), h, Plays) == 0;
            && after.ended == (if ends then Some(step.now) else before.ended)
            && after.started == (if opens then Some(step.now) else if ends then None else before.started)
  {
  }

  lemma StepMovesValidated(w: World, step: Step, h: nat)
    requires Enabled(w, step)
    ensures TimesAt(Apply(w, step), h).validated ==
              if Touches(step, h) && step.touch.MarkValidated? && TimesAt(w, h).validated.None? then Some(step.now)
              else TimesAt(w, h).validated
  {
  }

  lemma TimesMove(steps: seq<Step>, h: nat)
    requires Play(steps).Some? && steps != []
    ensures var k := |steps| - 1;
            var before, after := TimesAfter(steps[..k], h), TimesAfter(steps, h);
            && Play(steps[..k]).Some?
            && after.validated == (if Validates(steps, k, h) && before.validated.None? then Some(steps[k].now)
                                   else before.validated)
            && after.ended == (if EndsPlayback(steps, k, h) then Some(steps[k].now) else before.ended)
            && after.started == (if OpensPlayback(steps, k, h) then Some(steps[k].now)
                                 else if EndsPlayback(steps, k, h) then None else before.started)
  {
    PlayInit(steps);
    StepMovesEnds(Play(steps[..|steps| - 1]).value, steps[|steps| - 1], h);
    StepMovesValidated(Play(steps[..|steps| - 1]).value, steps[|steps| - 1], h);
    assert steps[..|steps|] == steps;
  }

  lemma StillPlaying(steps: seq<Step>, n: nat, h: nat)
    requires steps != [] && PlayingSince(steps[..|steps| - 1], n, h) && PlaysAfter(steps, h) > 0
    ensures PlayingSince(steps, n, h) && steps[n] == steps[..|steps| - 1][n]
  {
    OneMore(steps, n, h);
    forall m | n < m <= |steps| ensures PlaysAfter(steps[..m], h) > 0 {
      if m < |steps| {
        assert steps[..m] == steps[..|steps| - 1][..m];
      } else {
        assert steps[..m] == steps;
      }
    }
  }

  /** A start that is set is the time of the step with which somebody came to play after
      nobody had, and somebody has been playing ever since. */
  lemma {:induction false} StartedAtTheOpening(steps: seq<Step>, h: nat) returns (n: nat)
    requires Play(steps).Some? && TimesAfter(steps, h).started.Some?
    ensures PlayingSince(steps, n, h) && steps[n].now == TimesAfter(steps, h).started.value
  {
    var k := |steps| - 1;
    TimesMove(steps, h);
    StartedIsPlaying(steps, h);
    assert steps[..|steps|] == steps;
    if OpensPlayback(steps, k, h) {
      n := k;
    } else {
      n := StartedAtTheOpening(steps[..k], h);
      StillPlaying(steps, n, h);
    }
  }

  lemma StartedIsPlaying(steps: seq<Step>, h: nat)
    requires Play(steps).Some?
    ensures TimesAfter(steps, h).started.Some? <==> PlaysAfter(steps, h) > 0
  {
    AlwaysGood(steps);
    if h < |Play(steps).value.sessions| {
      assert StartKnown(Play(steps).value.sessions[h]);
    }
  }

  lemma EndsAgree(steps: seq<Step>, h: nat)
    requires steps != []
    ensures forall m: nat :: m < |steps| - 1 ==>
              (EndsPlayback(steps[..|steps| - 1], m, h) <==> EndsPlayback(steps, m, h))
  {
    forall m: nat | m < |steps| - 1
      ensures EndsPlayback(steps[..|steps| - 1], m, h) <==> EndsPlayback(steps, m, h)
    {
      OneMore(steps, m, h);
    }
  }

  /** The end is the time at which the last one playing left, most recently; it is unset
      exactly as long as that never happened. */
  lemma {:induction false} EndedWhenTheLastOneLeft(steps: seq<Step>, h: nat) returns (n: nat)
    requires Play(steps).Some?
    ensures TimesAfter(steps, h).ended.Some? ==>
              LastEnded(steps, n, h) && steps[n].now == TimesAfter(steps, h).ended.value
    ensures TimesAfter(steps, h).ended.None? ==> forall m: nat :: !EndsPlayback(steps, m, h)
  {
    n := 0;
    if steps != [] {
      var k := |steps| - 1;
      TimesMove(steps, h);
      n := EndedWhenTheLastOneLeft(steps[..k], h);
      EndsAgree(steps, h);
      if EndsPlayback(steps, k, h) {
        n := k;
      }
    }
  }

  /** A playback was validated at the time of the first such touch. */
  lemma {:induction false} ValidatedAtTheFirst(steps: seq<Step>, h: nat) returns (n: nat)
    requires Play(steps).Some?
    ensures TimesAfter(steps, h).validated.Some? ==>
              FirstValidated(steps, n, h) && steps[n].now == TimesAfter(steps, h).validated.value
    ensures TimesAfter(steps, h).validated.None? ==> forall m: nat :: !Validates(steps, m, h)
  {
    n := 0;
    if steps != [] {
      var k := |steps| - 1;
      TimesMove(steps, h);
      forall m: nat | m < k ensures Validates(steps[..k], m, h) <==> Validates(steps, m, h) {
        OneMore(steps, m, h);
      }
      n := ValidatedAtTheFirst(steps[..k], h);
      if TimesAfter(steps[..k], h).validated.None? {
        n := k;
      }
    }
  }

  // ---------------------------------------------------------------------------
  // The clients

  // The step says that a client was there just now.
  predicate Marks(step: Step, h: nat, ip: string) {
    && Touches(step, h)
    && (step.touch == StartPlayback(ip) || step.touch == EndPlayback(ip) || step.touch == KeepAlive(ip))
  }

  // A cleanup walks past the session, more than a minute after the instant.
  ghost predicate Sweeps(w: World, step: Step, h: nat, t: int) {
    step.Cleanup? && Listed(w, h) && step.now - t > 60
  }

  function SeenAt(w: World, h: nat, ip: string): Option<int> {
    if h < |w.sessions| && ip in w.sessions[h].clients then Some(w.sessions[h].clients[ip]) else None
  }

  lemma CleanupMovesClients(w: World, step: Step, h: nat, ip: string)
    requires Enabled(w, step) && step.Cleanup?
    ensures Apply(w, step).closed == w.closed
    ensures SeenAt(Apply(w, step), h, ip) ==
              if SeenAt(w, h, ip).Some? && Sweeps(w, step, h, SeenAt(w, h, ip).value) then None else SeenAt(w, h, ip)
  {
    assert Listed(w, h) <==> h in (set id | id in w.live :: w.live[id]);
  }

  lemma StepMovesClients(w: World, step: Step, h: nat, ip: string)
    requires Enabled(w, step) && (h in w.closed ==> SeenAt(w, h, ip).None?)
    ensures var before, after := SeenAt(w, h, ip), SeenAt(Apply(w, step), h, ip);
            && (h in Apply(w, step).closed ==> after.None?)
            && (h !in Apply(w, step).closed ==>
                  after == if Marks(step, h, ip) then Some(step.now)
                           else if before.Some? && Sweeps(w, step, h, before.value) then None
                           else before)
            && (h in w.closed ==> h in Apply(w, step).closed)
  {
    if step.Cleanup? {
      CleanupMovesClients(w, step, h, ip);
    }
  }

  ghost predicate SweptAt(steps: seq<Step>, m: nat, h: nat, t: int) {
    m < |steps| && Play(steps[..m]).Some? && Sweeps(Play(steps[..m]).value, steps[m], h, t)
  }

  // The client was there last at the n-th step, and no cleanup since was a minute later.
  ghost predicate KnownSince(steps: seq<Step>, n: nat, h: nat, ip: string) {
    && n < |steps| && Marks(steps[n], h, ip)
    && forall m :: n < m < |steps| ==> !Marks(steps[m], h, ip) && !SweptAt(steps, m, h, steps[n].now)
  }

  lemma SweptInPrefix(steps: seq<Step>, m: nat, h: nat, t: int)
    requires m + 1 < |steps|
    ensures SweptAt(steps[..|steps| - 1], m, h, t) <==> SweptAt(steps, m, h, t)
  {
    assert steps[..|steps| - 1][..m] == steps[..m];
  }

  lemma KnownOneMore(steps: seq<Step>, n: nat, h: nat, ip: string)
    requires n + 1 < |steps| && Marks(steps[n], h, ip)
    ensures var k := |steps| - 1;
            KnownSince(steps, n, h, ip) <==>
            KnownSince(steps[..k], n, h, ip) && !Marks(steps[k], h, ip) && !SweptAt(steps, k, h, steps[n].now)
  {
    var k := |steps| - 1;
    forall m: nat | m < k
      ensures SweptAt(steps[..k], m, h, steps[n].now) <==> SweptAt(steps, m, h, steps[n].now)
    {
      SweptInPrefix(steps, m, h, steps[n].now);
    }
  }

  // What a run leaves: whether the session is closed, and when the client was seen there.
  predicate ClosedAfter(steps: seq<Step>, h: nat) {
    Play(steps).Some? && h in Play(steps).value.closed
  }

  function SeenAfter(steps: seq<Step>, h: nat, ip: string): Option<int> {
    if Play(steps).Some? then SeenAt(Play(steps).value, h, ip) else None
  }

  lemma SeenMoves(steps: seq<Step>, h: nat, ip: string)
    requires Play(steps).Some? && steps != []
    requires var init := steps[..|steps| - 1]; ClosedAfter(init, h) ==> SeenAfter(init, h, ip).None?
    ensures var k := |steps| - 1;
            var before, after := SeenAfter(steps[..k], h, ip), SeenAfter(steps, h, ip);
            && Play(steps[..k]).Some? && (ClosedAfter(steps[..k], h) ==> ClosedAfter(steps, h))
            && (ClosedAfter(steps, h) ==> after.None?)
            && (!ClosedAfter(steps, h) ==>
                  after == if Marks(steps[k], h, ip) then Some(steps[k].now)
                           else if before.Some? && SweptAt(steps, k, h, before.value) then None
                           else before)
  {
    PlayInit(steps);
    StepMovesClients(Play(steps[..|steps| - 1]).value, steps[|steps| - 1], h, ip);
  }

  ghost predicate NoneKnown(steps: seq<Step>, h: nat, ip: string) {
    forall n: nat :: !KnownSince(steps, n, h, ip)
  }

  lemma NotMarked(steps: seq<Step>, h: nat, ip: string)
    requires steps != [] && NoneKnown(steps[..|steps| - 1], h, ip) && !Marks(steps[|steps| - 1], h, ip)
    ensures NoneKnown(steps, h, ip)
  {
    forall n: nat ensures !KnownSince(steps, n, h, ip) {
      if KnownSince(steps, n, h, ip) {
        KnownOneMore(steps, n, h, ip);
      }
    }
  }

  lemma OneIsKnown(steps: seq<Step>, h: nat, ip: string, a: nat, b: nat)
    requires KnownSince(steps, a, h, ip) && KnownSince(steps, b, h, ip)
    ensures a == b
  {
  }

  lemma SweptAway(steps: seq<Step>, h: nat, ip: string, n: nat)
    requires steps != [] && KnownSince(steps[..|steps| - 1], n, h, ip) && !Marks(steps[|steps| - 1], h, ip)
    requires SweptAt(steps, |steps| - 1, h, steps[..|steps| - 1][n].now)
    ensures NoneKnown(steps, h, ip)
  {
    forall m: nat ensures !KnownSince(steps, m, h, ip) {
      if KnownSince(steps, m, h, ip) {
        KnownOneMore(steps, m, h, ip);
        OneIsKnown(steps[..|steps| - 1], h, ip, m, n);
      }
    }
  }

  // What it means that a client is known since an instant, or not known.
  ghost predicate SeenSays(steps: seq<Step>, h: nat, ip: string, seen: Option<int>, n: nat) {
    if seen.Some? then KnownSince(steps, n, h, ip) && steps[n].now == seen.value else NoneKnown(steps, h, ip)
  }

  lemma KnownAfter(steps: seq<Step>, h: nat, ip: string, before: Option<int>, m: nat) returns (n: nat)
    requires steps != [] && SeenSays(steps[..|steps| - 1], h, ip, before, m)
    ensures var k := |steps| - 1;
            SeenSays(steps, h, ip, if Marks(steps[k], h, ip) then Some(steps[k].now)
                                   else if before.Some? && SweptAt(steps, k, h, before.value) then None
                                   else before, n)
  {
    var k := |steps| - 1;
    n := m;
    if Marks(steps[k], h, ip) {
      n := k;
    } else if before.None? {
      NotMarked(steps, h, ip);
    } else if SweptAt(steps, k, h, before.value) {
      SweptAway(steps, h, ip, m);
    } else {
      KnownOneMore(steps, n, h, ip);
    }
  }

  /** A session that was not closed knows a client exactly from its last mark until a cleanup
      that comes more than a minute later. A closed session knows none. */
  lemma {:induction false} ClientsAreTheRecentOnes(steps: seq<Step>, h: nat, ip: string) returns (n: nat)
    requires Play(steps).Some?
    ensures ClosedAfter(steps, h) ==> SeenAfter(steps, h, ip).None?
    ensures !ClosedAfter(steps, h) ==> SeenSays(steps, h, ip, SeenAfter(steps, h, ip), n)
  {
    n := 0;
    if steps != [] {
      var init := steps[..|steps| - 1];
      PlayInit(steps);
      n := ClientsAreTheRecentOnes(init, h, ip);
      SeenMoves(steps, h, ip);
      if !ClosedAfter(steps, h) {
        n := KnownAfter(steps, h, ip, SeenAfter(init, h, ip), n);
      }
    }
  }

  // ---------------------------------------------------------------------------
  // The last access

  // The step makes the session, hands it back to a create, or touches it in any way but by
  // its download; a play that comes too late panics before it gets there.
  predicate Accesses(w: World, step: Step, h: nat)
    requires Enabled(w, step)
  {
    var w' := Apply(w, step);
    || (h == |w.sessions| < |w'.sessions|)
    || ((step.CreateDeferred? || step.CreateReady?) && step.id in w.live && w.live[step.id] == h
        && w'.live == w.live)
    || (Touches(step, h) && !step.touch.Downloading?
        && (h in w.closed ==> !step.touch.StartPlayback? && !step.touch.EndPlayback?))
  }

  lemma StepMovesAccess(w: World, step: Step, h: nat)
    requires Enabled(w, step) && h < |Apply(w, step).sessions|
    ensures Accesses(w, step, h) ==> TimeOf(step) == Some(Apply(w, step).sessions[h].lastAccess)
    ensures !Accesses(w, step, h) ==>
              h < |w.sessions| && Apply(w, step).sessions[h].lastAccess == w.sessions[h].lastAccess
  {
  }

  ghost predicate AccessedAt(steps: seq<Step>, n: nat, h: nat) {
    n < |steps| && Play(steps[..n]).Some? && Enabled(Play(steps[..n]).value, steps[n])
    && Accesses(Play(steps[..n]).value, steps[n], h)
  }

  ghost predicate LastAccessed(steps: seq<Step>, n: nat, h: nat) {
    AccessedAt(steps, n, h) && forall m :: n < m < |steps| ==> !AccessedAt(steps, m, h)
  }

  function AccessAfter(steps: seq<Step>, h: nat): Option<int> {
    if Play(steps).Some? && h < |Play(steps).value.sessions| then Some(Play(steps).value.sessions[h].lastAccess)
    else None
  }

  lemma AccessMoves(steps: seq<Step>, h: nat)
    requires Play(steps).Some? && AccessAfter(steps, h).Some?
    ensures var k := |steps| - 1;
            && steps != [] && Play(steps[..k]).Some?
            && (AccessedAt(steps, k, h) ==> TimeOf(steps[k]) == AccessAfter(steps, h))
            && (!AccessedAt(steps, k, h) ==> AccessAfter(steps, h) == AccessAfter(steps[..k], h))
  {
    PlayInit(steps);
    StepMovesAccess(Play(steps[..|steps| - 1]).value, steps[|steps| - 1], h);
  }

  lemma AccessedInPrefix(steps: seq<Step>, m: nat, h: nat)
    requires m + 1 < |steps|
    ensures AccessedAt(steps[..|steps| - 1], m, h) <==> AccessedAt(steps, m, h)
  {
    assert steps[..|steps| - 1][..m] == steps[..m];
  }

  lemma AccessedOneMore(steps: seq<Step>, n: nat, h: nat)
    requires n + 1 < |steps| && LastAccessed(steps[..|steps| - 1], n, h) && !AccessedAt(steps, |steps| - 1, h)
    ensures LastAccessed(steps, n, h) && steps[n] == steps[..|steps| - 1][n]
  {
    AccessedInPrefix(steps, n, h);
    forall m | n < m < |steps| ensures !AccessedAt(steps, m, h) {
      if m + 1 < |steps| {
        AccessedInPrefix(steps, m, h);
      }
    }
  }

  /** The last access of a session is the time of the last step that made it, handed it back
      or touched it. */
  lemma {:induction false} LastAccessIsTheLatest(steps: seq<Step>, h: nat) returns (n: nat)
    requires Play(steps).Some? && AccessAfter(steps, h).Some?
    ensures LastAccessed(steps, n, h) && TimeOf(steps[n]) == AccessAfter(steps, h)
  {
    var k := |steps| - 1;
    AccessMoves(steps, h);
    if AccessedAt(steps, k, h) {
      n := k;
    } else {
      n := LastAccessIsTheLatest(steps[..k], h);
      AccessedOneMore(steps, n, h);
    }
  }

  // ---------------------------------------------------------------------------
  // The download

  predicate SaysDownloading(steps: seq<Step>, n: nat, h: nat) {
    n < |steps| && Touches(steps[n], h) && steps[n].touch.Downloading?
  }

  predicate DownloadingAfter(steps: seq<Step>, h: nat) {
    Play(steps).Some? && h < |Play(steps).value.sessions| && Play(steps).value.sessions[h].downloading
  }

  lemma DownloadingMoves(w: World, step: Step, h: nat)
    requires Enabled(w, step) && h < |Apply(w, step).sessions|
    ensures Apply(w, step).sessions[h].downloading ==
              if Touches(step, h) && step.touch.Downloading? then step.touch.flag
              else h < |w.sessions| && w.sessions[h].downloading
  {
  }

  lemma DownloadingOneMore(steps: seq<Step>, h: nat)
    requires Play(steps).Some? && steps != []
    ensures var k := |steps| - 1;
            DownloadingAfter(steps, h) <==>
              if SaysDownloading(steps, k, h) then steps[k].touch.flag else DownloadingAfter(steps[..k], h)
  {
    PlayInit(steps);
    if h < |Play(steps).value.sessions| {
      DownloadingMoves(Play(steps[..|steps| - 1]).value, steps[|steps| - 1], h);
    }
  }

  lemma SaysAgree(steps: seq<Step>, h: nat)
    requires steps != []
    ensures forall m: nat :: m < |steps| - 1 ==>
              (SaysDownloading(steps[..|steps| - 1], m, h) <==> SaysDownloading(steps, m, h))
  {
  }

  /** A session is downloading exactly when its download said so last. */
  lemma {:induction false} DownloadingIsWhatWasSaidLast(steps: seq<Step>, h: nat) returns (n: nat)
    requires Play(steps).Some?
    ensures forall m: nat :: n < m ==> !SaysDownloading(steps, m, h)
    ensures DownloadingAfter(steps, h) <==> SaysDownloading(steps, n, h) && steps[n].touch.flag
  {
    n := 0;
    if steps != [] {
      var k := |steps| - 1;
      PlayInit(steps);
      n := DownloadingIsWhatWasSaidLast(steps[..k], h);
      DownloadingOneMore(steps, h);
      SaysAgree(steps, h);
      if SaysDownloading(steps, k, h) {
        n := k;
      }
    }
  }

  // ---------------------------------------------------------------------------
  // Creating

  // Nobody plays or is about to, nothing was ever validated, and no download runs.
  predicate Unused(r: Record) {
    r.startedAt.None? && r.validatedAt.None? && r.starting == 0 && !r.downloading
  }

  /** In every state a create replaces the session of its id exactly when that one is unused,
      was asked for another URL and was not accessed for five seconds; the old one is queued
      for closing. Otherwise the session there is handed back, as just accessed. The new one
      is unused, and everything else stays as it was. */
  lemma {:induction false} CreateReplacesExactlyWhen(steps: seq<Step>, id: string, url: string, now: int)
    requires Play(steps).Some?
    ensures var w := Play(steps).value;
            Enabled(w, CreateDeferred(id, url, now)) &&
            var w' := Apply(w, CreateDeferred(id, url, now));
            var made := |w.sessions|;
            && id in w'.live
            && (id in w.live ==>
                  var h := w.live[id];
                  && (w'.live[id] != h <==>
                        Unused(w.sessions[h]) && w.sessions[h].url != url && now - w.sessions[h].lastAccess >= 5)
                  && (w'.live[id] == h ==> w' == w.(sessions := w.sessions[h := w.sessions[h].(lastAccess := now)]))
                  && (w'.live[id] != h ==> w'.live[id] == made && w'.closing == w.closing + {h}))
            && (id !in w.live ==> w'.live[id] == made && w'.closing == w.closing)
            && (w'.live[id] == made ==>
                  && w'.live == w.live[id := made] && |w'.sessions| == made + 1 && w'.sessions[..made] == w.sessions
                  && Unused(w'.sessions[made]) && w'.sessions[made].activePlays == 0
                  && w'.sessions[made].endedAt.None? && w'.sessions[made].clients == map[]
                  && w'.sessions[made].url == url && w'.sessions[made].lastAccess == now)
            && w'.closed == w.closed
  {
    AlwaysGood(steps);
    var w := Play(steps).value;
    if id in w.live {
      assert StartKnown(w.sessions[w.live[id]]);
    }
  }

  /** A session that is ready is handed back if it is there, as just accessed, and made
      otherwise, for no URL. */
  lemma {:induction false} ReadyIsHandedBackOrMade(steps: seq<Step>, id: string, now: int)
    requires Play(steps).Some?
    ensures var w := Play(steps).value;
            Enabled(w, CreateReady(id, now)) &&
            var w' := Apply(w, CreateReady(id, now));
            var made := |w.sessions|;
            && (id in w.live ==>
                  var h := w.live[id];
                  w' == w.(sessions := w.sessions[h := w.sessions[h].(lastAccess := now)]))
            && (id !in w.live ==>
                  && w'.live == w.live[id := made] && |w'.sessions| == made + 1 && w'.sessions[..made] == w.sessions
                  && Unused(w'.sessions[made]) && w'.sessions[made].activePlays == 0
                  && w'.sessions[made].endedAt.None? && w'.sessions[made].clients == map[]
                  && w'.sessions[made].url == "" && w'.sessions[made].lastAccess == now
                  && w'.closing == w.closing && w'.closed == w.closed)
  {
    AlwaysGood(steps);
  }

  /** Deleting takes the session of that id out of the map and queues it for closing; closing
      takes it from the queue. Neither touches another session. */
  lemma {:induction false} DeletedIsQueuedThenClosed(steps: seq<Step>, id: string)
    requires Play(steps).Some? && id in Play(steps).value.live
    ensures var w := Play(steps).value;
            Enabled(w, Delete(id)) &&
            var w' := Apply(w, Delete(id));
            var h := w.live[id];
            && id !in w'.live && (forall k :: k != id && k in w.live ==> k in w'.live && w'.live[k] == w.live[k])
            && w'.sessions == w.sessions && w'.closing == w.closing + {h} && w'.closed == w.closed
            && Enabled(w', CloseQueued(h)) &&
            var w'' := Apply(w', CloseQueued(h));
            && w''.live == w'.live && w''.closing == w.closing && w''.closed == w.closed + {h}
            && |w''.sessions| == |w.sessions| && w''.sessions[h].starting == 0 && w''.sessions[h].clients == map[]
            && (forall g :: 0 <= g < |w.sessions| && g != h ==> w''.sessions[g] == w.sessions[g])
  {
    AlwaysGood(steps);
  }
}
