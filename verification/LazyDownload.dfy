/** The lazy NZB download of a deferred session: many callers, one download at a
    time, and a session that may close under all of them. */
module LazyDownload {
  import opened Basics

  type Nzb = nat
  type File = nat
  type Channel = nat

  // What the download goroutine comes back with: an error, or a parsed NZB and the
  // loader files of its content. An NZB without content files counts as an error.
  datatype Result = Failed | Parsed(nzb: Nzb, files: seq<File>)

  /** The guarded fields. `closed` says whether Close ran; a session made by the
      manager has a context, which Close cancels. */
  datatype Session = Session(nzb: Option<Nzb>, files: seq<File>, file: Option<File>,
                             downloadable: bool, hasContext: bool, closed: bool,
                             inFlight: bool, done: Option<Channel>, failed: bool)

  function New(hasContext: bool): Session {
    Session(None, [], None, true, hasContext, false, false, None, false)
  }

  predicate Cancelled(s: Session) {
    s.hasContext && s.closed
  }

  // How one turn of GetOrDownloadNZBWithContext's loop goes, before it waits.
  datatype Turn = Have(nzb: Nzb) | Refused | Join(done: Option<Channel>) | Start

  function Look(s: Session, callerCancelled: bool): Turn {
    if s.nzb.Some? then Have(s.nzb.value)
    else if !s.downloadable || callerCancelled || Cancelled(s) then Refused
    else if s.inFlight then Join(s.done)
    else Start
  }

  function Started(s: Session, ch: Channel): Session {
    s.(inFlight := true, failed := false, done := Some(ch))
  }

  predicate Succeeds(s: Session, r: Result) {
    r.Parsed? && r.files != [] && !Cancelled(s)
  }

  function Finished(s: Session, r: Result): Session {
    var s' := if Succeeds(s, r) && s.nzb.None?
              then s.(nzb := Some(r.nzb), files := r.files, file := Some(r.files[0]))
              else s;
    s'.(failed := !Succeeds(s, r), inFlight := false, done := None)
  }

  function Closed(s: Session): Session {
    s.(nzb := None, files := [], file := None, downloadable := false, closed := true)
  }

  class SessionDownload {
    var nzb: Option<Nzb>
    var files: seq<File>
    var file: Option<File>
    var downloadable: bool
    const hasContext: bool
    var closed: bool
    var inFlight: bool
    var done: Option<Channel>
    var failed: bool

    function View(): Session
      reads this
    {
      Session(nzb, files, file, downloadable, hasContext, closed, inFlight, done, failed)
    }

    constructor (hasContext: bool)
      ensures View() == New(hasContext)
    {
      nzb, files, file, downloadable, closed := None, [], None, true, false;
      inFlight, done, failed := false, None, false;
      this.hasContext := hasContext;
    }

    /** From taking the lock to waiting or returning; starts the download on a new
        channel when there is nothing to join. */
    method Enter(callerCancelled: bool, ch: Channel) returns (turn: Turn)
      modifies this
      ensures turn == Look(old(View()), callerCancelled)
      ensures View() == if turn.Start? then Started(old(View()), ch) else old(View())
    {
      if nzb.Some? {
        return Have(nzb.value);
      }
      if !downloadable {
        return Refused;
      }
      if callerCancelled || (hasContext && closed) {
        return Refused;
      }
      if inFlight {
        return Join(done);
      }
      inFlight := true;
      failed := false;
      done := Some(ch);
      return Start;
    }

    /** The goroutine's last region, which also closes its channel. */
    method Finish(r: Result)
      modifies this
      ensures View() == Finished(old(View()), r)
    {
      var err := r.Failed? || r.files == [];
      if !err && hasContext && closed {
        err := true;
      }
      if !err && nzb.None? {
        nzb := Some(r.nzb);
        files := r.files;
        file := Some(r.files[0]);
      }
      failed := err;
      inFlight := false;
      done := None;
    }

    method Close()
      modifies this
      ensures View() == Closed(old(View()))
    {
      closed := true;
      files, file, nzb := [], None, None;
      downloadable := false;
    }
  }

  // ---------------------------------------------------------------------------
  // Every interleaving

  datatype Answer = Got(nzb: Nzb) | Error | Nothing

  // A call that `joined` has at some time waited for a download that another started.
  datatype Call =
    | Awaiting(ch: Option<Channel>, starter: bool, joined: bool)  // receiving; from no channel, forever
    | Between                                                     // joined in vain, before the lock again
    | Returned(answer: Answer, starter: bool, joined: bool)

  datatype Download = Running | Over

  // `downloads` are all goroutines ever started, by their channel, which is closed
  // when they are over; `installs` counts how often an NZB was put in place.
  datatype World = World(session: Session, calls: map<nat, Call>, downloads: map<Channel, Download>, installs: nat)

  datatype Step =
    | Enter(call: nat, callerCancelled: bool, ch: Channel)
    | Finish(ch: Channel, result: Result)
    | Resume(call: nat)                                      // the awaited channel was closed: one look
    | Again(call: nat, callerCancelled: bool, ch: Channel)   // the loop's next turn
    | GiveUp(call: nat)                                      // the caller's context ended
    | CloseSession

  predicate IsRunning(w: World, ch: Channel) {
    ch in w.downloads && w.downloads[ch].Running?
  }

  predicate IsAwaiting(w: World, c: nat) {
    c in w.calls && w.calls[c].Awaiting?
  }

  predicate IsBetween(w: World, c: nat) {
    c in w.calls && w.calls[c].Between?
  }

  predicate IsReturned(w: World, c: nat) {
    c in w.calls && w.calls[c].Returned?
  }

  predicate Enabled(w: World, step: Step) {
    match step
    case Enter(c, _, ch) => c !in w.calls && ch !in w.downloads
    case Finish(ch, _) => ch in w.downloads && w.downloads[ch].Running?
    case Resume(c) =>
      && IsAwaiting(w, c) && w.calls[c].ch.Some?
      && w.calls[c].ch.value in w.downloads && w.downloads[w.calls[c].ch.value].Over?
    case Again(c, _, ch) => IsBetween(w, c) && ch !in w.downloads
    case GiveUp(c) => IsAwaiting(w, c)
    case CloseSession => true
  }

  // One turn of the loop, from the lock to waiting or returning.
  function Loop(w: World, c: nat, joined: bool, callerCancelled: bool, ch: Channel): World {
    match Look(w.session, callerCancelled)
    case Have(nzb) => w.(calls := w.calls[c := Returned(Got(nzb), false, joined)])
    case Refused => w.(calls := w.calls[c := Returned(Error, false, joined)])
    case Join(done) => w.(calls := w.calls[c := Awaiting(done, false, true)])
    case Start => w.(session := Started(w.session, ch), calls := w.calls[c := Awaiting(Some(ch), true, joined)],
                     downloads := w.downloads[ch := Running])
  }

  // What a caller makes of its look once its channel is closed.
  function Woken(s: Session, call: Call): Call
    requires call.Awaiting?
  {
    if s.nzb.Some? then Returned(Got(s.nzb.value), call.starter, call.joined)
    else if s.failed then Returned(Error, call.starter, call.joined)
    else if call.starter then Returned(Nothing, true, call.joined)
    else Between
  }

  function Apply(w: World, step: Step): World
    requires Enabled(w, step)
  {
    match step
    case Enter(c, callerCancelled, ch) => Loop(w, c, false, callerCancelled, ch)
    case Finish(ch, r) =>
      var s' := Finished(w.session, r);
      w.(session := s', downloads := w.downloads[ch := Over],
         installs := if s'.nzb != w.session.nzb then w.installs + 1 else w.installs)
    case Resume(c) => w.(calls := w.calls[c := Woken(w.session, w.calls[c])])
    case Again(c, callerCancelled, ch) => Loop(w, c, true, callerCancelled, ch)
    case GiveUp(c) => w.(calls := w.calls[c := Returned(Error, w.calls[c].starter, w.calls[c].joined)])
    case CloseSession => w.(session := Closed(w.session))
  }

  function Play(hasContext: bool, steps: seq<Step>): Option<World> {
    if steps == [] then Some(World(New(hasContext), map[], map[], 0))
    else
      match Play(hasContext, steps[..|steps| - 1])
      case None => None
      case Some(w) => if Enabled(w, steps[|steps| - 1]) then Some(Apply(w, steps[|steps| - 1])) else None
  }

  lemma PlayOneMore(hasContext: bool, steps: seq<Step>, step: Step)
    requires Play(hasContext, steps).Some? && Enabled(Play(hasContext, steps).value, step)
    ensures Play(hasContext, steps + [step]) == Some(Apply(Play(hasContext, steps).value, step))
  {
    assert (steps + [step])[..|steps|] == steps;
  }

  /** One download at a time, known by the channel the session shows; every waiter
      has a channel that is closed or will be; and the NZB is there with its files
      or not at all. */
  ghost predicate SingleFlight(w: World) {
    && (w.session.inFlight <==> w.session.done.Some?)
    && (w.session.done.Some? ==> w.session.done.value in w.downloads && w.downloads[w.session.done.value].Running?)
    && (forall ch :: ch in w.downloads && w.downloads[ch].Running? ==> w.session.done == Some(ch))
    && (forall c :: c in w.calls && w.calls[c].Awaiting? ==> w.calls[c].ch.Some? && w.calls[c].ch.value in w.downloads)
    && (w.session.nzb.Some? ==> w.session.files != [] && w.session.file == Some(w.session.files[0]))
    && (w.session.nzb.None? ==> w.session.files == [] && w.session.file.None?)
    && (w.session.closed ==> !w.session.downloadable)
  }

  ghost predicate InstalledOnce(w: World) {
    && (w.session.closed ==> w.session.nzb.None?)
    && w.installs <= 1
    && (!w.session.closed ==> (w.installs == 1 <==> w.session.nzb.Some?))
  }

  lemma LoopKeepsSingleFlight(w: World, c: nat, joined: bool, callerCancelled: bool, ch: Channel)
    requires SingleFlight(w) && ch !in w.downloads
    ensures SingleFlight(Loop(w, c, joined, callerCancelled, ch))
    ensures Loop(w, c, joined, callerCancelled, ch).session.hasContext == w.session.hasContext
  {
  }

  lemma StepKeepsSingleFlight(w: World, step: Step)
    requires SingleFlight(w) && Enabled(w, step)
    ensures SingleFlight(Apply(w, step)) && Apply(w, step).session.hasContext == w.session.hasContext
  {
    if step.Enter? || step.Again? {
      LoopKeepsSingleFlight(w, step.call, step.Again?, step.callerCancelled, step.ch);
    }
  }

  /** In every interleaving at most one download runs, the session shows its channel
      exactly while it does, no caller ever waits on a missing channel, and an NZB
      appears together with its files. */
  lemma {:induction false} AlwaysSingleFlight(hasContext: bool, steps: seq<Step>)
    requires Play(hasContext, steps).Some?
    ensures SingleFlight(Play(hasContext, steps).value)
    ensures Play(hasContext, steps).value.session.hasContext == hasContext
    ensures var w := Play(hasContext, steps).value;
            forall a, b :: IsRunning(w, a) && IsRunning(w, b) ==> a == b
  {
    if steps != [] {
      AlwaysSingleFlight(hasContext, steps[..|steps| - 1]);
      StepKeepsSingleFlight(Play(hasContext, steps[..|steps| - 1]).value, steps[|steps| - 1]);
    }
  }

  /** With a context, the NZB is installed at most once ever, and a closed session
      never has one again. */
  lemma {:induction false} AlwaysInstalledOnce(steps: seq<Step>)
    requires Play(true, steps).Some?
    ensures var w := Play(true, steps).value; w.installs <= 1 && InstalledOnce(w)
  {
    if steps != [] {
      AlwaysInstalledOnce(steps[..|steps| - 1]);
      AlwaysSingleFlight(true, steps[..|steps| - 1]);
    }
  }

  /** The context is what keeps a closed session closed: a download in flight at
      the close that parses well repopulates the session exactly when it has none. */
  lemma ClosedSessionIsRepopulatedExactlyWithoutContext(hasContext: bool, steps: seq<Step>, ch: Channel, r: Result)
    requires Play(hasContext, steps).Some?
    requires var w := Play(hasContext, steps).value;
             Enabled(w, Finish(ch, r)) && w.session.closed && w.session.nzb.None? && r.Parsed? && r.files != []
    ensures Apply(Play(hasContext, steps).value, Finish(ch, r)).session.nzb.Some? <==> !hasContext
  {
    AlwaysSingleFlight(hasContext, steps);
  }

  /** What the session shows once a download was started: it runs, or it failed, or
      it installed the one NZB there ever is. */
  ghost predicate Outcome(w: World) {
    && (w.session.inFlight ==> !w.session.failed && w.session.nzb.None? && w.installs == 0)
    && (w.session.nzb.Some? ==> w.installs == 1)
    && (w.installs == 1 ==> !w.session.failed && !w.session.inFlight && (w.session.nzb.None? ==> w.session.closed))
    && (w.installs == 0 && !w.session.inFlight && w.downloads != map[] ==> w.session.failed)
    && w.installs <= 1
    && (w.session.hasContext && w.session.closed ==> w.session.nzb.None?)
  }

  lemma StepKeepsOutcome(w: World, step: Step)
    requires SingleFlight(w) && Outcome(w) && Enabled(w, step)
    ensures Outcome(Apply(w, step))
  {
  }

  lemma {:induction false} AlwaysOutcome(hasContext: bool, steps: seq<Step>)
    requires Play(hasContext, steps).Some?
    ensures Outcome(Play(hasContext, steps).value)
  {
    if steps != [] {
      AlwaysOutcome(hasContext, steps[..|steps| - 1]);
      AlwaysSingleFlight(hasContext, steps[..|steps| - 1]);
      StepKeepsOutcome(Play(hasContext, steps[..|steps| - 1]).value, steps[|steps| - 1]);
    }
  }

  // ---------------------------------------------------------------------------
  // Who comes back with neither an NZB nor an error

  // The session closed over the NZB that was installed.
  predicate LostItsNzb(w: World) {
    w.session.closed && w.installs == 1 && w.session.nzb.None?
  }

  // There is nothing to answer with: a newer download runs, or the NZB is lost.
  predicate NothingToShow(w: World) {
    w.session.inFlight || LostItsNzb(w)
  }

  /** When a caller looks after its channel was closed, in any run: it finds neither
      an NZB nor an error exactly when somebody has started another download
      meanwhile, or the session closed over the NZB that was installed. Then a caller
      that started its download returns with nothing, and one that joined goes round
      again. With a context the NZB of a closed session is always gone. */
  lemma {:induction false} LookFindsNothingExactlyWhen(hasContext: bool, steps: seq<Step>, c: nat)
    requires Play(hasContext, steps).Some? && Enabled(Play(hasContext, steps).value, Resume(c))
    ensures var w := Play(hasContext, steps).value;
            var starter, joined, after := w.calls[c].starter, w.calls[c].joined, Apply(w, Resume(c)).calls[c];
            && (NothingToShow(w) <==> after == if starter then Returned(Nothing, true, joined) else Between)
            && (!NothingToShow(w) ==> after.Returned? && after.answer != Nothing)
            && (hasContext ==> (LostItsNzb(w) <==> w.session.closed && w.installs == 1))
  {
    AlwaysSingleFlight(hasContext, steps);
    AlwaysOutcome(hasContext, steps);
    var w := Play(hasContext, steps).value;
    assert w.calls[c].ch.value in w.downloads;
  }

  // With its n-th step the caller starts a download, on a channel never used before.
  ghost predicate StartsAt(hasContext: bool, steps: seq<Step>, c: nat, n: nat) {
    && n < |steps| && Play(hasContext, steps[..n]).Some?
    && (steps[n].Enter? || steps[n].Again?) && steps[n].call == c
    && Enabled(Play(hasContext, steps[..n]).value, steps[n])
    && Look(Play(hasContext, steps[..n]).value.session, steps[n].callerCancelled).Start?
  }

  // The n-th step is the caller's look after the download it started, and in vain.
  ghost predicate InVainAt(hasContext: bool, steps: seq<Step>, c: nat, n: nat) {
    && n < |steps| && Play(hasContext, steps[..n]).Some?
    && steps[n] == Resume(c) && Enabled(Play(hasContext, steps[..n]).value, steps[n])
    && Play(hasContext, steps[..n]).value.calls[c].starter
    && NothingToShow(Play(hasContext, steps[..n]).value)
  }

  predicate ComesBackWithNothing(w: World, c: nat) {
    IsReturned(w, c) && w.calls[c].answer == Nothing
  }

  predicate Starter(w: World, c: nat) {
    c in w.calls && !w.calls[c].Between? && w.calls[c].starter
  }

  lemma PrefixesAgree(hasContext: bool, steps: seq<Step>, k: nat, c: nat, n: nat)
    requires n < k <= |steps|
    ensures StartsAt(hasContext, steps[..k], c, n) <==> StartsAt(hasContext, steps, c, n)
    ensures InVainAt(hasContext, steps[..k], c, n) <==> InVainAt(hasContext, steps, c, n)
  {
    assert steps[..k][..n] == steps[..n];
  }

  /** Who is a starter started, and who had joined before did so in a later turn. */
  lemma {:induction false} StarterStarted(hasContext: bool, steps: seq<Step>, c: nat) returns (n: nat)
    requires Play(hasContext, steps).Some? && Starter(Play(hasContext, steps).value, c)
    ensures StartsAt(hasContext, steps, c, n)
    ensures steps[n].Again? <==> Play(hasContext, steps).value.calls[c].joined
  {
    var k := |steps| - 1;
    var before := Play(hasContext, steps[..k]).value;
    if (steps[k].Enter? || steps[k].Again?) && steps[k].call == c {
      n := k;
    } else {
      n := StarterStarted(hasContext, steps[..k], c);
      PrefixesAgree(hasContext, steps, k, c, n);
    }
  }

  lemma NothingInOneStep(w: World, step: Step, c: nat)
    requires SingleFlight(w) && Outcome(w) && Enabled(w, step)
    ensures ComesBackWithNothing(Apply(w, step), c)
            <==> ComesBackWithNothing(w, c) || (step == Resume(c) && w.calls[c].starter && NothingToShow(w))
    ensures IsReturned(w, c) ==> c in Apply(w, step).calls && Apply(w, step).calls[c] == w.calls[c]
  {
    if step.Resume? {
      assert w.calls[step.call].ch.value in w.downloads;
    }
  }

  lemma NothingOneStepOn(hasContext: bool, steps: seq<Step>, c: nat, k: nat)
    requires Play(hasContext, steps).Some? && k + 1 == |steps|
    ensures ComesBackWithNothing(Play(hasContext, steps).value, c)
            <==> ComesBackWithNothing(Play(hasContext, steps[..k]).value, c) || InVainAt(hasContext, steps, c, k)
  {
    AlwaysSingleFlight(hasContext, steps[..k]);
    AlwaysOutcome(hasContext, steps[..k]);
    NothingInOneStep(Play(hasContext, steps[..k]).value, steps[k], c);
  }

  lemma InVainOneMore(hasContext: bool, steps: seq<Step>, c: nat, k: nat)
    requires k + 1 == |steps|
    ensures (exists n: nat :: InVainAt(hasContext, steps, c, n))
            <==> (exists n: nat :: InVainAt(hasContext, steps[..k], c, n)) || InVainAt(hasContext, steps, c, k)
  {
    if n: nat :| InVainAt(hasContext, steps[..k], c, n) {
      PrefixesAgree(hasContext, steps, k, c, n);
      assert InVainAt(hasContext, steps, c, n);
    }
    if n: nat :| InVainAt(hasContext, steps, c, n) && n != k {
      PrefixesAgree(hasContext, steps, k, c, n);
      assert InVainAt(hasContext, steps[..k], c, n);
    }
  }

  /** In every run a caller has come back with nothing exactly when it looked in vain
      after a download that it had started itself. */
  lemma {:induction false} ReturnsNothingExactlyWhen(hasContext: bool, steps: seq<Step>, c: nat)
    requires Play(hasContext, steps).Some?
    ensures ComesBackWithNothing(Play(hasContext, steps).value, c) <==>
            exists n: nat :: InVainAt(hasContext, steps, c, n)
  {
    if steps != [] {
      var k := |steps| - 1;
      ReturnsNothingExactlyWhen(hasContext, steps[..k], c);
      NothingOneStepOn(hasContext, steps, c, k);
      InVainOneMore(hasContext, steps, c, k);
    }
  }

  ghost predicate LaterDownloadInVain(hasContext: bool, steps: seq<Step>, c: nat, n: nat, m: nat) {
    n < m < |steps| && StartsAt(hasContext, steps, c, n) && steps[n].Again? && InVainAt(hasContext, steps, c, m)
  }

  /** A caller that once joined somebody else's download comes back with neither an
      NZB nor an error exactly when it went on to start a later download itself, and
      looked in vain after that. */
  lemma {:induction false} JoinersReturnNothingExactlyWhen(hasContext: bool, steps: seq<Step>, c: nat)
    requires Play(hasContext, steps).Some?
    requires IsReturned(Play(hasContext, steps).value, c) && Play(hasContext, steps).value.calls[c].joined
    ensures Play(hasContext, steps).value.calls[c].answer == Nothing <==>
              exists n: nat, m: nat :: LaterDownloadInVain(hasContext, steps, c, n, m)
  {
    ReturnsNothingExactlyWhen(hasContext, steps, c);
    if m: nat :| InVainAt(hasContext, steps, c, m) {
      var n := StarterStarted(hasContext, steps[..m], c);
      PrefixesAgree(hasContext, steps, m, c, n);
      JoinedStays(hasContext, steps, c, m);
      assert LaterDownloadInVain(hasContext, steps, c, n, m);
    }
  }

  lemma {:induction false} JoinedStays(hasContext: bool, steps: seq<Step>, c: nat, m: nat)
    requires Play(hasContext, steps).Some? && InVainAt(hasContext, steps, c, m)
    ensures IsReturned(Play(hasContext, steps).value, c)
    ensures Play(hasContext, steps).value.calls[c].joined == Play(hasContext, steps[..m]).value.calls[c].joined
  {
    var k := |steps| - 1;
    AlwaysSingleFlight(hasContext, steps[..k]);
    AlwaysOutcome(hasContext, steps[..k]);
    NothingInOneStep(Play(hasContext, steps[..k]).value, steps[k], c);
    if m < k {
      assert steps[..k][..m] == steps[..m];
      PrefixesAgree(hasContext, steps, k, c, m);
      JoinedStays(hasContext, steps[..k], c, m);
    }
  }

  lemma {:induction false} PlayAfter(hasContext: bool, steps: seq<Step>, w: World, step: Step)
      returns (more: seq<Step>, w': World)
    requires Play(hasContext, steps) == Some(w) && Enabled(w, step)
    ensures more == steps + [step] && w' == Apply(w, step) && Play(hasContext, more) == Some(w')
  {
    PlayOneMore(hasContext, steps, step);
    more, w' := steps + [step], Apply(w, step);
  }

  /** All of it happens. The session closes between the download's success and the
      starter's look. */
  lemma {:induction false} StarterCanComeBackEmptyHanded() returns (steps: seq<Step>, w: World)
    ensures Play(true, steps) == Some(w)
    ensures 0 in w.calls && w.calls[0] == Returned(Nothing, true, false) && LostItsNzb(w)
  {
    steps, w := PlayAfter(true, [], World(New(true), map[], map[], 0), Enter(0, false, 0));
    steps, w := PlayAfter(true, steps, w, Finish(0, Parsed(7, [8])));
    steps, w := PlayAfter(true, steps, w, CloseSession);
    steps, w := PlayAfter(true, steps, w, Resume(0));
  }

  /** Or its download fails, and another caller starts a new one before it looks. */
  lemma {:induction false} StarterCanBeOvertaken() returns (steps: seq<Step>, w: World)
    ensures Play(true, steps) == Some(w)
    ensures 0 in w.calls && w.calls[0] == Returned(Nothing, true, false) && w.session.inFlight
  {
    steps, w := PlayAfter(true, [], World(New(true), map[], map[], 0), Enter(0, false, 0));
    steps, w := PlayAfter(true, steps, w, Finish(0, Failed));
    steps, w := PlayAfter(true, steps, w, Enter(1, false, 1));
    steps, w := PlayAfter(true, steps, w, Resume(0));
  }

  lemma {:induction false} JoinerCanLookInVain() returns (steps: seq<Step>, w: World)
    ensures Play(true, steps) == Some(w) && IsBetween(w, 1)
    ensures w.session == Started(New(true), 1) && w.downloads == map[0 := Over, 1 := Running] && w.installs == 0
  {
    steps, w := PlayAfter(true, [], World(New(true), map[], map[], 0), Enter(0, false, 0));
    steps, w := PlayAfter(true, steps, w, Enter(1, false, 1));
    steps, w := PlayAfter(true, steps, w, Finish(0, Failed));
    steps, w := PlayAfter(true, steps, w, Enter(2, false, 1));
    steps, w := PlayAfter(true, steps, w, Resume(1));
  }

  /** A joiner looks while a newer download runs, takes the lock again after that has
      failed, starts one itself, and the session closes over it. */
  lemma {:induction false} JoinerCanComeBackEmptyHanded() returns (steps: seq<Step>, w: World)
    ensures Play(true, steps) == Some(w)
    ensures 1 in w.calls && w.calls[1] == Returned(Nothing, true, true) && LostItsNzb(w)
  {
    steps, w := JoinerCanLookInVain();
    steps, w := PlayAfter(true, steps, w, Finish(1, Failed));
    steps, w := PlayAfter(true, steps, w, Again(1, false, 2));
    steps, w := PlayAfter(true, steps, w, Finish(2, Parsed(7, [8])));
    steps, w := PlayAfter(true, steps, w, CloseSession);
    steps, w := PlayAfter(true, steps, w, Resume(1));
  }

  /** No caller is left waiting: while one awaits a channel, either that channel is
      closed and it may look, or the download that will close it is running; and
      whoever looked in vain may take the lock again. */
  lemma WaitersAreServed(hasContext: bool, steps: seq<Step>, c: nat)
    requires Play(hasContext, steps).Some? && c in Play(hasContext, steps).value.calls
    ensures var w := Play(hasContext, steps).value;
            && (w.calls[c].Between? ==>
                  forall next: Channel :: next !in w.downloads ==> Enabled(w, Again(c, false, next)))
            && (w.calls[c].Awaiting? ==>
                  var ch := w.calls[c].ch;
                  && ch.Some? && ch.value in w.downloads
                  && (w.downloads[ch.value].Over? ==> Enabled(w, Resume(c)))
                  && (w.downloads[ch.value].Running? ==> forall r ::
                        Enabled(w, Finish(ch.value, r)) && Enabled(Apply(w, Finish(ch.value, r)), Resume(c))))
  {
    AlwaysSingleFlight(hasContext, steps);
  }

  // ---------------------------------------------------------------------------
  // How a turn goes, and where what it returns comes from

  /** A caller at the lock, in any run: it gets the NZB that is there whatever else holds;
      without one it is refused exactly when the session is closed or the caller has given up,
      joins the one download that runs, or starts the next one. */
  lemma TurnGoes(hasContext: bool, steps: seq<Step>, step: Step)
    requires Play(hasContext, steps).Some? && Enabled(Play(hasContext, steps).value, step)
    requires step.Enter? || step.Again?
    ensures var w := Play(hasContext, steps).value;
            var w' := Apply(w, step);
            var refused := w.session.nzb.None? && (w.session.closed || step.callerCancelled);
            var joined := step.Again?;
            && step.call in w'.calls
            && var after := w'.calls[step.call];
            && (forall nzb: Nzb :: w.session.nzb == Some(nzb) <==> after == Returned(Got(nzb), false, joined))
            && (refused <==> after == Returned(Error, false, joined))
            && (forall ch: Channel :: w.session.nzb.None? && !refused && IsRunning(w, ch) <==>
                             after == Awaiting(Some(ch), false, true) && ch != step.ch)
            && (w.session.nzb.None? && !refused && (forall ch: Channel :: !IsRunning(w, ch)) ==>
                  && after == Awaiting(Some(step.ch), true, joined) && IsRunning(w', step.ch)
                  && w'.session.nzb.None? && !w'.session.closed)
            && (after.Awaiting? && after.starter ==> forall ch: Channel :: !IsRunning(w, ch))
            && (!(after.Awaiting? && after.starter) ==> w'.session == w.session && w'.downloads == w.downloads)
  {
    AlwaysSingleFlight(hasContext, steps);
    StillDownloadable(hasContext, steps);
    var w := Play(hasContext, steps).value;
    if w.session.inFlight {
      assert IsRunning(w, w.session.done.value);
    }
  }

  lemma StepKeepsDownloadable(w: World, step: Step)
    requires Enabled(w, step) && (w.session.downloadable <==> !w.session.closed)
    ensures Apply(w, step).session.downloadable <==> !Apply(w, step).session.closed
  {
  }

  lemma {:induction false} StillDownloadable(hasContext: bool, steps: seq<Step>)
    requires Play(hasContext, steps).Some?
    ensures Play(hasContext, steps).value.session.downloadable <==> !Play(hasContext, steps).value.session.closed
  {
    if steps != [] {
      StillDownloadable(hasContext, steps[..|steps| - 1]);
      StepKeepsDownloadable(Play(hasContext, steps[..|steps| - 1]).value, steps[|steps| - 1]);
    }
  }

  // The n-th step ends a download with an NZB and its content files.
  predicate ParsedAt(steps: seq<Step>, n: nat, nzb: Nzb, files: seq<File>) {
    n < |steps| && steps[n].Finish? && steps[n].result == Parsed(nzb, files) && files != []
  }

  ghost predicate WasParsed(steps: seq<Step>, nzb: Nzb) {
    exists n, files :: ParsedAt(steps, n, nzb, files)
  }

  // What a session holds came out of one download, its first file with it.
  ghost predicate Whole(steps: seq<Step>, s: Session) {
    s.nzb.Some? ==>
      s.files != [] && s.file == Some(s.files[0]) && exists n :: ParsedAt(steps, n, s.nzb.value, s.files)
  }

  ghost predicate Answered(steps: seq<Step>, w: World, c: nat) {
    IsReturned(w, c) && w.calls[c].answer.Got? ==> WasParsed(steps, w.calls[c].answer.nzb)
  }

  lemma ParsedOneMore(steps: seq<Step>, n: nat, nzb: Nzb, files: seq<File>)
    requires steps != [] && ParsedAt(steps[..|steps| - 1], n, nzb, files)
    ensures ParsedAt(steps, n, nzb, files)
  {
  }

  lemma StepAnswers(w: World, step: Step, c: nat)
    requires Enabled(w, step) && IsReturned(Apply(w, step), c) && Apply(w, step).calls[c].answer.Got?
    ensures var nzb := Apply(w, step).calls[c].answer.nzb;
            (IsReturned(w, c) && w.calls[c].answer == Got(nzb)) || w.session.nzb == Some(nzb)
  {
  }

  lemma StepInstalls(w: World, step: Step)
    requires Enabled(w, step)
    ensures var s, s' := w.session, Apply(w, step).session;
            s'.nzb.Some? ==>
              || (s'.nzb == s.nzb && s'.files == s.files && s'.file == s.file)
              || (step.Finish? && step.result == Parsed(s'.nzb.value, s'.files) && s'.files != []
                  && s'.file == Some(s'.files[0]))
  {
  }

  /** Whatever a caller gets is the NZB of a finished download that parsed well, and what the
      session holds is such an NZB with the files of the same download, the first one chosen. */
  lemma {:induction false} WhatIsGotWasParsed(hasContext: bool, steps: seq<Step>, c: nat)
    requires Play(hasContext, steps).Some?
    ensures Whole(steps, Play(hasContext, steps).value.session)
    ensures Answered(steps, Play(hasContext, steps).value, c)
  {
    if steps != [] {
      var k := |steps| - 1;
      var w, w' := Play(hasContext, steps[..k]).value, Play(hasContext, steps).value;
      WhatIsGotWasParsed(hasContext, steps[..k], c);
      StepInstalls(w, steps[k]);
      if w'.session.nzb.Some? {
        if w'.session.nzb == w.session.nzb && w'.session.files == w.session.files {
          var n :| ParsedAt(steps[..k], n, w.session.nzb.value, w.session.files);
          ParsedOneMore(steps, n, w.session.nzb.value, w.session.files);
        } else {
          assert ParsedAt(steps, k, w'.session.nzb.value, w'.session.files);
        }
      }
      if IsReturned(w', c) && w'.calls[c].answer.Got? {
        StepAnswers(w, steps[k], c);
        var nzb := w'.calls[c].answer.nzb;
        assert WasParsed(steps[..k], nzb);
        var n, files :| ParsedAt(steps[..k], n, nzb, files);
        ParsedOneMore(steps, n, nzb, files);
      }
    }
  }

  /** The look after a download: the NZB if it is there; else an error exactly when the last
      download failed and none runs again. */
  lemma LookGoes(hasContext: bool, steps: seq<Step>, c: nat)
    requires Play(hasContext, steps).Some? && Enabled(Play(hasContext, steps).value, Resume(c))
    ensures var w := Play(hasContext, steps).value;
            var w' := Apply(w, Resume(c));
            && IsAwaiting(w, c) && c in w'.calls && w'.session == w.session
            && (forall nzb: Nzb :: w'.calls[c] == Returned(Got(nzb), w.calls[c].starter, w.calls[c].joined)
                              <==> w.session.nzb == Some(nzb))
            && (w'.calls[c] == Returned(Error, w.calls[c].starter, w.calls[c].joined)
                <==> w.installs == 0 && forall ch: Channel :: !IsRunning(w, ch))
  {
    AlwaysSingleFlight(hasContext, steps);
    AlwaysOutcome(hasContext, steps);
    var w := Play(hasContext, steps).value;
    assert w.calls[c].ch.value in w.downloads;
    if w.session.inFlight {
      assert IsRunning(w, w.session.done.value);
    }
  }
}
