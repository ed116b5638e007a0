/** One budget of a client and the hits its usage manager holds, each behind its own
    lock: a refresh reads the one and writes the other later, and a header sync goes the
    other way. When the two agree. */
module QuotaMirror {
  import opened Basics
  import opened UsageManager
  import opened ClientCore

  // Which budget of which indexer this is.
  datatype Meter = Meter(name: string, kind: Kind)

  // `stored` is everything the manager was told or asked; `reading` are the refreshes
  // that have read a count and not written it yet.
  datatype World = World(quota: Quota, stored: seq<Op>, reading: map<nat, int>, clock: int)

  datatype Step =
    | ReadUsage(call: nat, now: int)
    | WriteUsage(call: nat)
    | CountRequest                                                 // a request, on the client's side
    | Reconcile(limit: Option<int>, remaining: Option<int>)        // a response's headers, there too
    | Manage(op: Op)                                               // any other access to the manager

  function Count(m: Meter, stored: seq<Op>, now: int): int {
    CountsOf(Replay(stored), m.name, now).Get(m.kind)
  }

  // The clock does not run backwards.
  predicate Enabled(w: World, step: Step) {
    match step
    case ReadUsage(c, now) => c !in w.reading && w.clock <= now
    case WriteUsage(c) => c in w.reading
    case CountRequest => true
    case Reconcile(_, _) => true
    case Manage(op) => w.clock <= op.now
  }

  function Apply(m: Meter, w: World, step: Step): World
    requires Enabled(w, step)
  {
    match step
    case ReadUsage(c, now) =>
      w.(stored := w.stored + [ReadCounts(m.name, now)], reading := w.reading[c := Count(m, w.stored, now)],
         clock := now)
    case WriteUsage(c) => w.(quota := Refreshed(w.quota, w.reading[c]), reading := w.reading - {c})
    case CountRequest => w.(quota := Spend(w.quota))
    case Reconcile(limit, remaining) => w.(quota := Ingest(w.quota, limit, remaining).0)
    case Manage(op) => w.(stored := w.stored + [op], clock := op.now)
  }

  function Play(m: Meter, w: World, steps: seq<Step>): Option<World> {
    if steps == [] then Some(w)
    else
      match Play(m, w, steps[..|steps| - 1])
      case None => None
      case Some(w') => if Enabled(w', steps[|steps| - 1]) then Some(Apply(m, w', steps[|steps| - 1])) else None
  }

  lemma PlayOne(m: Meter, w: World, step: Step)
    requires Enabled(w, step)
    ensures Play(m, w, [step]) == Some(Apply(m, w, step))
  {
    assert [step][..0] == [];
  }

  // ---------------------------------------------------------------------------
  // A governed count that was stored

  /** The manager was told this sync, nothing later that states a count, and the clock
      is still in that second. */
  ghost predicate Synced(m: Meter, w: World, ops: seq<Op>, sync: Op, more: seq<Op>) {
    && w.stored == ops + [sync] + more
    && (forall i :: 0 <= i < |more| ==> StatedBy(more[i], m.name, m.kind).None?)
    && ClockOrdered(w.stored, w.clock)
    && sync.SetHeaderCounts? && Unix(w.clock) == Unix(sync.now) > 0
  }

  // A remaining header that governed, the budget it left, and the count it stated.
  predicate Governs(m: Meter, q: Quota, limit: Option<int>, header: int, sync: Op, q': Quota) {
    var (left, stated) := Ingest(q, limit, Some(header));
    q' == left && stated.Some? && StatedBy(sync, m.name, m.kind) == stated
  }

  // Refreshes, and whatever else reaches the manager in that second without stating a count.
  predicate Quiet(m: Meter, steps: seq<Step>, second: int) {
    forall i :: 0 <= i < |steps| ==>
      match steps[i]
      case ReadUsage(_, now) => Unix(now) == second
      case WriteUsage(_) => true
      case CountRequest => false
      case Reconcile(_, _) => false
      case Manage(op) => Unix(op.now) == second && StatedBy(op, m.name, m.kind).None?
  }

  ghost predicate InStep(w: World, q: Quota) {
    w.quota == q && forall c :: c in w.reading ==> w.reading[c] == q.used
  }

  lemma OrderedOneMore(stored: seq<Op>, clock: int, op: Op)
    requires ClockOrdered(stored, clock) && clock <= op.now
    ensures ClockOrdered(stored + [op], op.now)
  {
  }

  lemma CountIsGoverned(m: Meter, w: World, ops: seq<Op>, sync: Op, more: seq<Op>,
                        q: Quota, limit: Option<int>, header: int, q': Quota, now: int)
    requires Synced(m, w, ops, sync, more) && Governs(m, q, limit, header, sync, q')
    requires w.clock <= now && Unix(now) == Unix(sync.now)
    ensures Count(m, w.stored, now) == q'.used && Refreshed(q', q'.used) == q'
  {
    RefreshAfterSyncChangesNothing(q, limit, header, ops, sync, more, m.name, m.kind, now);
  }

  lemma StaysSynced(m: Meter, w: World, ops: seq<Op>, sync: Op, more: seq<Op>, op: Op)
    requires Synced(m, w, ops, sync, more) && StatedBy(op, m.name, m.kind).None?
    requires w.clock <= op.now && Unix(op.now) == Unix(sync.now)
    ensures Synced(m, w.(stored := w.stored + [op], clock := op.now), ops, sync, more + [op])
  {
    OrderedOneMore(w.stored, w.clock, op);
    assert w.stored + [op] == ops + [sync] + (more + [op]);
  }

  lemma QuietInit(m: Meter, steps: seq<Step>, second: int)
    requires steps != [] && Quiet(m, steps, second)
    ensures Quiet(m, steps[..|steps| - 1], second) && Quiet(m, [steps[|steps| - 1]], second)
  {
    assert [steps[|steps| - 1]][0] == steps[|steps| - 1];
  }

  lemma QuietStepKeeps(m: Meter, w: World, ops: seq<Op>, sync: Op, more: seq<Op>,
                       q: Quota, limit: Option<int>, header: int, q': Quota, step: Step)
      returns (more': seq<Op>)
    requires Synced(m, w, ops, sync, more) && Governs(m, q, limit, header, sync, q') && InStep(w, q')
    requires Enabled(w, step) && Quiet(m, [step], Unix(sync.now))
    ensures Synced(m, Apply(m, w, step), ops, sync, more') && InStep(Apply(m, w, step), q')
  {
    assert [step][0] == step;
    CountIsGoverned(m, w, ops, sync, more, q, limit, header, q', w.clock);
    match step
    case ReadUsage(c, now) =>
      CountIsGoverned(m, w, ops, sync, more, q, limit, header, q', now);
      StaysSynced(m, w, ops, sync, more, ReadCounts(m.name, now));
      more' := more + [ReadCounts(m.name, now)];
    case Manage(op) =>
      StaysSynced(m, w, ops, sync, more, op);
      more' := more + [op];
    case WriteUsage(c) =>
      more' := more;
  }

  lemma {:induction false} QuietKeeps(m: Meter, w: World, ops: seq<Op>, sync: Op, more: seq<Op>, q: Quota,
                                      limit: Option<int>, header: int, q': Quota, steps: seq<Step>)
      returns (more': seq<Op>)
    requires Synced(m, w, ops, sync, more) && Governs(m, q, limit, header, sync, q') && InStep(w, q')
    requires Quiet(m, steps, Unix(sync.now)) && Play(m, w, steps).Some?
    ensures Synced(m, Play(m, w, steps).value, ops, sync, more') && InStep(Play(m, w, steps).value, q')
  {
    if steps == [] {
      more' := more;
    } else {
      var before, last := steps[..|steps| - 1], steps[|steps| - 1];
      QuietInit(m, steps, Unix(sync.now));
      var between := QuietKeeps(m, w, ops, sync, more, q, limit, header, q', before);
      more' := QuietStepKeeps(m, Play(m, w, before).value, ops, sync, between, q, limit, header, q', last);
    }
  }

  ghost predicate Stands(m: Meter, w: World, q: Quota, second: int) {
    forall steps :: Quiet(m, steps, second) && Play(m, w, steps).Some? ==> Play(m, w, steps).value.quota == q
  }

  lemma NotInStepIsLost(m: Meter, w: World, q: Quota, second: int)
    requires !InStep(w, q)
    ensures !Stands(m, w, q, second)
  {
    if w.quota != q {
      assert Quiet(m, [], second) && Play(m, w, []).value.quota != q;
    } else {
      var c :| c in w.reading && w.reading[c] != q.used;
      PlayOne(m, w, WriteUsage(c));
      assert Quiet(m, [WriteUsage(c)], second);
    }
  }

  /** Once a governed count is stored, the client keeps showing it through the rest of
      that second, however refreshes interleave, if and only if it shows it now and no
      refresh under way holds another count. */
  lemma {:induction false} GovernedCountStandsExactlyWhen(m: Meter, w: World, ops: seq<Op>, sync: Op, more: seq<Op>,
                                                          q: Quota, limit: Option<int>, header: int, q': Quota)
    requires Synced(m, w, ops, sync, more) && Governs(m, q, limit, header, sync, q')
    ensures Stands(m, w, q', Unix(sync.now)) <==>
            w.quota == q' && forall c :: c in w.reading ==> w.reading[c] == q'.used
  {
    if InStep(w, q') {
      forall steps | Quiet(m, steps, Unix(sync.now)) && Play(m, w, steps).Some?
        ensures Play(m, w, steps).value.quota == q'
      {
        var _ := QuietKeeps(m, w, ops, sync, more, q, limit, header, q', steps);
      }
    } else {
      NotInStepIsLost(m, w, q', Unix(sync.now));
    }
  }

  // Two budgets that differ in their counts at most.
  predicate SameLimits(a: Quota, b: Quota) {
    a.configured == b.configured && a.advertised == b.advertised && a.limit == b.limit
  }

  /** A count that was lost to an older refresh comes back with the next one that both
      reads and writes after the sync. */
  lemma {:induction false} NextRefreshRepairs(m: Meter, w: World, ops: seq<Op>, sync: Op, more: seq<Op>,
                                              q: Quota, limit: Option<int>, header: int, q': Quota, c: nat, now: int)
    requires Synced(m, w, ops, sync, more) && Governs(m, q, limit, header, sync, q') && SameLimits(w.quota, q')
    requires Enabled(w, ReadUsage(c, now)) && Unix(now) == Unix(sync.now)
    ensures var read := Apply(m, w, ReadUsage(c, now));
            Enabled(read, WriteUsage(c)) && Apply(m, read, WriteUsage(c)).quota == q'
  {
    CountIsGoverned(m, w, ops, sync, more, q, limit, header, q', now);
    GovernedCountNeverWidens(q, limit, header);
    assert q'.limit > 0 && q'.remaining == ClampRemaining(q'.limit - q'.used);
    assert Apply(m, w, ReadUsage(c, now)).reading[c] == q'.used;
    assert Refreshed(w.quota, q'.used) == q';
  }

  lemma {:induction false} PlayAfter(m: Meter, w0: World, steps: seq<Step>, w: World, step: Step)
      returns (more: seq<Step>, w': World)
    requires Play(m, w0, steps) == Some(w) && Enabled(w, step)
    ensures more == steps + [step] && w' == Apply(m, w, step) && Play(m, w0, more) == Some(w')
  {
    more, w' := steps + [step], Apply(m, w, step);
    assert more[..|steps|] == steps;
  }

  lemma {:induction false} HeldCountOverwrites(m: Meter, w0: World, steps: seq<Step>, w: World, c: nat,
                                               limit: Option<int>, header: int, sync: Op)
      returns (more: seq<Step>, w': World)
    requires Play(m, w0, steps) == Some(w) && c in w.reading && w.clock <= sync.now
    ensures more == steps + [Reconcile(limit, Some(header))] + [Manage(sync)] + [WriteUsage(c)]
    ensures Play(m, w0, more) == Some(w') && w'.quota.used == w.reading[c]
  {
    more, w' := PlayAfter(m, w0, steps, w, Reconcile(limit, Some(header)));
    more, w' := PlayAfter(m, w0, more, w', Manage(sync));
    more, w' := PlayAfter(m, w0, more, w', WriteUsage(c));
  }

  /** It happens from any state: a refresh reads, the response of another call is
      reconciled and stored, and the refresh writes what it read. */
  lemma {:induction false} OlderRefreshOverwrites(m: Meter, w: World, c: nat, limit: Option<int>, header: int, sync: Op)
      returns (steps: seq<Step>, w': World)
    requires c !in w.reading && sync.SetHeaderCounts? && w.clock <= sync.now
    requires Governs(m, w.quota, limit, header, sync, Ingest(w.quota, limit, Some(header)).0)
    ensures steps == [ReadUsage(c, w.clock), Reconcile(limit, Some(header)), Manage(sync), WriteUsage(c)]
    ensures Play(m, w, steps) == Some(w') && w'.quota.used == Count(m, w.stored, w.clock)
  {
    steps, w' := PlayAfter(m, w, [], w, ReadUsage(c, w.clock));
    steps, w' := HeldCountOverwrites(m, w, steps, w', c, limit, header, sync);
  }
}
