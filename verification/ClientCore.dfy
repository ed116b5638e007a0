/** The bookkeeping every indexer client shares: the two daily budgets with their
    server-stated counters, the refusal cooldown, and the gate in front of every
    search and grab. */
module ClientCore {
  import opened Basics
  import opened UsageManager

  const DEFAULT_THROTTLE_COOLDOWN: int := 60 * SECOND
  const MAX_THROTTLE_COOLDOWN: int := 15 * 60 * SECOND
  const QUOTA_EXHAUSTED_COOLDOWN: int := 30 * 60 * SECOND
  const BUDGET_EXHAUSTED_PROBE_INTERVAL: int := 15 * 60 * SECOND

  // ---------------------------------------------------------------------------
  // One daily budget

  // A limit that is not positive means "no limit".
  datatype Quota = Quota(configured: int, advertised: int, limit: int, used: int, remaining: int)

  function ClampRemaining(remaining: int): int {
    if remaining < 0 then 0 else remaining
  }

  function EffectiveLimit(configured: int, advertised: int): int {
    if configured <= 0 then advertised
    else if advertised <= 0 then configured
    else if advertised < configured then advertised
    else configured
  }

  datatype Reconciled = Reconciled(used: int, remaining: int, governed: bool)

  function ReconcileRemaining(localUsed: int, localRemaining: int, limit: int, advertised: int,
                              header: int): Reconciled {
    var stated := ClampRemaining(header);
    if advertised > 0 then
      var used := ClampRemaining(advertised - stated);
      if limit <= 0 then Reconciled(used, stated, true)
      else Reconciled(used, ClampRemaining(limit - used), true)
    else if limit <= 0 then Reconciled(localUsed, stated, false)
    else if stated > limit then Reconciled(localUsed, localRemaining, false)
    else Reconciled(ClampRemaining(limit - stated), stated, true)
  }

  /** One response's headers on one budget: the new budget, and the used count to
      store as a server sync when the server governs. */
  function Ingest(q: Quota, limitHeader: Option<int>, remainingHeader: Option<int>): (Quota, Option<int>) {
    var advertised := if limitHeader.Some? then limitHeader.value else q.advertised;
    var limit := EffectiveLimit(q.configured, advertised);
    var q' := q.(advertised := advertised, limit := limit);
    match remainingHeader
    case None => (q', None)
    case Some(header) =>
      var r := ReconcileRemaining(q.used, q.remaining, limit, advertised, header);
      (q'.(used := r.used, remaining := r.remaining), if r.governed then Some(r.used) else None)
  }

  function Refreshed(q: Quota, count: int): Quota {
    var q' := q.(used := count);
    if q.limit > 0 then q'.(remaining := ClampRemaining(q.limit - count)) else q'
  }

  function Spend(q: Quota): Quota {
    q.(used := q.used + 1, remaining := if q.remaining > 0 then q.remaining - 1 else q.remaining)
  }

  predicate Spent(q: Quota) {
    q.limit > 0 && q.remaining <= 0
  }

  function NewQuota(configured: int): Quota {
    Quota(configured, 0, configured, 0, configured)
  }

  datatype QuotaStep =
    | Headers(limit: Option<int>, remaining: Option<int>)
    | Refresh(count: int)
    | Hit

  function ApplyStep(q: Quota, s: QuotaStep): Quota {
    match s
    case Headers(l, r) => Ingest(q, l, r).0
    case Refresh(n) => Refreshed(q, n)
    case Hit => Spend(q)
  }

  function AfterSteps(q: Quota, steps: seq<QuotaStep>): Quota {
    if steps == [] then q else ApplyStep(AfterSteps(q, steps[..|steps| - 1]), steps[|steps| - 1])
  }

  // The enforced limit is the stricter of the two; an uncapped budget starts out
  // with whatever non-positive number was configured.
  predicate Enforced(q: Quota) {
    q.limit == EffectiveLimit(q.configured, q.advertised) || q.limit == q.configured <= 0
  }

  /** Whatever a server advertises, the enforced limit of a budget the operator
      capped never leaves that cap, and an uncapped one follows the server. */
  lemma {:induction false} ConfiguredLimitAlwaysBinds(configured: int, steps: seq<QuotaStep>)
    ensures var q := AfterSteps(NewQuota(configured), steps);
            && q.configured == configured
            && Enforced(q)
            && (configured > 0 ==> 0 < q.limit <= configured)
            && (configured > 0 && q.advertised > 0 ==> q.limit <= q.advertised)
  {
    if steps != [] {
      ConfiguredLimitAlwaysBinds(configured, steps[..|steps| - 1]);
    }
  }

  /** When a remaining header governs, and what it may then claim: never more than
      the server stated, never more than the enforced limit. */
  lemma GovernedCountNeverWidens(q: Quota, limitHeader: Option<int>, header: int)
    ensures var (q', sync) := Ingest(q, limitHeader, Some(header));
            && (sync.Some? <==> q'.advertised > 0 || (q'.limit > 0 && header <= q'.limit))
            && (sync.Some? ==>
                  && sync.value == q'.used >= 0
                  && 0 <= q'.remaining <= ClampRemaining(header)
                  && q'.limit > 0 && q'.remaining <= q'.limit
                  && q'.remaining == ClampRemaining(q'.limit - q'.used))
            && (sync.None? && q'.limit > 0 ==> q'.used == q.used && q'.remaining == q.remaining)
  {
  }

  /** The limits after a response: the advertised one is what was last stated, and the
      enforced one the lower of those that are set. */
  ghost predicate LimitsAreRead(q: Quota, limitHeader: Option<int>, q': Quota) {
    && q'.configured == q.configured
    && q'.advertised == (if limitHeader.Some? then limitHeader.value else q.advertised)
    && (q'.configured <= 0 ==> q'.limit == q'.advertised)
    && (q'.configured > 0 >= q'.advertised ==> q'.limit == q'.configured)
    && (q'.configured > 0 && q'.advertised > 0 ==> q'.limit == Min(q'.configured, q'.advertised))
  }

  /** The counts after a remaining header, by what is known of the limits. A header below
      zero counts as zero. */
  ghost predicate RemainingIsRead(q: Quota, header: int, q': Quota) {
    var stated := Max(0, header);
    // under an advertised limit: what is gone of it is used
    && (q'.advertised > 0 ==>
          && q'.used == Max(0, q'.advertised - stated)
          && (0 <= header <= q'.advertised ==> q'.used + header == q'.advertised)
          && (0 <= header <= q'.advertised && q'.limit == q'.advertised ==> q'.remaining == header)
          && (header > q'.advertised ==> q'.used == 0 && q'.remaining == q'.limit)
          && q'.remaining == Max(0, q'.limit - q'.used))
    // under a configured cap alone: what is gone of the cap is used, if the header fits it
    && (q'.advertised <= 0 < q'.limit && stated <= q'.limit ==>
          q'.remaining == stated && q'.used + q'.remaining == q'.limit)
    && (q'.advertised <= 0 < q'.limit < stated ==> q'.used == q.used && q'.remaining == q.remaining)
    // under no limit it is only shown
    && (q'.advertised <= 0 && q'.limit <= 0 ==> q'.used == q.used && q'.remaining == stated)
  }

  /** What a response's headers leave of a budget, and when the used count is stored. */
  lemma HeadersAreRead(q: Quota, limitHeader: Option<int>, remainingHeader: Option<int>)
    ensures var (q', sync) := Ingest(q, limitHeader, remainingHeader);
            && LimitsAreRead(q, limitHeader, q')
            && (remainingHeader.Some? ==> RemainingIsRead(q, remainingHeader.value, q'))
            && (remainingHeader.None? ==> q'.used == q.used && q'.remaining == q.remaining && sync.None?)
            && (sync.Some? ==> sync.value == q'.used)
            && (sync.Some? <==> remainingHeader.Some?
                                && (q'.advertised > 0 || (q'.limit > 0 && remainingHeader.value <= q'.limit)))
  {
  }

  /** A budget that was just refreshed and then hit: the hits are added to the count that was
      read, and a limited budget is spent exactly once the two reach the limit. */
  lemma {:induction false} HitsAreCharged(q: Quota, count: int, hits: seq<QuotaStep>)
    requires forall i :: 0 <= i < |hits| ==> hits[i] == Hit
    ensures var q' := AfterSteps(Refreshed(q, count), hits);
            && q'.used == count + |hits|
            && q'.limit == q.limit && q'.configured == q.configured && q'.advertised == q.advertised
            && (q.limit > 0 ==> q'.remaining == Max(0, q.limit - q'.used))
            && (q.limit > 0 ==> (Spent(q') <==> q'.used >= q.limit))
            && (q.limit <= 0 ==> !Spent(q') && q'.remaining <= Max(0, q.remaining))
  {
    if hits != [] {
      HitsAreCharged(q, count, hits[..|hits| - 1]);
    }
  }

  /** A budget that nobody reads counts by itself: it is spent exactly after as many hits as
      were configured, and never without a configured limit. */
  lemma {:induction false} NewBudgetLastsItsLimit(configured: int, hits: seq<QuotaStep>)
    requires forall i :: 0 <= i < |hits| ==> hits[i] == Hit
    ensures var q := AfterSteps(NewQuota(configured), hits);
            && q.used == |hits| && q.limit == q.configured == configured && q.advertised == 0
            && (configured > 0 ==> q.remaining == Max(0, configured - |hits|))
            && (Spent(q) <==> 0 < configured <= |hits|)
  {
    if hits != [] {
      NewBudgetLastsItsLimit(configured, hits[..|hits| - 1]);
    }
  }

  // ---------------------------------------------------------------------------
  // The server sync and the refresh agree

  lemma {:induction false} NoneAfter(s: seq<int>, after: int)
    requires forall i :: 0 <= i < |s| ==> s[i] <= after
    ensures CountAfter(s, after) == 0
  {
    if s != [] { NoneAfter(s[..|s| - 1], after); }
  }

  lemma {:induction false} SyncStands(ops: seq<Op>, more: seq<Op>, name: string, kind: Kind)
    requires forall i :: 0 <= i < |more| ==> StatedBy(more[i], name, kind).None?
    ensures LastSync(ops + more, name, kind) == LastSync(ops, name, kind)
  {
    if more == [] {
      assert ops + more == ops;
    } else {
      var n := |more| - 1;
      assert (ops + more)[..|ops| + n] == ops + more[..n];
      SyncStands(ops, more[..n], name, kind);
    }
  }

  /** Storing a governed count and reading it back within the same second changes
      nothing, whatever happened before, and whatever else is recorded or read in
      that second. */
  lemma {:induction false} RefreshAfterSyncChangesNothing(q: Quota, limitHeader: Option<int>, header: int,
                                       ops: seq<Op>, sync: Op, more: seq<Op>, name: string, kind: Kind, later: int)
    requires Ingest(q, limitHeader, Some(header)).1.Some?
    requires sync.SetHeaderCounts? && StatedBy(sync, name, kind) == Ingest(q, limitHeader, Some(header)).1
    requires forall i :: 0 <= i < |more| ==> StatedBy(more[i], name, kind).None?
    requires ClockOrdered(ops + [sync] + more, later)
    requires Unix(later) == Unix(sync.now) > 0
    ensures var q' := Ingest(q, limitHeader, Some(header)).0;
            Refreshed(q', CountsOf(Replay(ops + [sync] + more), name, later).Get(kind)) == q'
  {
    var all := ops + [sync] + more;
    var at := Unix(sync.now);
    CountsAreExact(all, name, kind, later);
    SyncStands(ops + [sync], more, name, kind);
    assert (ops + [sync])[..|ops|] == ops;
    assert LastSync(all, name, kind) == Some(Sync(StatedBy(sync, name, kind).value, at));
    ReplayRefines(all, name, kind, later);
    NoneAfter(Log(all, name, kind), at);
    ClockFacts(later, later);
    GovernedCountNeverWidens(q, limitHeader, header);
  }

  // ---------------------------------------------------------------------------
  // The gate

  // Deadlines in nanoseconds; 0 is the zero time.
  datatype Gate = Gate(throttledUntil: int, apiProbeAfter: int, downloadProbeAfter: int)

  // A Retry-After value after parsing (section 10.2.3 of RFC 9110).
  datatype RetryAfter = Unusable | DelaySeconds(seconds: int) | HttpDate(deadline: int)

  function ParseRetryAfter(value: RetryAfter, now: int): Option<int> {
    match value
    case Unusable => None
    case DelaySeconds(s) => if s <= 0 then None else Some(s * SECOND)
    case HttpDate(deadline) => if deadline - now > 0 then Some(deadline - now) else None
  }

  function ThrottleCooldown(value: RetryAfter, now: int): (cooldown: int)
    ensures 0 < cooldown <= MAX_THROTTLE_COOLDOWN
  {
    match ParseRetryAfter(value, now)
    case None => DEFAULT_THROTTLE_COOLDOWN
    case Some(d) => Min(d, MAX_THROTTLE_COOLDOWN)
  }

  function QuotaCooldown(value: RetryAfter, now: int): int {
    if ParseRetryAfter(value, now).Some? then ThrottleCooldown(value, now) else QUOTA_EXHAUSTED_COOLDOWN
  }

  function Extend(g: Gate, now: int, cooldown: int): Gate {
    g.(throttledUntil := Max(now + cooldown, g.throttledUntil))
  }

  predicate Throttled(g: Gate, now: int) {
    g.throttledUntil != 0 && now < g.throttledUntil
  }

  // One budget's check before a search: the probe deadline it leaves, and whether it passes.
  function BudgetGate(probeAfter: int, now: int, spent: bool): (int, bool) {
    if !spent then (probeAfter, true)
    else if now < probeAfter then (probeAfter, false)
    else (now + BUDGET_EXHAUSTED_PROBE_INTERVAL, true)
  }

  /** One search preflight that nothing interrupts, given which budgets are spent. */
  function SearchGate(g: Gate, now: int, apiSpent: bool, downloadsSpent: bool): (Gate, bool) {
    if Throttled(g, now) then (g, false)
    else
      var (a, apiOk) := BudgetGate(g.apiProbeAfter, now, apiSpent);
      if !apiOk then (g, false)
      else
        var (d, ok) := BudgetGate(g.downloadProbeAfter, now, downloadsSpent);
        (g.(apiProbeAfter := a, downloadProbeAfter := d), ok)
  }

  predicate GrabGate(g: Gate, now: int, downloadsSpent: bool) {
    !Throttled(g, now) && !downloadsSpent
  }

  // ---------------------------------------------------------------------------
  // Callers at the gate, one locked region at a time

  // How far a call has come; all its checks go by the instant it came with.
  datatype Stage =
    | Cleared(now: int, grab: bool)
    | Probing(now: int)
    | Admitted(now: int)
    | Turned

  datatype Desk = Desk(gate: Gate, calls: map<nat, Stage>)

  // The budgets may change arbitrarily between events, so each check carries what
  // it saw of them.
  datatype GateEvent =
    | CheckThrottled(call: nat, now: int, grab: bool)
    | CheckApiBudget(call: nat, spent: bool)
    | CheckDownloadBudget(call: nat, spent: bool)
    | CheckDownloadLimit(call: nat, spent: bool)
    | Refusal(now: int, retryAfter: RetryAfter)
    | QuotaRefusal(now: int, retryAfter: RetryAfter)

  predicate IsAt(d: Desk, c: nat, stage: Stage) {
    c in d.calls && d.calls[c] == stage
  }

  predicate Refuses(e: GateEvent) {
    e.Refusal? || e.QuotaRefusal?
  }

  function CooldownOf(e: GateEvent): int
    requires Refuses(e)
  {
    if e.Refusal? then ThrottleCooldown(e.retryAfter, e.now) else QuotaCooldown(e.retryAfter, e.now)
  }

  predicate Enabled(d: Desk, e: GateEvent) {
    match e
    case CheckThrottled(c, _, _) => c !in d.calls
    case CheckApiBudget(c, _) => c in d.calls && d.calls[c].Cleared? && !d.calls[c].grab
    case CheckDownloadBudget(c, _) => c in d.calls && d.calls[c].Probing?
    case CheckDownloadLimit(c, _) => c in d.calls && d.calls[c].Cleared? && d.calls[c].grab
    case Refusal(_, _) => true
    case QuotaRefusal(_, _) => true
  }

  function Step(d: Desk, e: GateEvent): Desk
    requires Enabled(d, e)
  {
    match e
    case CheckThrottled(c, now, grab) =>
      d.(calls := d.calls[c := if Throttled(d.gate, now) then Turned else Cleared(now, grab)])
    case CheckApiBudget(c, spent) =>
      var now := d.calls[c].now;
      var (probe, ok) := BudgetGate(d.gate.apiProbeAfter, now, spent);
      Desk(d.gate.(apiProbeAfter := probe), d.calls[c := if ok then Probing(now) else Turned])
    case CheckDownloadBudget(c, spent) =>
      var now := d.calls[c].now;
      var (probe, ok) := BudgetGate(d.gate.downloadProbeAfter, now, spent);
      Desk(d.gate.(downloadProbeAfter := probe), d.calls[c := if ok then Admitted(now) else Turned])
    case CheckDownloadLimit(c, spent) =>
      d.(calls := d.calls[c := if spent then Turned else Admitted(d.calls[c].now)])
    case Refusal(now, _) => d.(gate := Extend(d.gate, now, CooldownOf(e)))
    case QuotaRefusal(now, _) => d.(gate := Extend(d.gate, now, CooldownOf(e)))
  }

  // An event its call is not up to changes nothing.
  function Next(d: Desk, e: GateEvent): Desk {
    if Enabled(d, e) then Step(d, e) else d
  }

  function Desks(d: Desk, events: seq<GateEvent>): Desk {
    if events == [] then d else Next(Desks(d, events[..|events| - 1]), events[|events| - 1])
  }

  lemma DesksStep(d: Desk, events: seq<GateEvent>, i: nat)
    requires i < |events|
    ensures Desks(d, events[..i + 1]) == Next(Desks(d, events[..i]), events[i])
  {
    assert events[..i + 1][..i] == events[..i];
  }

  predicate NoEarlier(a: Gate, b: Gate) {
    a.throttledUntil <= b.throttledUntil && a.apiProbeAfter <= b.apiProbeAfter
    && a.downloadProbeAfter <= b.downloadProbeAfter
  }

  /** No deadline of the gate ever moves back, under any events in any order. */
  lemma {:induction false} DeadlinesNeverMoveBack(d: Desk, events: seq<GateEvent>, i: nat, j: nat)
    requires i <= j <= |events|
    ensures NoEarlier(Desks(d, events[..i]).gate, Desks(d, events[..j]).gate)
    decreases j - i
  {
    if i < j {
      DeadlinesNeverMoveBack(d, events, i, j - 1);
      DesksStep(d, events, j - 1);
    }
  }

  // ---------------------------------------------------------------------------
  // Cooldowns

  // The call is turned down, or has not come, or came with an instant past the deadline.
  predicate Clear(d: Desk, c: nat, until: int) {
    c in d.calls && !d.calls[c].Turned? ==> d.calls[c].now >= until
  }

  predicate AdmittedOnlyAfter(d: Desk, c: nat, until: int) {
    c in d.calls && d.calls[c].Admitted? ==> d.calls[c].now >= until
  }

  lemma ClearStays(d: Desk, e: GateEvent, c: nat, until: int)
    requires 0 < until <= d.gate.throttledUntil && Clear(d, c, until)
    ensures until <= Next(d, e).gate.throttledUntil && Clear(Next(d, e), c, until)
  {
  }

  lemma {:induction false} ClearForGood(d: Desk, events: seq<GateEvent>, c: nat, until: int)
    requires 0 < until <= d.gate.throttledUntil && Clear(d, c, until)
    ensures until <= Desks(d, events).gate.throttledUntil && Clear(Desks(d, events), c, until)
  {
    if events != [] {
      ClearForGood(d, events[..|events| - 1], c, until);
      ClearStays(Desks(d, events[..|events| - 1]), events[|events| - 1], c, until);
    }
  }

  /** Nothing that comes to the gate after a refusal is let through before the end
      of that refusal's cooldown, in any run. */
  lemma NothingPassesACooldown(d: Desk, events: seq<GateEvent>, i: nat, c: nat)
    requires i < |events| && Refuses(events[i]) && events[i].now >= 0
    requires c !in Desks(d, events[..i]).calls
    ensures Clear(Desks(d, events), c, events[i].now + CooldownOf(events[i]))
  {
    var until := events[i].now + CooldownOf(events[i]);
    DesksStep(d, events, i);
    ClearForGood(Desks(d, events[..i + 1]), events[i + 1..], c, until);
    DesksCompose(d, events[..i + 1], events[i + 1..]);
    assert events == events[..i + 1] + events[i + 1..];
  }

  lemma {:induction false} DesksCompose(d: Desk, before: seq<GateEvent>, after: seq<GateEvent>)
    ensures Desks(d, before + after) == Desks(Desks(d, before), after)
  {
    if after == [] {
      assert before + after == before;
    } else {
      var n := |after| - 1;
      assert (before + after)[..|before| + n] == before + after[..n];
      DesksCompose(d, before, after[..n]);
    }
  }

  // The checks a call still has before it, none of them over a spent budget.
  function Rest(d: Desk, c: nat): seq<GateEvent>
    requires c in d.calls && !d.calls[c].Turned?
  {
    match d.calls[c]
    case Cleared(_, grab) => if grab then [CheckDownloadLimit(c, false)]
                             else [CheckApiBudget(c, false), CheckDownloadBudget(c, false)]
    case Probing(_) => [CheckDownloadBudget(c, false)]
    case Admitted(_) => []
  }

  lemma RestAdmits(d: Desk, c: nat)
    requires c in d.calls && !d.calls[c].Turned?
    ensures IsAt(Desks(d, Rest(d, c)), c, Admitted(d.calls[c].now))
  {
    var rest := Rest(d, c);
    if |rest| == 2 {
      DesksStep(d, rest, 0);
      assert rest[..0] == [];
      DesksStep(d, rest, 1);
      assert rest[..2] == rest;
    } else if |rest| == 1 {
      assert rest[..0] == [];
    }
  }

  ghost predicate Binds(d: Desk, c: nat, until: int) {
    forall events :: AdmittedOnlyAfter(Desks(d, events), c, until)
  }

  lemma BoundExactlyIfClear(d: Desk, c: nat, until: int)
    requires 0 < until <= d.gate.throttledUntil
    ensures Binds(d, c, until) <==> Clear(d, c, until)
  {
    if Clear(d, c, until) {
      forall events ensures AdmittedOnlyAfter(Desks(d, events), c, until) {
        ClearForGood(d, events, c, until);
      }
    } else {
      RestAdmits(d, c);
      assert !AdmittedOnlyAfter(Desks(d, Rest(d, c)), c, until);
    }
  }

  /** A refusal binds a call in every continuation exactly when the call was not past
      its look at the cooldown already, with an instant inside the new one. */
  lemma CooldownBindsExactlyLaterCalls(d: Desk, e: GateEvent, c: nat)
    requires Refuses(e) && e.now >= 0
    ensures Binds(Next(d, e), c, e.now + CooldownOf(e)) <==> Clear(d, c, e.now + CooldownOf(e))
  {
    assert Next(d, e).calls == d.calls;
    BoundExactlyIfClear(Next(d, e), c, e.now + CooldownOf(e));
  }

  // The instant a Retry-After names, if it lies ahead.
  function NamedInstant(value: RetryAfter, now: int): Option<int> {
    match value
    case Unusable => None
    case DelaySeconds(s) => if s > 0 then Some(now + s * 1_000_000_000) else None
    case HttpDate(t) => if t > now then Some(t) else None
  }

  /** How long a refusal keeps callers out: until the instant it names, but a quarter of an
      hour at most; when it names none, for a minute, or for half an hour when a quota is
      exhausted; and never less than the refusals before it did. */
  lemma RefusalKeepsOutUntil(d: Desk, e: GateEvent, c: nat, now: int, grab: bool)
    requires Refuses(e) && c !in d.calls && now >= 0
    ensures var until := if NamedInstant(e.retryAfter, e.now).Some?
                         then Min(NamedInstant(e.retryAfter, e.now).value, e.now + 900_000_000_000)
                         else e.now + if e.Refusal? then 60_000_000_000 else 1800_000_000_000;
            IsAt(Next(Next(d, e), CheckThrottled(c, now, grab)), c, Turned) <==>
              now < until || now < d.gate.throttledUntil
  {
  }

  // ---------------------------------------------------------------------------
  // Spent budgets

  // The i-th event is a search passing the check of one budget while that is spent.
  predicate ProbesAt(d: Desk, events: seq<GateEvent>, i: nat, forApi: bool)
    requires i < |events|
  {
    var before, e := Desks(d, events[..i]), events[i];
    && (if forApi then e.CheckApiBudget? else e.CheckDownloadBudget?)
    && e.spent && Enabled(before, e) && !Step(before, e).calls[e.call].Turned?
  }

  function CameAt(d: Desk, events: seq<GateEvent>, i: nat, forApi: bool): int
    requires i < |events| && ProbesAt(d, events, i, forApi)
  {
    Desks(d, events[..i]).calls[events[i].call].now
  }

  /** How a search fares with one budget: an unspent one lets it on and keeps its deadline; a
      spent one lets it on from its deadline, and then sets that a quarter of an hour ahead. */
  lemma BudgetCheckGoes(d: Desk, e: GateEvent)
    requires (e.CheckApiBudget? || e.CheckDownloadBudget?) && Enabled(d, e)
    ensures var d' := Step(d, e);
            var now, after := d.calls[e.call].now, d'.calls[e.call];
            var due := if e.CheckApiBudget? then d.gate.apiProbeAfter else d.gate.downloadProbeAfter;
            && (after == Turned <==> e.spent && now < due)
            && (after != Turned ==> after == if e.CheckApiBudget? then Probing(now) else Admitted(now))
            && (!e.spent || now < due ==> d'.gate == d.gate)
            && (e.spent && now >= due ==>
                  && d'.gate.throttledUntil == d.gate.throttledUntil
                  && d'.gate.apiProbeAfter ==
                       (if e.CheckApiBudget? then now + 900_000_000_000 else d.gate.apiProbeAfter)
                  && d'.gate.downloadProbeAfter ==
                       (if e.CheckDownloadBudget? then now + 900_000_000_000 else d.gate.downloadProbeAfter))
            && (forall c :: c in d.calls && c != e.call ==> c in d'.calls && d'.calls[c] == d.calls[c])
  {
  }

  /** Two searches let past the same spent budget came at least a probe interval
      apart, whatever happens in between. */
  lemma SpentBudgetSpacesSearches(d: Desk, events: seq<GateEvent>, i: nat, j: nat, forApi: bool)
    requires i < j < |events| && ProbesAt(d, events, i, forApi) && ProbesAt(d, events, j, forApi)
    ensures CameAt(d, events, j, forApi) >= CameAt(d, events, i, forApi) + BUDGET_EXHAUSTED_PROBE_INTERVAL
  {
    DesksStep(d, events, i);
    DeadlinesNeverMoveBack(d, events, i + 1, j);
  }

  function SearchOf(c: nat, now: int, apiSpent: bool, downloadsSpent: bool): seq<GateEvent> {
    [CheckThrottled(c, now, false), CheckApiBudget(c, apiSpent), CheckDownloadBudget(c, downloadsSpent)]
  }

  /** The three regions one after the other are the uninterrupted preflight. */
  lemma SearchIsItsRegions(d: Desk, c: nat, now: int, apiSpent: bool, downloadsSpent: bool)
    requires c !in d.calls
    ensures var (g, ok) := SearchGate(d.gate, now, apiSpent, downloadsSpent);
            Desks(d, SearchOf(c, now, apiSpent, downloadsSpent)) ==
            Desk(g, d.calls[c := if ok then Admitted(now) else Turned])
  {
    var s := SearchOf(c, now, apiSpent, downloadsSpent);
    assert s[..0] == [] && s[..3] == s;
    DesksStep(d, s, 0);
    DesksStep(d, s, 1);
    DesksStep(d, s, 2);
  }

  lemma GrabIsItsRegions(d: Desk, c: nat, now: int, spent: bool)
    requires c !in d.calls
    ensures Desks(d, [CheckThrottled(c, now, true), CheckDownloadLimit(c, spent)])
            == d.(calls := d.calls[c := if GrabGate(d.gate, now, spent) then Admitted(now) else Turned])
  {
    var s := [CheckThrottled(c, now, true), CheckDownloadLimit(c, spent)];
    assert s[..0] == [] && s[..2] == s;
    DesksStep(d, s, 0);
    DesksStep(d, s, 1);
  }

  /** Exactly when an uninterrupted search is let through. */
  lemma SearchAdmittedExactlyWhenDue(d: Desk, c: nat, now: int, apiSpent: bool, downloadsSpent: bool)
    requires now >= 0 && c !in d.calls
    ensures IsAt(Desks(d, SearchOf(c, now, apiSpent, downloadsSpent)), c, Admitted(now)) <==>
              && d.gate.throttledUntil <= now
              && (apiSpent ==> d.gate.apiProbeAfter <= now)
              && (downloadsSpent ==> d.gate.downloadProbeAfter <= now)
  {
    SearchIsItsRegions(d, c, now, apiSpent, downloadsSpent);
  }

  /** And a grab: no cooldown holds, and downloads are left. */
  lemma GrabAdmittedExactlyWhen(d: Desk, c: nat, now: int, spent: bool)
    requires now >= 0 && c !in d.calls
    ensures IsAt(Desks(d, [CheckThrottled(c, now, true), CheckDownloadLimit(c, spent)]), c, Admitted(now)) <==>
              d.gate.throttledUntil <= now && !spent
  {
    GrabIsItsRegions(d, c, now, spent);
  }

  // Events of searches none of which is let through.
  predicate InVain(d: Desk, polls: seq<GateEvent>) {
    forall i :: 0 <= i < |polls| ==>
      && !Refuses(polls[i])
      && (polls[i].CheckDownloadBudget? && Enabled(Desks(d, polls[..i]), polls[i]) ==>
            IsAt(Next(Desks(d, polls[..i]), polls[i]), polls[i].call, Turned))
  }

  // No search is between its two budget checks.
  predicate NobodyProbing(d: Desk) {
    forall c :: c in d.calls ==> !d.calls[c].Probing?
  }

  predicate Holds(d: Desk, c: nat, probe: int) {
    c in d.calls && d.calls[c].Probing? && probe <= d.calls[c].now + BUDGET_EXHAUSTED_PROBE_INTERVAL
  }

  // The API probe is where it was, or was burnt by a search that the download probe
  // turned down or is about to look at.
  ghost predicate BurntInVain(g: Gate, d: Desk) {
    && d.gate.throttledUntil == g.throttledUntil
    && d.gate.downloadProbeAfter == g.downloadProbeAfter
    && (d.gate.apiProbeAfter <= Max(g.apiProbeAfter, g.downloadProbeAfter + BUDGET_EXHAUSTED_PROBE_INTERVAL)
        || exists c :: Holds(d, c, d.gate.apiProbeAfter))
  }

  lemma {:induction false} PollBurns(g: Gate, d: Desk, e: GateEvent)
    requires BurntInVain(g, d) && !Refuses(e)
    requires e.CheckDownloadBudget? && Enabled(d, e) ==> IsAt(Next(d, e), e.call, Turned)
    ensures BurntInVain(g, Next(d, e))
  {
    var d' := Next(d, e);
    if c :| Holds(d, c, d.gate.apiProbeAfter) {
      if e.CheckApiBudget? && Enabled(d, e) && d'.gate != d.gate {
        assert Holds(d', e.call, d'.gate.apiProbeAfter);
      } else if !(e.CheckDownloadBudget? && e.call == c) {
        assert Holds(d', c, d'.gate.apiProbeAfter);
      }
    } else if e.CheckApiBudget? && Enabled(d, e) && d'.gate != d.gate {
      assert Holds(d', e.call, d'.gate.apiProbeAfter);
    }
  }

  lemma {:induction false} PollsBurn(d: Desk, polls: seq<GateEvent>)
    requires InVain(d, polls)
    ensures BurntInVain(d.gate, Desks(d, polls))
  {
    if polls != [] {
      var n := |polls| - 1;
      assert forall i :: 0 <= i < n ==> polls[..n][..i] == polls[..i];
      PollsBurn(d, polls[..n]);
      PollBurns(d.gate, Desks(d, polls[..n]), polls[n]);
    }
  }

  /** The gate never seals itself. A search that is turned down may burn the API
      probe, yet however often the gate was tried in vain, one interval past the
      download probe it lets the next search through. */
  lemma {:induction false} PollingNeverSealsTheGate(d: Desk, polls: seq<GateEvent>, c: nat, now: int, apiSpent: bool,
                                                    downloadsSpent: bool)
    requires InVain(d, polls) && NobodyProbing(Desks(d, polls)) && c !in Desks(d, polls).calls
    requires now >= 0 && now >= d.gate.throttledUntil && now >= d.gate.apiProbeAfter
    requires now >= d.gate.downloadProbeAfter + BUDGET_EXHAUSTED_PROBE_INTERVAL
    ensures IsAt(Desks(Desks(d, polls), SearchOf(c, now, apiSpent, downloadsSpent)), c, Admitted(now))
  {
    PollsBurn(d, polls);
    SearchAdmittedExactlyWhenDue(Desks(d, polls), c, now, apiSpent, downloadsSpent);
  }

  // ---------------------------------------------------------------------------
  // The client

  // The usage headers of one response; a missing or malformed one is None. Each
  // remaining count has a preferred header and a fallback.
  datatype UsageHeaders = UsageHeaders(
    apiLimit: Option<int>, downloadLimit: Option<int>,
    rateRemaining: Option<int>, xApiRemaining: Option<int>,
    dnzbRemaining: Option<int>, xGrabRemaining: Option<int>)

  function FirstHeader(preferred: Option<int>, fallback: Option<int>): Option<int> {
    if preferred.Some? then preferred else fallback
  }

  /** One budget after a response: its limits, and what the preferred remaining header says
      or, when that is missing, the other one. */
  ghost predicate BudgetIsRead(q: Quota, limit: Option<int>, preferred: Option<int>, fallback: Option<int>, q': Quota) {
    && LimitsAreRead(q, limit, q')
    && (preferred.Some? ==> RemainingIsRead(q, preferred.value, q'))
    && (preferred.None? && fallback.Some? ==> RemainingIsRead(q, fallback.value, q'))
    && (preferred.None? && fallback.None? ==> q'.used == q.used && q'.remaining == q.remaining)
  }

  lemma BudgetsAreRead(q: Quota, limit: Option<int>, preferred: Option<int>, fallback: Option<int>)
    ensures BudgetIsRead(q, limit, preferred, fallback, Ingest(q, limit, FirstHeader(preferred, fallback)).0)
  {
    HeadersAreRead(q, limit, FirstHeader(preferred, fallback));
  }

  function ApiIngest(q: Quota, h: UsageHeaders): (Quota, Option<int>) {
    Ingest(q, h.apiLimit, FirstHeader(h.rateRemaining, h.xApiRemaining))
  }

  function DownloadIngest(q: Quota, h: UsageHeaders): (Quota, Option<int>) {
    Ingest(q, h.downloadLimit, FirstHeader(h.dnzbRemaining, h.xGrabRemaining))
  }

  // What a response stores as a sync: the counts its headers govern.
  function SyncOf(name: string, api: Quota, downloads: Quota, h: UsageHeaders, clock: int): Op {
    SetHeaderCounts(name, ApiIngest(api, h).1, DownloadIngest(downloads, h).1, clock)
  }

  /** The steps of one budget: the limit it enforces, and the count a governing header stores. */
  method IngestHeaders(q: Quota, limit: Option<int>, remaining: Option<int>) returns (q': Quota, stored: Option<int>)
    ensures (q', stored) == Ingest(q, limit, remaining)
  {
    q', stored := q, None;
    if limit.Some? {
      q' := q'.(advertised := limit.value);
    }
    q' := q'.(limit := EffectiveLimit(q'.configured, q'.advertised));
    if remaining.Some? {
      var r := ReconcileRemaining(q'.used, q'.remaining, q'.limit, q'.advertised, remaining.value);
      q' := q'.(used := r.used, remaining := r.remaining);
      if r.governed {
        stored := Some(q'.used);
      }
    }
  }

  class Core {
    const name: string
    const usage: Manager?
    var api: Quota
    var downloads: Quota
    var gate: Gate

    ghost predicate Valid()
      reads this, usage
    {
      && (usage != null ==> usage.Valid())
      && Enforced(api)
      && Enforced(downloads)
    }

    ghost predicate Metered()
    {
      usage != null && name != ""
    }

    constructor (name: string, apiLimit: int, downloadLimit: int, usage: Manager?, clock: int)
      requires usage != null ==> usage.Valid()
      modifies usage
      ensures Valid() && this.name == name && this.usage == usage && gate == Gate(0, 0, 0)
      ensures Metered() ==>
                && usage.history == old(if usage == null then [] else usage.history) + [ReadCounts(name, clock)]
                && api == Refreshed(NewQuota(apiLimit),
                                    CountsOf(old(if usage == null then map[] else usage.data), name, clock).api)
                && downloads ==
                     Refreshed(NewQuota(downloadLimit),
                               CountsOf(old(if usage == null then map[] else usage.data), name, clock).downloads)
      ensures !Metered() ==> api == NewQuota(apiLimit) && downloads == NewQuota(downloadLimit)
    {
      this.name := name;
      this.usage := usage;
      api := NewQuota(apiLimit);
      downloads := NewQuota(downloadLimit);
      gate := Gate(0, 0, 0);
      new;
      if usage != null && name != "" {
        var counts := usage.Counts(name, clock);
        api := api.(used := counts.api);
        downloads := downloads.(used := counts.downloads);
        if apiLimit > 0 {
          api := api.(remaining := ClampRemaining(apiLimit - api.used));
        }
        if downloadLimit > 0 {
          downloads := downloads.(remaining := ClampRemaining(downloadLimit - downloads.used));
        }
      }
    }

    method RefreshUsage(clock: int)
      requires Valid()
      modifies this, usage
      ensures Valid() && gate == old(gate)
      ensures !Metered() ==> api == old(api) && downloads == old(downloads)
      ensures Metered() ==>
                && usage.history == old(usage.history) + [ReadCounts(name, clock)]
                && api == Refreshed(old(api), CountsOf(old(usage.data), name, clock).api)
                && downloads == Refreshed(old(downloads), CountsOf(old(usage.data), name, clock).downloads)
      // the mirror shows the true counts
      ensures Metered() && ClockOrdered(old(usage.history), clock) ==>
                && api.used == TrueCount(old(usage.history), name, Api, clock)
                && downloads.used == TrueCount(old(usage.history), name, Downloads, clock)
    {
      if usage == null || name == "" {
        return;
      }
      var counts := usage.Counts(name, clock);
      assert counts.api == counts.Get(Api) && counts.downloads == counts.Get(Downloads);
      api := api.(used := counts.api);
      downloads := downloads.(used := counts.downloads);
      if api.limit > 0 {
        api := api.(remaining := ClampRemaining(api.limit - api.used));
      }
      if downloads.limit > 0 {
        downloads := downloads.(remaining := ClampRemaining(downloads.limit - downloads.used));
      }
    }

    method ApplyHeaderUsage(h: UsageHeaders, clock: int)
      requires Valid()
      modifies this, usage
      ensures Valid() && gate == old(gate)
      ensures api == ApiIngest(old(api), h).0 && downloads == DownloadIngest(old(downloads), h).0
      ensures BudgetIsRead(old(api), h.apiLimit, h.rateRemaining, h.xApiRemaining, api)
      ensures BudgetIsRead(old(downloads), h.downloadLimit, h.dnzbRemaining, h.xGrabRemaining, downloads)
      ensures Metered() ==> usage.history == old(usage.history) + [SyncOf(name, old(api), old(downloads), h, clock)]
    {
      BudgetsAreRead(api, h.apiLimit, h.rateRemaining, h.xApiRemaining);
      BudgetsAreRead(downloads, h.downloadLimit, h.dnzbRemaining, h.xGrabRemaining);
      var apiUsed, downloadsUsed;
      api, apiUsed := IngestHeaders(api, h.apiLimit, FirstHeader(h.rateRemaining, h.xApiRemaining));
      downloads, downloadsUsed := IngestHeaders(downloads, h.downloadLimit,
                                                FirstHeader(h.dnzbRemaining, h.xGrabRemaining));
      if usage != null && name != "" {
        usage.SetHeaderCounts(name, apiUsed, downloadsUsed, clock);
      }
    }

    /** One search: an API hit. */
    method RecordAPIHit(h: UsageHeaders, clock: int, clock': int)
      requires Valid()
      modifies this, usage
      ensures Valid() && gate == old(gate)
      ensures api == ApiIngest(Spend(old(api)), h).0 && downloads == DownloadIngest(old(downloads), h).0
      ensures Metered() ==>
                usage.history == old(usage.history) + [RecordHits(name, 1, 0, clock)]
                                 + [SyncOf(name, Spend(old(api)), old(downloads), h, clock')]
    {
      api := Spend(api);
      RecordWith(1, 0, clock);
      ApplyHeaderUsage(h, clock');
    }

    /** One NZB download: an API hit and a download. */
    method RecordGrab(h: UsageHeaders, clock: int, clock': int)
      requires Valid()
      modifies this, usage
      ensures Valid() && gate == old(gate)
      ensures api == ApiIngest(Spend(old(api)), h).0 && downloads == DownloadIngest(Spend(old(downloads)), h).0
      ensures Metered() ==>
                usage.history == old(usage.history) + [RecordHits(name, 1, 1, clock)]
                                 + [SyncOf(name, Spend(old(api)), Spend(old(downloads)), h, clock')]
    {
      api := Spend(api);
      downloads := Spend(downloads);
      RecordWith(1, 1, clock);
      ApplyHeaderUsage(h, clock');
    }

    method RecordWith(apiHits: int, grabs: int, clock: int)
      requires Valid()
      modifies usage
      ensures Valid() && (Metered() ==> usage.history == old(usage.history) + [RecordHits(name, apiHits, grabs, clock)])
    {
      if usage != null && name != "" {
        usage.RecordHits(name, apiHits, grabs, clock);
      }
    }

    method CheckThrottled(now: int) returns (ok: bool)
      ensures ok == !Throttled(gate, now)
    {
      ok := gate.throttledUntil == 0 || now >= gate.throttledUntil;
    }

    /** The full search preflight when nothing comes between its regions, and what it
        leaves of the gate. */
    method CheckSearchAllowed(now: int, clock: int) returns (ok: bool)
      requires Valid()
      modifies this, usage
      ensures Valid()
      ensures !Metered() || old(Throttled(gate, now)) ==> api == old(api) && downloads == old(downloads)
      ensures !old(Throttled(gate, now)) && Metered() ==>
                && usage.history == old(usage.history) + [ReadCounts(name, clock)]
                && api == Refreshed(old(api), CountsOf(old(usage.data), name, clock).api)
                && downloads == Refreshed(old(downloads), CountsOf(old(usage.data), name, clock).downloads)
      ensures (gate, ok) == SearchGate(old(gate), now, Spent(api), Spent(downloads))
    {
      ok := CheckThrottled(now);
      if !ok {
        return;
      }
      RefreshUsage(clock);
      ok := CheckBudgetForSearch(true, now);
      if ok {
        ok := CheckBudgetForSearch(false, now);
      }
    }

    method CheckBudgetForSearch(forApi: bool, now: int) returns (ok: bool)
      requires Valid()
      modifies `gate
      ensures Valid()
      ensures forApi ==> var (probe, pass) := BudgetGate(old(gate).apiProbeAfter, now, Spent(api));
                         ok == pass && gate == old(gate).(apiProbeAfter := probe)
      ensures !forApi ==> var (probe, pass) := BudgetGate(old(gate).downloadProbeAfter, now, Spent(downloads));
                          ok == pass && gate == old(gate).(downloadProbeAfter := probe)
    {
      var q := if forApi then api else downloads;
      if q.limit <= 0 || q.remaining > 0 {
        return true;
      }
      if !(now < (if forApi then gate.apiProbeAfter else gate.downloadProbeAfter)) {
        if forApi {
          gate := gate.(apiProbeAfter := now + BUDGET_EXHAUSTED_PROBE_INTERVAL);
        } else {
          gate := gate.(downloadProbeAfter := now + BUDGET_EXHAUSTED_PROBE_INTERVAL);
        }
        return true;
      }
      return false;
    }

    method CheckGrabAllowed(now: int, clock: int) returns (ok: bool)
      requires Valid()
      modifies this, usage
      ensures Valid() && gate == old(gate)
      ensures !Metered() || old(Throttled(gate, now)) ==> api == old(api) && downloads == old(downloads)
      ensures !old(Throttled(gate, now)) && Metered() ==>
                && usage.history == old(usage.history) + [ReadCounts(name, clock)]
                && api == Refreshed(old(api), CountsOf(old(usage.data), name, clock).api)
                && downloads == Refreshed(old(downloads), CountsOf(old(usage.data), name, clock).downloads)
      ensures ok == GrabGate(gate, now, Spent(downloads))
    {
      ok := CheckThrottled(now);
      if !ok {
        return;
      }
      RefreshUsage(clock);
      return !(downloads.limit > 0 && downloads.remaining <= 0);
    }

    method ExtendCooldown(now: int, cooldown: int) returns (left: int)
      modifies `gate
      ensures gate == Extend(old(gate), now, cooldown) && left == gate.throttledUntil - now
    {
      var until := now + cooldown;
      if until > gate.throttledUntil {
        gate := gate.(throttledUntil := until);
      }
      left := gate.throttledUntil - now;
    }

    method NoteThrottled(retryAfter: RetryAfter, now: int) returns (left: int)
      modifies `gate
      ensures gate == Extend(old(gate), now, ThrottleCooldown(retryAfter, now)) && left == gate.throttledUntil - now
    {
      var cooldown := DEFAULT_THROTTLE_COOLDOWN;
      var d := ParseRetryAfter(retryAfter, now);
      if d.Some? {
        cooldown := d.value;
      }
      if cooldown > MAX_THROTTLE_COOLDOWN {
        cooldown := MAX_THROTTLE_COOLDOWN;
      }
      if cooldown <= 0 {
        cooldown := DEFAULT_THROTTLE_COOLDOWN;
      }
      left := ExtendCooldown(now, cooldown);
    }

    method NoteQuotaExhausted(retryAfter: RetryAfter, now: int) returns (left: int)
      modifies `gate
      ensures gate == Extend(old(gate), now, QuotaCooldown(retryAfter, now)) && left == gate.throttledUntil - now
    {
      if ParseRetryAfter(retryAfter, now).Some? {
        left := NoteThrottled(retryAfter, now);
      } else {
        left := ExtendCooldown(now, QUOTA_EXHAUSTED_COOLDOWN);
      }
    }
  }
}
