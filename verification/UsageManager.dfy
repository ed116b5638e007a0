/** Usage accounting: per indexer, a ring of recent request times stands in for
    the full request log, and a fresh server count overrides it. */
module UsageManager {
  import opened Basics

  // Clock readings are nanoseconds; stored hit times are whole unix seconds.
  const SECOND: int := 1_000_000_000
  const USAGE_WINDOW: int := 24 * 3600 * SECOND
  const MAX_HIT_TIMES: nat := 10000

  function Unix(now: int): int {
    now / SECOND
  }

  function Cutoff(now: int): int {
    Unix(now - USAGE_WINDOW)
  }

  // One of the two things an indexer meters.
  datatype Kind = Api | Downloads

  datatype Meter = Meter(times: seq<int>, headerUsed: int, syncedAt: int, allTime: int)

  datatype UsageData = UsageData(api: Meter, downloads: Meter) {
    function Get(kind: Kind): Meter {
      match kind
      case Api => api
      case Downloads => downloads
    }
  }

  datatype UsageCounts = UsageCounts(api: int, downloads: int, allTimeApi: int, allTimeDownloads: int) {
    function Get(kind: Kind): int {
      match kind
      case Api => api
      case Downloads => downloads
    }

    function AllTime(kind: Kind): int {
      match kind
      case Api => allTimeApi
      case Downloads => allTimeDownloads
    }
  }

  const NO_HITS := Meter([], 0, 0, 0)
  const NO_USAGE := UsageData(NO_HITS, NO_HITS)

  function Entry(data: map<string, UsageData>, name: string): UsageData {
    if name in data then data[name] else NO_USAGE
  }

  // ---------------------------------------------------------------------------
  // What each operation does to one meter

  function DropOld(times: seq<int>, cutoff: int): seq<int> {
    if times == [] then []
    else
      var n := |times| - 1;
      DropOld(times[..n], cutoff) + if times[n] >= cutoff then [times[n]] else []
  }

  function Cap(times: seq<int>): seq<int> {
    if |times| > MAX_HIT_TIMES then times[|times| - MAX_HIT_TIMES..] else times
  }

  function Prune(times: seq<int>, cutoff: int): seq<int> {
    Cap(DropOld(times, cutoff))
  }

  function CountAfter(times: seq<int>, after: int): nat {
    if times == [] then 0
    else
      var n := |times| - 1;
      CountAfter(times[..n], after) + if times[n] > after then 1 else 0
  }

  function Positive(n: int): nat {
    if n > 0 then n else 0
  }

  function Repeat(t: int, n: nat): (s: seq<int>)
    ensures |s| == n && forall i :: 0 <= i < n ==> s[i] == t
  {
    seq(n, _ => t)
  }

  function RecordOn(m: Meter, hits: int, now: int): Meter {
    m.(times := Cap(Prune(m.times, Cutoff(now)) + Repeat(Unix(now), Positive(hits))),
       allTime := m.allTime + Positive(hits))
  }

  function SyncOn(m: Meter, used: Option<int>, now: int): Meter {
    match used
    case None => m
    case Some(u) => m.(headerUsed := u, syncedAt := Unix(now))
  }

  function PruneOn(m: Meter, now: int): Meter {
    m.(times := Prune(m.times, Cutoff(now)))
  }

  function CountOn(m: Meter, now: int): int {
    var times := Prune(m.times, Cutoff(now));
    if m.syncedAt > 0 && m.syncedAt >= Cutoff(now)
    then m.headerUsed + CountAfter(times, m.syncedAt)
    else |times|
  }

  // ---------------------------------------------------------------------------
  // What each operation does to the whole table

  datatype Op =
    | RecordHits(name: string, apiHits: int, downloads: int, now: int)
    | SetHeaderCounts(name: string, apiUsed: Option<int>, downloadsUsed: Option<int>, now: int)
    | ReadCounts(name: string, now: int)

  predicate Ignored(op: Op) {
    match op
    case RecordHits(name, a, d, _) => name == "" || (a <= 0 && d <= 0)
    case SetHeaderCounts(name, a, d, _) => name == "" || (a.None? && d.None?)
    case ReadCounts(_, _) => false
  }

  function RecordBoth(e: UsageData, apiHits: int, downloads: int, now: int): UsageData {
    UsageData(RecordOn(e.api, apiHits, now), RecordOn(e.downloads, downloads, now))
  }

  function Apply(data: map<string, UsageData>, op: Op): map<string, UsageData> {
    if Ignored(op) then data
    else
      var e := Entry(data, op.name);
      match op
      case RecordHits(name, a, d, now) =>
        data[name := RecordBoth(e, a, d, now)]
      case SetHeaderCounts(name, a, d, now) =>
        data[name := UsageData(SyncOn(e.api, a, now), SyncOn(e.downloads, d, now))]
      case ReadCounts(name, now) =>
        if name in data then data[name := UsageData(PruneOn(e.api, now), PruneOn(e.downloads, now))] else data
  }

  function CountsOf(data: map<string, UsageData>, name: string, now: int): UsageCounts {
    var e := Entry(data, name);
    UsageCounts(CountOn(e.api, now), CountOn(e.downloads, now), e.api.allTime, e.downloads.allTime)
  }

  // ---------------------------------------------------------------------------
  // The loops of the manager

  method PruneHitTimes(times: seq<int>, cutoff: int) returns (kept: seq<int>)
    ensures kept == Prune(times, cutoff)
  {
    kept := [];
    for i := 0 to |times|
      invariant kept == DropOld(times[..i], cutoff)
    {
      assert times[..i + 1][..i] == times[..i];
      if times[i] >= cutoff {
        kept := kept + [times[i]];
      }
    }
    assert times[..|times|] == times;
    ghost var recent := kept;
    kept := CapHitTimes(kept);
    LongestSuffix(recent, kept);
  }

  // Only the cap of a sequence is a suffix of it as long as the cap allows.
  lemma LongestSuffix(times: seq<int>, capped: seq<int>)
    requires |capped| == Min(|times|, MAX_HIT_TIMES) && times == times[..|times| - |capped|] + capped
    ensures capped == Cap(times)
  {
    assert times[|times| - |capped|..] == capped;
  }

  /** Keeps the last entries, as many as fit; none that is cut off is newer than one
      that stays, when they came in order. */
  method CapHitTimes(times: seq<int>) returns (capped: seq<int>)
    ensures |capped| == Min(|times|, MAX_HIT_TIMES)
    ensures times == times[..|times| - |capped|] + capped
    ensures Ordered(times) ==>
              forall i, j :: 0 <= i < |times| - |capped| && 0 <= j < |capped| ==> times[i] <= capped[j]
  {
    capped := times;
    if |capped| > MAX_HIT_TIMES {
      capped := capped[|capped| - MAX_HIT_TIMES..];
    }
  }

  method CountHitsAfter(times: seq<int>, after: int) returns (n: nat)
    ensures n == CountAfter(times, after)
  {
    n := 0;
    for i := 0 to |times|
      invariant n == CountAfter(times[..i], after)
    {
      assert times[..i + 1][..i] == times[..i];
      if times[i] > after {
        n := n + 1;
      }
    }
    assert times[..|times|] == times;
  }

  method AppendHits(times: seq<int>, t: int, hits: int) returns (longer: seq<int>)
    ensures longer == times + Repeat(t, Positive(hits))
  {
    longer := times;
    var i := 0;
    while i < hits
      invariant 0 <= i <= Positive(hits)
      invariant longer == times + Repeat(t, i)
    {
      longer := longer + [t];
      i := i + 1;
    }
  }

  // ---------------------------------------------------------------------------
  // The reference: what the history of a table says, with nothing thrown away

  function Replay(ops: seq<Op>): map<string, UsageData> {
    if ops == [] then map[] else Apply(Replay(ops[..|ops| - 1]), ops[|ops| - 1])
  }

  function HitsIn(op: Op, name: string, kind: Kind): nat {
    if op.RecordHits? && op.name == name && !Ignored(op)
    then Positive(if kind == Api then op.apiHits else op.downloads)
    else 0
  }

  /** The full request log of one meter: one entry per request ever recorded. */
  function Log(ops: seq<Op>, name: string, kind: Kind): seq<int> {
    if ops == [] then []
    else
      var last := ops[|ops| - 1];
      Log(ops[..|ops| - 1], name, kind) + Repeat(Unix(last.now), HitsIn(last, name, kind))
  }

  function StatedBy(op: Op, name: string, kind: Kind): Option<int> {
    if op.SetHeaderCounts? && op.name == name && name != ""
    then (if kind == Api then op.apiUsed else op.downloadsUsed)
    else None
  }

  datatype Sync = Sync(used: int, at: int)

  /** The server count last stated for one meter, and when. */
  function LastSync(ops: seq<Op>, name: string, kind: Kind): Option<Sync> {
    if ops == [] then None
    else
      var last := ops[|ops| - 1];
      match StatedBy(last, name, kind)
      case Some(used) => Some(Sync(used, Unix(last.now)))
      case None => LastSync(ops[..|ops| - 1], name, kind)
  }

  // How many entries of a log are at `from` or later.
  function HitsSince(log: seq<int>, from: int): nat {
    CountAfter(log, from - 1)
  }

  /** The count the documentation promises, read off the full history. */
  function TrueCount(ops: seq<Op>, name: string, kind: Kind, now: int): int {
    var log := Log(ops, name, kind);
    match LastSync(ops, name, kind)
    case Some(Sync(used, at)) =>
      if at > 0 && at >= Cutoff(now)
      then used + Min(MAX_HIT_TIMES, HitsSince(log, at + 1))
      else Min(MAX_HIT_TIMES, HitsSince(log, Cutoff(now)))
    case None => Min(MAX_HIT_TIMES, HitsSince(log, Cutoff(now)))
  }

  ghost predicate ClockOrdered(ops: seq<Op>, now: int) {
    && (forall i, j :: 0 <= i < j < |ops| ==> ops[i].now <= ops[j].now)
    && (forall i :: 0 <= i < |ops| ==> ops[i].now <= now)
  }

  /** What one more operation adds to the history: as many entries of its second as it records
      requests, and the server count it states. A nameless indexer leaves nothing. */
  lemma EachRequestIsLogged(ops: seq<Op>, op: Op, name: string, kind: Kind)
    ensures var before, after := Log(ops, name, kind), Log(ops + [op], name, kind);
            var second := op.now / 1_000_000_000;
            var mine := name != "" && op.name == name;
            && before <= after
            && (forall i :: |before| <= i < |after| ==> after[i] == second)
            && |after| == |before| + (if !mine || !op.RecordHits? then 0
                                      else Max(0, if kind == Api then op.apiHits else op.downloads))
            && LastSync(ops + [op], name, kind) ==
                 if mine && op.SetHeaderCounts? && kind == Api && op.apiUsed.Some? then
                   Some(Sync(op.apiUsed.value, second))
                 else if mine && op.SetHeaderCounts? && kind == Downloads && op.downloadsUsed.Some? then
                   Some(Sync(op.downloadsUsed.value, second))
                 else LastSync(ops, name, kind)
  {
    assert (ops + [op])[..|ops|] == ops;
  }

  /** The window is a day, give or take the second a stored time is rounded to. */
  lemma WindowIsADay(hit: int, now: int)
    ensures now - hit <= 86_400_000_000_000 ==> Unix(hit) >= Cutoff(now)
    ensures now - hit >= 86_401_000_000_000 ==> Unix(hit) < Cutoff(now)
  {
  }

  // ---------------------------------------------------------------------------
  // The ring is a suffix of the log

  ghost predicate Ordered(s: seq<int>) {
    forall i, j :: 0 <= i < j < |s| ==> s[i] <= s[j]
  }

  /** Where in the log the ring kept at cutoff c begins. */
  function RingStart(log: seq<int>, c: int): int {
    Max(|log| - HitsSince(log, c), |log| - MAX_HIT_TIMES)
  }

  lemma {:induction false} CountBounds(s: seq<int>, after: int)
    ensures CountAfter(s, after) <= |s|
  {
    if s != [] { CountBounds(s[..|s| - 1], after); }
  }

  /** In an ordered log the entries after an instant are exactly the last ones. */
  lemma {:induction false} CountIsSuffix(s: seq<int>, after: int)
    requires Ordered(s)
    ensures CountAfter(s, after) <= |s|
    ensures forall i :: 0 <= i < |s| - CountAfter(s, after) ==> s[i] <= after
    ensures forall i :: |s| - CountAfter(s, after) <= i < |s| ==> s[i] > after
  {
    if s != [] {
      CountIsSuffix(s[..|s| - 1], after);
      CountBounds(s[..|s| - 1], after);
    }
  }

  /** A count is fixed by where the entries after the instant begin. */
  lemma {:induction false} CountFromSplit(s: seq<int>, after: int, k: nat)
    requires k <= |s|
    requires forall i :: 0 <= i < k ==> s[i] <= after
    requires forall i :: k <= i < |s| ==> s[i] > after
    ensures CountAfter(s, after) == |s| - k
  {
    if s != [] {
      var n := |s| - 1;
      if k == |s| {
        CountFromSplit(s[..n], after, n);
      } else {
        CountFromSplit(s[..n], after, k);
      }
    }
  }

  lemma SuffixOneMore(s: seq<int>, k: nat)
    requires k < |s|
    ensures s[..|s| - 1][k..] + [s[|s| - 1]] == s[k..]
  {
  }

  lemma {:induction false} DropOldIsSuffix(s: seq<int>, cutoff: int, k: nat)
    requires k <= |s|
    requires forall i :: 0 <= i < k ==> s[i] < cutoff
    requires forall i :: k <= i < |s| ==> s[i] >= cutoff
    ensures DropOld(s, cutoff) == s[k..]
  {
    if s != [] {
      var n := |s| - 1;
      if k == |s| {
        DropOldIsSuffix(s[..n], cutoff, n);
      } else {
        DropOldIsSuffix(s[..n], cutoff, k);
        SuffixOneMore(s, k);
      }
    }
  }

  lemma {:induction false} CountAntitone(s: seq<int>, early: int, late: int)
    requires early <= late
    ensures CountAfter(s, late) <= CountAfter(s, early)
  {
    if s != [] { CountAntitone(s[..|s| - 1], early, late); }
  }

  lemma StartInRange(log: seq<int>, c: int)
    ensures 0 <= RingStart(log, c) <= |log|
  {
    CountBounds(log, c - 1);
  }

  /** Where the entries after an instant begin in what is left of a log. */
  lemma SplitOfSuffix(log: seq<int>, start: nat, after: int) returns (d: nat)
    requires Ordered(log) && start <= |log|
    ensures d == Max(|log| - CountAfter(log, after) - start, 0) && d <= |log| - start
    ensures forall i :: 0 <= i < d ==> log[start..][i] <= after
    ensures forall i :: d <= i < |log| - start ==> log[start..][i] > after
  {
    CountIsSuffix(log, after);
    d := Max(|log| - CountAfter(log, after) - start, 0);
  }

  /** Pruning a ring kept at an earlier cutoff gives the ring of the whole log. */
  lemma PruneRing(log: seq<int>, c: int, cutoff: int)
    requires Ordered(log) && c <= cutoff
    requires 0 <= RingStart(log, c) <= |log|
    ensures 0 <= RingStart(log, cutoff) <= |log|
    ensures Prune(log[RingStart(log, c)..], cutoff) == log[RingStart(log, cutoff)..]
  {
    StartInRange(log, cutoff);
    var start := RingStart(log, c);
    var d := SplitOfSuffix(log, start, cutoff - 1);
    DropOldIsSuffix(log[start..], cutoff, d);
    CapOfSuffix(log, start + d);
    LaterRingStart(log, c, cutoff, d);
  }

  lemma LaterRingStart(log: seq<int>, c: int, cutoff: int, d: nat)
    requires c <= cutoff && d == Max(|log| - HitsSince(log, cutoff) - RingStart(log, c), 0)
    ensures Max(RingStart(log, c) + d, |log| - MAX_HIT_TIMES) == RingStart(log, cutoff)
  {
    CountAntitone(log, c - 1, cutoff - 1);
  }

  lemma CapOfSuffix(log: seq<int>, start: nat)
    requires start <= |log|
    ensures 0 <= Max(start, |log| - MAX_HIT_TIMES) <= |log|
    ensures Cap(log[start..]) == log[Max(start, |log| - MAX_HIT_TIMES)..]
  {
    var tail := log[start..];
    if |tail| > MAX_HIT_TIMES {
      assert tail[|tail| - MAX_HIT_TIMES..] == log[|log| - MAX_HIT_TIMES..];
    }
  }

  lemma {:induction false} CountAppended(log: seq<int>, more: seq<int>, after: int)
    requires forall i :: 0 <= i < |more| ==> more[i] > after
    ensures CountAfter(log + more, after) == CountAfter(log, after) + |more|
  {
    if more == [] {
      assert log + more == log;
    } else {
      var n := |more| - 1;
      CountAppended(log, more[..n], after);
      assert (log + more)[..|log| + n] == log + more[..n];
    }
  }

  /** Recording onto the ring gives the ring of the longer log. */
  lemma RecordRing(log: seq<int>, c: int, more: seq<int>)
    requires Ordered(log)
    requires forall i :: 0 <= i < |more| ==> more[i] >= c
    requires 0 <= RingStart(log, c) <= |log|
    ensures 0 <= RingStart(log + more, c) <= |log + more|
    ensures Cap(log[RingStart(log, c)..] + more) == (log + more)[RingStart(log + more, c)..]
  {
    CountAppended(log, more, c - 1);
    CountBounds(log, c - 1);
    var start := RingStart(log, c);
    assert log[start..] + more == (log + more)[start..];
    CapOfSuffix(log + more, start);
  }

  lemma RingCounts(log: seq<int>, c: int, at: int)
    requires Ordered(log) && 0 <= RingStart(log, c) <= |log|
    ensures |log[RingStart(log, c)..]| == Min(MAX_HIT_TIMES, HitsSince(log, c))
    ensures c <= at ==> CountAfter(log[RingStart(log, c)..], at) == Min(MAX_HIT_TIMES, HitsSince(log, at + 1))
  {
    CountBounds(log, c - 1);
    if c <= at {
      CountAntitone(log, c - 1, at);
      var start := RingStart(log, c);
      var d := SplitOfSuffix(log, start, at);
      CountFromSplit(log[start..], at, d);
    }
  }

  // ---------------------------------------------------------------------------
  // Refinement

  ghost predicate RingOf(times: seq<int>, log: seq<int>, c: int) {
    0 <= RingStart(log, c) <= |log| && times == log[RingStart(log, c)..]
  }

  /** A meter, with its pruned ring, stands for a log and a last sync. */
  ghost predicate Represents(m: Meter, log: seq<int>, sync: Option<Sync>, now: int) {
    && Ordered(log)
    && (forall i :: 0 <= i < |log| ==> log[i] <= Unix(now))
    && (exists c :: c <= Cutoff(now) && RingOf(m.times, log, c))
    && m.allTime == |log|
    && Sync(m.headerUsed, m.syncedAt) == (if sync.Some? then sync.value else Sync(0, 0))
  }

  lemma ClockFacts(earlier: int, now: int)
    requires earlier <= now
    ensures Unix(earlier) <= Unix(now)
    ensures Cutoff(earlier) <= Cutoff(now) <= Unix(now)
  {
  }

  lemma LogGrows(log: seq<int>, more: seq<int>, t: int)
    requires Ordered(log) && (forall i :: 0 <= i < |log| ==> log[i] <= t)
    requires forall i :: 0 <= i < |more| ==> more[i] == t
    ensures Ordered(log + more) && forall i :: 0 <= i < |log + more| ==> (log + more)[i] <= t
  {
  }

  lemma RecordRefines(m: Meter, log: seq<int>, sync: Option<Sync>, hits: int, earlier: int, now: int)
    requires Represents(m, log, sync, earlier) && earlier <= now
    ensures Represents(RecordOn(m, hits, now), log + Repeat(Unix(now), Positive(hits)), sync, now)
  {
    ClockFacts(earlier, now);
    var c :| c <= Cutoff(earlier) && RingOf(m.times, log, c);
    var cut, more := Cutoff(now), Repeat(Unix(now), Positive(hits));
    PruneRing(log, c, cut);
    RecordRing(log, cut, more);
    LogGrows(log, more, Unix(now));
    assert RingOf(RecordOn(m, hits, now).times, log + more, cut);
  }

  lemma PruneRefines(m: Meter, log: seq<int>, sync: Option<Sync>, earlier: int, now: int)
    requires Represents(m, log, sync, earlier) && earlier <= now
    ensures Represents(PruneOn(m, now), log, sync, now)
    ensures Represents(m, log, sync, now)
  {
    ClockFacts(earlier, now);
    var c :| c <= Cutoff(earlier) && RingOf(m.times, log, c);
    PruneRing(log, c, Cutoff(now));
    assert RingOf(PruneOn(m, now).times, log, Cutoff(now));
    assert c <= Cutoff(now) && RingOf(m.times, log, c);
  }

  // What the replay of a history says of one meter.
  ghost predicate ReplayIs(ops: seq<Op>, name: string, kind: Kind, now: int) {
    Represents(Entry(Replay(ops), name).Get(kind), Log(ops, name, kind), LastSync(ops, name, kind), now)
  }

  lemma NothingYet(name: string, kind: Kind, now: int)
    ensures ReplayIs([], name, kind, now)
  {
    EmptyRing(Cutoff(now));
  }

  lemma EmptyRing(c: int)
    ensures RingOf([], [], c)
  {
    assert HitsSince([], c) == 0;
  }

  lemma OneMoreRefines(ops: seq<Op>, name: string, kind: Kind, now: int)
    requires ops != [] && ops[|ops| - 1].now <= now
    requires ReplayIs(ops[..|ops| - 1], name, kind, ops[|ops| - 1].now)
    ensures ReplayIs(ops, name, kind, now)
  {
    var last, before := ops[|ops| - 1], ops[..|ops| - 1];
    ApplyRefines(Replay(before), last, name, kind, Log(before, name, kind), LastSync(before, name, kind));
    PruneRefines(Entry(Replay(ops), name).Get(kind), Log(ops, name, kind), LastSync(ops, name, kind), last.now, now);
  }

  lemma {:induction false} ReplayRefines(ops: seq<Op>, name: string, kind: Kind, now: int)
    requires ClockOrdered(ops, now)
    ensures ReplayIs(ops, name, kind, now)
  {
    if ops == [] {
      NothingYet(name, kind, now);
    } else {
      ReplayRefines(ops[..|ops| - 1], name, kind, ops[|ops| - 1].now);
      OneMoreRefines(ops, name, kind, now);
    }
  }

  // What an operation does to one meter of one indexer.
  lemma MeterAfter(data: map<string, UsageData>, op: Op, name: string, kind: Kind)
    ensures var m := Entry(data, name).Get(kind);
            Entry(Apply(data, op), name).Get(kind) ==
              if op.name != name || Ignored(op) then m
              else match op
                case RecordHits(_, a, d, now) => RecordOn(m, if kind == Api then a else d, now)
                case SetHeaderCounts(_, a, d, now) => SyncOn(m, if kind == Api then a else d, now)
                case ReadCounts(_, now) => PruneOn(m, now)
  {
  }

  lemma ApplyRefines(data: map<string, UsageData>, op: Op, name: string, kind: Kind, log: seq<int>, sync: Option<Sync>)
    requires Represents(Entry(data, name).Get(kind), log, sync, op.now)
    ensures var used := StatedBy(op, name, kind);
            Represents(Entry(Apply(data, op), name).Get(kind),
                       log + Repeat(Unix(op.now), HitsIn(op, name, kind)),
                       if used.Some? then Some(Sync(used.value, Unix(op.now))) else sync,
                       op.now)
  {
    MeterAfter(data, op, name, kind);
    MeterRefines(Entry(data, name).Get(kind), op, name, kind, log, sync);
  }

  lemma MeterRefines(m: Meter, op: Op, name: string, kind: Kind, log: seq<int>, sync: Option<Sync>)
    requires Represents(m, log, sync, op.now)
    ensures var used := StatedBy(op, name, kind);
            var m' := if op.name != name || Ignored(op) then m
                      else match op
                        case RecordHits(_, a, d, now) => RecordOn(m, if kind == Api then a else d, now)
                        case SetHeaderCounts(_, a, d, now) => SyncOn(m, if kind == Api then a else d, now)
                        case ReadCounts(_, now) => PruneOn(m, now);
            Represents(m', log + Repeat(Unix(op.now), HitsIn(op, name, kind)),
                       if used.Some? then Some(Sync(used.value, Unix(op.now))) else sync, op.now)
  {
    assert log + Repeat(Unix(op.now), 0) == log;
    if op.name == name && !Ignored(op) {
      match op
      case RecordHits(_, a, d, now) =>
        RecordRefines(m, log, sync, if kind == Api then a else d, now, now);
      case SetHeaderCounts(_, a, d, now) =>
      case ReadCounts(_, now) =>
        PruneRefines(m, log, sync, now, now);
    }
  }

  // What a meter that stands for a log and a sync counts.
  lemma CountOfRing(m: Meter, log: seq<int>, sync: Option<Sync>, now: int)
    requires Represents(m, log, sync, now)
    ensures CountOn(m, now) == match sync
              case Some(Sync(used, at)) =>
                if at > 0 && at >= Cutoff(now)
                then used + Min(MAX_HIT_TIMES, HitsSince(log, at + 1))
                else Min(MAX_HIT_TIMES, HitsSince(log, Cutoff(now)))
              case None => Min(MAX_HIT_TIMES, HitsSince(log, Cutoff(now)))
  {
    var c :| c <= Cutoff(now) && RingOf(m.times, log, c);
    PruneRing(log, c, Cutoff(now));
    RingCounts(log, Cutoff(now), m.syncedAt);
  }

  /** For every history with a clock that does not run backwards, and every
      indexer: the counts read off the pruned, capped ring are the true ones, and
      the all-time total is the number of requests ever recorded. */
  lemma {:induction false} CountsAreExact(ops: seq<Op>, name: string, kind: Kind, now: int)
    requires ClockOrdered(ops, now)
    ensures CountsOf(Replay(ops), name, now).Get(kind) == TrueCount(ops, name, kind, now)
    ensures CountsOf(Replay(ops), name, now).AllTime(kind) == |Log(ops, name, kind)|
  {
    ReplayRefines(ops, name, kind, now);
    CountOfRing(Entry(Replay(ops), name).Get(kind), Log(ops, name, kind), LastSync(ops, name, kind), now);
  }

  // ---------------------------------------------------------------------------
  // The manager

  lemma ReplayStep(ops: seq<Op>, op: Op)
    ensures Replay(ops + [op]) == Apply(Replay(ops), op)
  {
    assert (ops + [op])[..|ops|] == ops;
  }

  class Manager {
    var data: map<string, UsageData>
    ghost var history: seq<Op>  // every call so far

    ghost predicate Valid()
      reads this
    {
      data == Replay(history)
    }

    constructor ()
      ensures Valid() && history == []
    {
      data := map[];
      history := [];
    }

    method PruneUsage(e: UsageData, now: int) returns (pruned: UsageData)
      ensures pruned == UsageData(PruneOn(e.api, now), PruneOn(e.downloads, now))
    {
      var cutoff := Cutoff(now);
      var api := PruneHitTimes(e.api.times, cutoff);
      var downloads := PruneHitTimes(e.downloads.times, cutoff);
      pruned := UsageData(e.api.(times := api), e.downloads.(times := downloads));
    }

    method Grow(m: Meter, hits: int, ts: int) returns (grown: Meter)
      ensures grown == m.(times := Cap(m.times + Repeat(ts, Positive(hits))), allTime := m.allTime + Positive(hits))
    {
      var times := AppendHits(m.times, ts, hits);
      ghost var longer := times;
      times := CapHitTimes(times);
      LongestSuffix(longer, times);
      grown := m.(times := times);
      if hits > 0 {
        grown := grown.(allTime := grown.allTime + hits);
      }
    }

    method Recorded(before: UsageData, apiHits: int, downloads: int, now: int) returns (e: UsageData)
      ensures e == RecordBoth(before, apiHits, downloads, now)
    {
      e := PruneUsage(before, now);
      var ts := Unix(now);
      var api := Grow(e.api, apiHits, ts);
      var dl := Grow(e.downloads, downloads, ts);
      e := UsageData(api, dl);
    }

    method RecordHits(name: string, apiHits: int, downloads: int, now: int)
      requires Valid()
      modifies this
      ensures Valid() && history == old(history) + [Op.RecordHits(name, apiHits, downloads, now)]
    {
      ghost var op := Op.RecordHits(name, apiHits, downloads, now);
      ReplayStep(history, op);
      history := history + [op];
      if name == "" || (apiHits <= 0 && downloads <= 0) {
        assert Ignored(op);
        return;
      }
      var e := Recorded(Entry(data, name), apiHits, downloads, now);
      data := data[name := e];
      assert data == Apply(old(data), op);
    }

    method SetHeaderCounts(name: string, apiUsed: Option<int>, downloadsUsed: Option<int>, now: int)
      requires Valid()
      modifies this
      ensures Valid() && history == old(history) + [Op.SetHeaderCounts(name, apiUsed, downloadsUsed, now)]
    {
      history := history + [Op.SetHeaderCounts(name, apiUsed, downloadsUsed, now)];
      if name == "" || (apiUsed.None? && downloadsUsed.None?) {
        return;
      }
      var e := Entry(data, name);
      var ts := Unix(now);
      if apiUsed.Some? {
        e := e.(api := e.api.(headerUsed := apiUsed.value, syncedAt := ts));
      }
      if downloadsUsed.Some? {
        e := e.(downloads := e.downloads.(headerUsed := downloadsUsed.value, syncedAt := ts));
      }
      data := data[name := e];
    }

    /** Reading also prunes; what it answers is the true count over the whole
        history, whatever was pruned or capped on the way. */
    method Counts(name: string, now: int) returns (counts: UsageCounts)
      requires Valid()
      modifies this
      ensures Valid() && history == old(history) + [ReadCounts(name, now)]
      ensures counts == CountsOf(old(data), name, now)
      ensures ClockOrdered(old(history), now) ==>
                forall kind :: counts.Get(kind) == TrueCount(old(history), name, kind, now)
                               && counts.AllTime(kind) == |Log(old(history), name, kind)|
    {
      if ClockOrdered(history, now) {
        forall kind {
          CountsAreExact(history, name, kind, now);
        }
      }
      history := history + [ReadCounts(name, now)];
      if name !in data {
        return UsageCounts(0, 0, 0, 0);
      }
      var e := PruneUsage(data[name], now);
      data := data[name := e];
      counts := UsageCounts(|e.api.times|, |e.downloads.times|, e.api.allTime, e.downloads.allTime);
      var cutoff := Cutoff(now);
      if e.api.syncedAt > 0 && e.api.syncedAt >= cutoff {
        var n := CountHitsAfter(e.api.times, e.api.syncedAt);
        counts := counts.(api := e.api.headerUsed + n);
      }
      if e.downloads.syncedAt > 0 && e.downloads.syncedAt >= cutoff {
        var n := CountHitsAfter(e.downloads.times, e.downloads.syncedAt);
        counts := counts.(downloads := e.downloads.headerUsed + n);
      }
    }
  }
}
