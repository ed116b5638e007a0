/** The session map: sessions are created, replaced while stale, touched by
    playback, evicted and deleted; whatever leaves the map is closed by whoever
    took it out. */
module SessionLifecycle {
  import opened Basics

  const CLIENT_STALE_TTL: int := 60
  const REPLACE_GRACE: int := 5

  // Clock readings in seconds; an unset time is None.
  datatype Record = Record(url: string, activePlays: nat, validatedAt: Option<int>, startedAt: Option<int>,
                           endedAt: Option<int>, starting: nat, downloading: bool,
                           clients: map<string, int>, lastAccess: int)

  function NewRecord(url: string, now: int): Record {
    Record(url, 0, None, None, None, 0, false, map[], now)
  }

  // ---------------------------------------------------------------------------
  // What each operation does to one session

  datatype Touch =
    | StartPlayback(ip: string)
    | EndPlayback(ip: string)
    | MarkValidated
    | BeginStartup
    | EndStartup
    | KeepAlive(ip: string)
    | Access                     // GetSession, and every use of the playback stream
    | Downloading(flag: bool)

  function Touched(r: Record, t: Touch, now: int): Record {
    match t
    case StartPlayback(ip) =>
      r.(startedAt := if r.activePlays == 0 then Some(now) else r.startedAt, activePlays := r.activePlays + 1,
         clients := r.clients[ip := now], lastAccess := now)
    case EndPlayback(ip) =>
      var plays := if r.activePlays > 0 then r.activePlays - 1 else 0;
      var r' := if plays == 0 then r.(startedAt := None, endedAt := Some(now)) else r;
      r'.(activePlays := plays, clients := r.clients[ip := now], lastAccess := now)
    case MarkValidated =>
      r.(validatedAt := if r.validatedAt.None? then Some(now) else r.validatedAt, starting := 0, lastAccess := now)
    case BeginStartup => r.(starting := r.starting + 1, lastAccess := now)
    case EndStartup => r.(starting := if r.starting > 0 then r.starting - 1 else 0, lastAccess := now)
    case KeepAlive(ip) => r.(clients := r.clients[ip := now], lastAccess := now)
    case Access => r.(lastAccess := now)
    case Downloading(flag) => r.(downloading := flag)
  }

  // Closing releases the clients and ends every startup.
  function Released(r: Record): Record {
    r.(starting := 0, clients := map[])
  }

  // The same touch on a session that was closed after it was looked up: writing to the
  // released clients panics, and what was written before that stays.
  function TouchedLate(r: Record, t: Touch, now: int): Record {
    if t.StartPlayback? || t.EndPlayback? then Touched(r, t, now).(clients := r.clients, lastAccess := r.lastAccess)
    else Touched(r, t, now).(clients := r.clients)
  }

  predicate Replaceable(r: Record, now: int) {
    r.activePlays == 0 && r.validatedAt.None? && !r.downloading && r.starting == 0
    && now - r.lastAccess >= REPLACE_GRACE
  }

  datatype Limits = Limits(ttl: int, postPlaybackTtl: int, maxPlayback: int)

  function WithoutStaleClients(r: Record, now: int): Record {
    r.(clients := map ip | ip in r.clients && now - r.clients[ip] <= CLIENT_STALE_TTL :: r.clients[ip])
  }

  /** Whether cleanup evicts a session, its stale clients already dropped. */
  predicate Evicted(r: Record, now: int, limits: Limits) {
    var active := r.activePlays > 0 || |r.clients| > 0;
    || (!active && r.endedAt.None? && now - r.lastAccess > limits.ttl)
    || (!active && r.endedAt.Some? && now - r.endedAt.value > limits.postPlaybackTtl)
    || (active && r.startedAt.Some? && now - r.startedAt.value > limits.maxPlayback)
  }

  // A client was seen on the session within the last minute.
  ghost predicate SeenLately(r: Record, now: int) {
    exists ip :: ip in r.clients && now - r.clients[ip] <= 60
  }

  /** A session's time is over: left alone for too long without ever having ended a play, or
      for too long since one ended, or at it for too long since the play began. */
  ghost predicate Expired(r: Record, now: int, limits: Limits) {
    var engaged := r.activePlays > 0 || SeenLately(r, now);
    || (!engaged && r.endedAt.None? && r.lastAccess < now - limits.ttl)
    || (!engaged && r.endedAt.Some? && r.endedAt.value < now - limits.postPlaybackTtl)
    || (engaged && r.startedAt.Some? && r.startedAt.value < now - limits.maxPlayback)
  }

  lemma RecentClientsAreLeft(r: Record, now: int)
    ensures var r' := WithoutStaleClients(r, now);
            && (|r'.clients| > 0 <==> SeenLately(r, now))
            && (forall ip :: ip in r'.clients <==> ip in r.clients && now - r.clients[ip] <= 60)
            && (forall ip :: ip in r'.clients ==> r'.clients[ip] == r.clients[ip])
            && r' == r.(clients := r'.clients)
  {
    var left := WithoutStaleClients(r, now).clients;
    if SeenLately(r, now) {
      var ip :| ip in r.clients && now - r.clients[ip] <= 60;
      assert ip in left.Keys;
    }
    if |left| > 0 {
      var ip :| ip in left.Keys;
      assert ip in r.clients;
    }
  }

  lemma EvictedIsExpired(r: Record, now: int, limits: Limits)
    ensures Evicted(WithoutStaleClients(r, now), now, limits) <==> Expired(r, now, limits)
  {
    RecentClientsAreLeft(r, now);
  }

  // ---------------------------------------------------------------------------
  // Every run. Sessions are known by number, in order of creation; a touch goes to
  // a session looked up earlier, which may have left the map since.

  datatype World = World(sessions: seq<Record>, live: map<string, nat>, closing: set<nat>, closed: set<nat>)

  datatype Outcome = Created | Existing | Replaced

  datatype Step =
    | CreateDeferred(id: string, url: string, now: int)
    | CreateReady(id: string, now: int)
    | Update(session: nat, touch: Touch, now: int)
    | Delete(id: string)
    | Cleanup(now: int, limits: Limits)
    | CloseQueued(session: nat)

  predicate Enabled(w: World, step: Step) {
    && (forall id :: id in w.live ==> w.live[id] < |w.sessions|)
    && match step
       case Update(h, _, _) => h < |w.sessions|
       case CloseQueued(h) => h in w.closing && h < |w.sessions|
       case _ => true
  }

  function DeferredOutcome(w: World, id: string, url: string, now: int): Outcome
    requires id in w.live ==> w.live[id] < |w.sessions|
  {
    if id !in w.live then Created
    else if w.sessions[w.live[id]].url != url && Replaceable(w.sessions[w.live[id]], now) then Replaced
    else Existing
  }

  function Added(w: World, id: string, r: Record): World {
    w.(sessions := w.sessions + [r], live := w.live[id := |w.sessions|])
  }

  function EvictedIds(w: World, now: int, limits: Limits): set<string>
    requires forall id :: id in w.live ==> w.live[id] < |w.sessions|
  {
    set id | id in w.live && Evicted(WithoutStaleClients(w.sessions[w.live[id]], now), now, limits)
  }

  function Apply(w: World, step: Step): World
    requires Enabled(w, step)
  {
    match step
    case CreateDeferred(id, url, now) =>
      (match DeferredOutcome(w, id, url, now)
       case Created => Added(w, id, NewRecord(url, now))
       case Replaced => Added(w.(closing := w.closing + {w.live[id]}), id, NewRecord(url, now))
       case Existing =>
         var r := w.sessions[w.live[id]];
         // same URL, or not replaceable: the session that is there is touched and handed back
         w.(sessions := w.sessions[w.live[id] := r.(lastAccess := now)]))
    case CreateReady(id, now) =>
      if id in w.live then w.(sessions := w.sessions[w.live[id] := w.sessions[w.live[id]].(lastAccess := now)])
      else Added(w, id, NewRecord("", now))
    case Update(h, t, now) =>
      var r := w.sessions[h];
      w.(sessions := w.sessions[h := if h in w.closed then TouchedLate(r, t, now) else Touched(r, t, now)])
    case Delete(id) =>
      if id in w.live then w.(live := w.live - {id}, closing := w.closing + {w.live[id]}) else w
    case Cleanup(now, limits) =>
      var out := EvictedIds(w, now, limits);
      var seen := set id | id in w.live :: w.live[id];
      World(seq(|w.sessions|, h requires 0 <= h < |w.sessions| =>
                  if h in seen then WithoutStaleClients(w.sessions[h], now) else w.sessions[h]),
            w.live - out, w.closing + (set id | id in out :: w.live[id]), w.closed)
    case CloseQueued(h) =>
      w.(sessions := w.sessions[h := Released(w.sessions[h])], closing := w.closing - {h}, closed := w.closed + {h})
  }

  function Play(steps: seq<Step>): Option<World> {
    if steps == [] then Some(World([], map[], {}, {}))
    else
      match Play(steps[..|steps| - 1])
      case None => None
      case Some(w) => if Enabled(w, steps[|steps| - 1]) then Some(Apply(w, steps[|steps| - 1])) else None
  }

  /** A session is playing exactly when its playback has a start. */
  ghost predicate StartKnown(r: Record) {
    r.activePlays > 0 <==> r.startedAt.Some?
  }

  /** Every session ever made is under exactly one id, or waiting to be closed by
      whoever removed it, or closed. */
  ghost predicate Placed(w: World) {
    && (forall id :: id in w.live ==> w.live[id] < |w.sessions| && w.live[id] !in w.closing && w.live[id] !in w.closed)
    && (forall a, b :: a in w.live && b in w.live && w.live[a] == w.live[b] ==> a == b)
    && (forall h :: h in w.closing ==> h < |w.sessions|) && (forall h :: h in w.closed ==> h < |w.sessions|)
    && w.closing !! w.closed
    && (forall h :: 0 <= h < |w.sessions| ==>
          h in w.closing || h in w.closed || exists id :: id in w.live && w.live[id] == h)
  }

  ghost predicate Good(w: World) {
    Placed(w) && forall h :: 0 <= h < |w.sessions| ==> StartKnown(w.sessions[h])
  }

  lemma StepKeepsStarts(w: World, step: Step)
    requires Good(w) && Enabled(w, step)
    ensures forall h :: 0 <= h < |Apply(w, step).sessions| ==> StartKnown(Apply(w, step).sessions[h])
  {
  }

  lemma StaysPlaced(w: World, w': World)
    requires Placed(w) && |w.sessions| == |w'.sessions| && w'.live == w.live && w'.closing == w.closing
    requires w'.closed == w.closed
    ensures Placed(w')
  {
  }

  lemma RemovalKeepsPlaced(w: World, out: set<string>, w': World)
    requires Placed(w) && out <= w.live.Keys && |w'.sessions| == |w.sessions|
    requires w'.live == w.live - out && w'.closing == w.closing + (set id | id in out :: w.live[id])
    requires w'.closed == w.closed
    ensures Placed(w')
  {
    forall h | 0 <= h < |w'.sessions|
      ensures h in w'.closing || h in w'.closed || exists id :: id in w'.live && w'.live[id] == h
    {
      if h !in w.closing && h !in w.closed {
        var id :| id in w.live && w.live[id] == h;
        if id !in out {
          assert id in w'.live && w'.live[id] == h;
        }
      }
    }
  }

  lemma AddedKeepsPlaced(w: World, id: string, r: Record)
    requires Placed(w) && id !in w.live
    ensures Placed(Added(w, id, r))
  {
    var w' := Added(w, id, r);
    assert w'.live[id] == |w.sessions|;
    forall h | 0 <= h < |w'.sessions|
      ensures h in w'.closing || h in w'.closed || exists k :: k in w'.live && w'.live[k] == h
    {
      if h < |w.sessions| && h !in w.closing && h !in w.closed {
        var k :| k in w.live && w.live[k] == h;
        assert k in w'.live && w'.live[k] == h;
      }
    }
  }

  lemma OneRemoved(live: map<string, nat>, id: string, h: nat)
    requires id in live
    ensures (set k | k in {id} :: live[k]) == {live[id]}
    ensures (live - {id})[id := h] == live[id := h]
  {
  }

  lemma ReplacedKeepsPlaced(w: World, id: string, r: Record)
    requires Placed(w) && id in w.live
    ensures Placed(Added(w.(closing := w.closing + {w.live[id]}), id, r))
  {
    var out := w.(live := w.live - {id}, closing := w.closing + {w.live[id]});
    OneRemoved(w.live, id, |w.sessions|);
    RemovalKeepsPlaced(w, {id}, out);
    AddedKeepsPlaced(out, id, r);
  }

  lemma CloseKeepsPlaced(w: World, h: nat)
    requires Placed(w) && Enabled(w, CloseQueued(h))
    ensures Placed(Apply(w, CloseQueued(h)))
  {
  }

  lemma {:induction false} StepKeepsPlaced(w: World, step: Step)
    requires Placed(w) && Enabled(w, step)
    ensures Placed(Apply(w, step))
  {
    var w' := Apply(w, step);
    match step
    case CreateDeferred(id, url, now) =>
      match DeferredOutcome(w, id, url, now) {
        case Created => AddedKeepsPlaced(w, id, NewRecord(url, now));
        case Replaced => ReplacedKeepsPlaced(w, id, NewRecord(url, now));
        case Existing => StaysPlaced(w, w');
      }
    case CreateReady(id, now) =>
      if id in w.live { StaysPlaced(w, w'); } else { AddedKeepsPlaced(w, id, NewRecord("", now)); }
    case Update(h, t, now) => StaysPlaced(w, w');
    case Delete(id) =>
      if id in w.live {
        OneRemoved(w.live, id, 0);
        RemovalKeepsPlaced(w, {id}, w');
      }
    case Cleanup(now, limits) => RemovalKeepsPlaced(w, EvictedIds(w, now, limits), w');
    case CloseQueued(h) => CloseKeepsPlaced(w, h);
  }

  lemma {:induction false} AlwaysGood(steps: seq<Step>)
    requires Play(steps).Some?
    ensures Good(Play(steps).value)
  {
    if steps != [] {
      AlwaysGood(steps[..|steps| - 1]);
      StepKeepsStarts(Play(steps[..|steps| - 1]).value, steps[|steps| - 1]);
      StepKeepsPlaced(Play(steps[..|steps| - 1]).value, steps[|steps| - 1]);
    }
  }

  ghost predicate Listed(w: World, h: nat) {
    exists id :: id in w.live && w.live[id] == h
  }

  /** In every state of every run: a session plays exactly when its playback start
      is set; an id names at most one session and no session has two ids; and each
      session ever made is in the map, or queued for closing, or closed. */
  lemma {:induction false} LifecycleIsSafe(steps: seq<Step>)
    requires Play(steps).Some?
    ensures var w := Play(steps).value;
            && (forall h :: 0 <= h < |w.sessions| ==>
                  (w.sessions[h].activePlays > 0 <==> w.sessions[h].startedAt.Some?))
            && (forall a, b :: a in w.live && b in w.live && a != b ==> w.live[a] != w.live[b])
            && (forall h: nat :: h < |w.sessions| ==> (Listed(w, h) <==> h !in w.closing && h !in w.closed))
            && w.closing !! w.closed
  {
    AlwaysGood(steps);
  }

  /** Cleanup never evicts a session whose current playback is within the limit,
      nor one a client was seen on in the last minute unless it is stuck playing. */
  lemma {:induction false} CleanupSparesPlayback(steps: seq<Step>, now: int, limits: Limits, id: string)
    requires Play(steps).Some? && id in Play(steps).value.live
    requires Enabled(Play(steps).value, Cleanup(now, limits))
    requires var w := Play(steps).value;
             var r := w.sessions[w.live[id]];
             || (r.activePlays > 0 && r.startedAt.Some? && now - r.startedAt.value <= limits.maxPlayback)
             || (r.activePlays == 0 && exists ip :: ip in r.clients && now - r.clients[ip] <= CLIENT_STALE_TTL)
    ensures var w' := Apply(Play(steps).value, Cleanup(now, limits));
            id in w'.live && w'.live[id] == Play(steps).value.live[id]
  {
    AlwaysGood(steps);
    var w := Play(steps).value;
    var r := w.sessions[w.live[id]];
    assert StartKnown(r);
    if r.activePlays == 0 {
      var ip :| ip in r.clients && now - r.clients[ip] <= CLIENT_STALE_TTL;
      assert ip in WithoutStaleClients(r, now).clients;
    }
  }

  /** Cleanup takes out exactly the sessions whose time is over, and queues them for closing;
      the others stay what they were but for the clients not seen for a minute. */
  lemma {:induction false} CleanupTakesExactlyTheExpired(steps: seq<Step>, now: int, limits: Limits, id: string)
    requires Play(steps).Some? && id in Play(steps).value.live
    ensures var w := Play(steps).value;
            Enabled(w, Cleanup(now, limits)) &&
            var w' := Apply(w, Cleanup(now, limits));
            var h := w.live[id];
            && h < |w.sessions| == |w'.sessions|
            && (id !in w'.live <==> Expired(w.sessions[h], now, limits))
            && (id in w'.live ==> w'.live[id] == h && h !in w'.closing)
            && (id !in w'.live ==> h in w'.closing)
            && w'.sessions[h] == w.sessions[h].(clients := w'.sessions[h].clients)
            && (forall ip :: ip in w'.sessions[h].clients <==>
                  ip in w.sessions[h].clients && now - w.sessions[h].clients[ip] <= 60)
  {
    AlwaysGood(steps);
    var w := Play(steps).value;
    EvictedIsExpired(w.sessions[w.live[id]], now, limits);
    RecentClientsAreLeft(w.sessions[w.live[id]], now);
  }

  /** So a session touched within its ttl that never ended a play stays, unless it has been
      playing for too long. */
  lemma {:induction false} TouchedSessionsStay(steps: seq<Step>, now: int, limits: Limits, id: string)
    requires Play(steps).Some? && id in Play(steps).value.live
    requires Enabled(Play(steps).value, Cleanup(now, limits))
    requires var w := Play(steps).value;
             var r := w.sessions[w.live[id]];
             && r.endedAt.None? && now - r.lastAccess <= limits.ttl
             && (r.activePlays > 0 ==> r.startedAt.Some? && now - r.startedAt.value <= limits.maxPlayback)
    ensures id in Apply(Play(steps).value, Cleanup(now, limits)).live
  {
    AlwaysGood(steps);
    CleanupTakesExactlyTheExpired(steps, now, limits, id);
    assert StartKnown(Play(steps).value.sessions[Play(steps).value.live[id]]);
  }

  /** Whenever a create takes a session out of the map, that session was idle in
      every sense, asked for another URL, and had not been touched for the grace
      period; it is queued for closing and the id names the new session. */
  lemma ReplacementTakesOnlyStaleSessions(steps: seq<Step>, id: string, url: string, now: int, key: string)
    requires Play(steps).Some? && Enabled(Play(steps).value, CreateDeferred(id, url, now))
    requires key in Play(steps).value.live
    requires var w' := Apply(Play(steps).value, CreateDeferred(id, url, now));
             key !in w'.live || w'.live[key] != Play(steps).value.live[key]
    ensures var w := Play(steps).value;
            var r := w.sessions[w.live[key]];
            && key == id && w.live[key] in Apply(w, CreateDeferred(id, url, now)).closing
            && r.activePlays == 0 && r.startedAt.None? && r.validatedAt.None? && r.starting == 0 && !r.downloading
            && now - r.lastAccess >= REPLACE_GRACE && r.url != url
  {
    AlwaysGood(steps);
    var w := Play(steps).value;
    assert StartKnown(w.sessions[w.live[key]]);
  }

  // ---------------------------------------------------------------------------
  // What a touch protects from

  function TimeOf(step: Step): Option<int> {
    match step
    case CreateDeferred(_, _, now) => Some(now)
    case CreateReady(_, now) => Some(now)
    case Update(_, _, now) => Some(now)
    case Cleanup(now, _) => Some(now)
    case Delete(_) => None
    case CloseQueued(_) => None
  }

  ghost predicate NotBefore(steps: seq<Step>, t: int) {
    forall i :: 0 <= i < |steps| && TimeOf(steps[i]).Some? ==> t <= TimeOf(steps[i]).value
  }

  ghost predicate TouchedSince(w: World, h: nat, t: int) {
    h < |w.sessions| && (h in w.closed || t <= w.sessions[h].lastAccess)
  }

  lemma StepKeepsTouched(w: World, step: Step, h: nat, t: int)
    requires TouchedSince(w, h, t) && Enabled(w, step) && (TimeOf(step).Some? ==> t <= TimeOf(step).value)
    ensures TouchedSince(Apply(w, step), h, t)
  {
  }

  lemma PlayInit(steps: seq<Step>)
    requires steps != [] && Play(steps).Some?
    ensures var init, last := steps[..|steps| - 1], steps[|steps| - 1];
            Play(init).Some? && Enabled(Play(init).value, last) && Play(steps).value == Apply(Play(init).value, last)
  {
  }

  lemma {:induction false} StaysTouched(before: seq<Step>, after: seq<Step>, h: nat, t: int)
    requires Play(before).Some? && TouchedSince(Play(before).value, h, t)
    requires Play(before + after).Some? && NotBefore(after, t)
    ensures TouchedSince(Play(before + after).value, h, t)
    decreases |after|
  {
    if after == [] {
      assert before + after == before;
    } else {
      var n := |after| - 1;
      InitOfBoth(before, after);
      PlayInit(before + after);
      StaysTouched(before, after[..n], h, t);
      StepKeepsTouched(Play(before + after[..n]).value, after[n], h, t);
    }
  }

  /** A session touched in any way but by its download is not replaced within the grace
      period, whatever happens in between, as long as the clock does not run backwards. */
  lemma {:induction false} TouchProtects(before: seq<Step>, h: nat, touch: Touch, t: int, after: seq<Step>, id: string,
                                         url: string, now: int)
    requires !touch.Downloading? && Play(before + [Update(h, touch, t)]).Some?
    requires Play(before + [Update(h, touch, t)] + after).Some? && NotBefore(after, t)
    requires var w := Play(before + [Update(h, touch, t)] + after).value;
             id in w.live && w.live[id] == h && Enabled(w, CreateDeferred(id, url, now))
    requires now - t < REPLACE_GRACE
    ensures var w := Play(before + [Update(h, touch, t)] + after).value;
            Apply(w, CreateDeferred(id, url, now)).live == w.live
  {
    var touched := before + [Update(h, touch, t)];
    assert touched[..|touched| - 1] == before;
    StaysTouched(touched, after, h, t);
    AlwaysGood(touched + after);
  }

  // ---------------------------------------------------------------------------
  // The classes

  class Session {
    var url: string
    var activePlays: nat
    var validatedAt: Option<int>
    var startedAt: Option<int>
    var endedAt: Option<int>
    var starting: nat
    var downloading: bool
    var clients: map<string, int>
    var lastAccess: int

    function View(): Record
      reads this
    {
      Record(url, activePlays, validatedAt, startedAt, endedAt, starting, downloading, clients, lastAccess)
    }

    constructor (url: string, now: int)
      ensures View() == NewRecord(url, now)
    {
      this.url := url;
      activePlays, starting := 0, 0;
      validatedAt, startedAt, endedAt := None, None, None;
      downloading := false;
      clients := map[];
      lastAccess := now;
    }

    method StartPlayback(ip: string, now: int)
      modifies this
      ensures View() == Touched(old(View()), Touch.StartPlayback(ip), now)
    {
      if activePlays == 0 {
        startedAt := Some(now);
      }
      activePlays := activePlays + 1;
      clients := clients[ip := now];
      lastAccess := now;
    }

    method EndPlayback(ip: string, now: int)
      modifies this
      ensures View() == Touched(old(View()), Touch.EndPlayback(ip), now)
    {
      if activePlays > 0 {
        activePlays := activePlays - 1;
      }
      if activePlays == 0 {
        startedAt := None;
        endedAt := Some(now);
      }
      clients := clients[ip := now];
      lastAccess := now;
    }

    method MarkPlaybackValidated(now: int)
      modifies this
      ensures View() == Touched(old(View()), MarkValidated, now)
    {
      if validatedAt.None? {
        validatedAt := Some(now);
      }
      starting := 0;
      lastAccess := now;
    }

    method EndPlaybackStartup(now: int)
      modifies this
      ensures View() == Touched(old(View()), EndStartup, now)
    {
      if starting > 0 {
        starting := starting - 1;
      }
      lastAccess := now;
    }

    method Release()
      modifies this
      ensures View() == Released(old(View()))
    {
      starting := 0;
      clients := map[];
    }

    method DropStaleClients(now: int)
      modifies this
      ensures View() == WithoutStaleClients(old(View()), now)
    {
      var ips := clients.Keys;
      var kept: map<string, int> := clients;
      while ips != {}
        invariant ips <= clients.Keys
        invariant kept == map ip | ip in clients && (ip in ips || now - clients[ip] <= CLIENT_STALE_TTL) :: clients[ip]
        invariant clients == old(clients)
        decreases ips
      {
        var ip :| ip in ips;
        if now - clients[ip] > CLIENT_STALE_TTL {
          kept := kept - {ip};
        }
        ips := ips - {ip};
      }
      clients := kept;
    }
  }

  class Manager {
    var sessions: map<string, Session>
    const limits: Limits

    ghost predicate Valid()
      reads this
    {
      forall a, b :: a in sessions && b in sessions && sessions[a] == sessions[b] ==> a == b
    }

    constructor (limits: Limits)
      ensures Valid() && sessions == map[] && this.limits == limits
    {
      sessions := map[];
      this.limits := limits;
    }

    method CreateDeferred(id: string, url: string, now: int)
        returns (session: Session, outcome: Outcome, replaced: Session?)
      requires Valid()
      modifies this, sessions.Values
      ensures Valid() && id in sessions && sessions[id] == session
      ensures sessions == old(sessions)[id := session]
      ensures forall k :: k in old(sessions) && (k != id || outcome.Replaced?) ==>
                old(sessions)[k].View() == old(sessions[k].View())
      ensures outcome.Created? <==> id !in old(sessions)
      ensures outcome.Replaced? <==>
              id in old(sessions) && old(sessions[id].View()).url != url && Replaceable(old(sessions[id].View()), now)
      ensures outcome.Existing? ==>
                session == old(sessions)[id] && session.View() == old(sessions[id].View()).(lastAccess := now)
      ensures !outcome.Existing? ==> fresh(session) && session.View() == NewRecord(url, now)
      ensures replaced == if outcome.Replaced? then old(sessions)[id] else null
    {
      replaced, outcome := null, Created;
      if id in sessions {
        var existing := sessions[id];
        var stale := existing.activePlays == 0 && existing.validatedAt.None? && !existing.downloading
                           && existing.starting == 0 && now - existing.lastAccess >= REPLACE_GRACE;
        var sameUrl := existing.url == url;
        if sameUrl || !stale {
          existing.lastAccess := now;
          return existing, Existing, null;
        }
        sessions := sessions - {id};
        replaced, outcome := existing, Replaced;
      }
      session := new Session(url, now);
      sessions := sessions[id := session];
    }

    method Examine(session: Session, now: int) returns (evict: bool)
      modifies session
      ensures session.View() == WithoutStaleClients(old(session.View()), now)
      ensures evict == Evicted(session.View(), now, limits)
      ensures evict <==> Expired(old(session.View()), now, limits)
    {
      EvictedIsExpired(session.View(), now, limits);
      session.DropStaleClients(now);
      var active := session.activePlays > 0 || |session.clients| > 0;
      var idle := !active && session.endedAt.None? && now - session.lastAccess > limits.ttl;
      var postPlayback := !active && session.endedAt.Some? && now - session.endedAt.value > limits.postPlaybackTtl;
      var stuck := active && session.startedAt.Some? && now - session.startedAt.value > limits.maxPlayback;
      evict := idle || postPlayback || stuck;
    }

    // What the records held before the walk, and hold once the ids in `left` remain.
    ghost predicate Walked(before: map<string, Record>, left: set<string>, now: int)
      reads this, sessions.Values
    {
      && before.Keys == sessions.Keys && left <= sessions.Keys
      && forall id, s :: id in sessions && s == sessions[id] ==>
           s.View() == if id in left then before[id] else WithoutStaleClients(before[id], now)
    }

    /** Walks the map in whatever order; what it finds does not depend on it. */
    method FindEvicted(now: int) returns (evicted: set<string>)
      requires Valid()
      modifies sessions.Values
      ensures evicted <= sessions.Keys
      ensures forall id :: id in sessions ==> sessions[id].View() == WithoutStaleClients(old(sessions[id].View()), now)
      ensures forall id :: id in sessions ==> (id in evicted <==> Expired(old(sessions[id].View()), now, limits))
    {
      ghost var before := map id | id in sessions :: sessions[id].View();
      var ids := sessions.Keys;
      evicted := {};
      while ids != {}
        invariant Walked(before, ids, now) && evicted <= sessions.Keys
        invariant forall id :: id in before ==> (id in evicted <==> id !in ids && Expired(before[id], now, limits))
        decreases ids
      {
        var id :| id in ids;
        var evict := Examine(sessions[id], now);
        if evict {
          evicted := evicted + {id};
        }
        ids := ids - {id};
      }
    }

    /** Takes exactly the evicted sessions out of the map and hands them back to be closed. */
    method Cleanup(now: int) returns (evicted: set<string>, toClose: set<Session>)
      requires Valid()
      modifies this, sessions.Values
      ensures Valid()
      ensures forall id :: id in old(sessions) ==>
                old(sessions)[id].View() == WithoutStaleClients(old(sessions[id].View()), now)
      // who goes, by what each session was before
      ensures forall id :: id in evicted <==> id in old(sessions) && Expired(old(sessions[id].View()), now, limits)
      ensures sessions == old(sessions) - evicted
      ensures toClose == set id | id in evicted :: old(sessions)[id]
    {
      evicted := FindEvicted(now);
      toClose := set id | id in evicted :: sessions[id];
      sessions := sessions - evicted;
    }
  }
}
