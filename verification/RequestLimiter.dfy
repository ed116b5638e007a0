/** The per-indexer request limiter: a caller books the next free slot, waits for it,
    and hands its interval back when it gives up. */
module RequestLimiter {
  import opened Basics

  // The class holds the lock-held regions of `Wait`; the ledger below it is the history
  // of one limiter under any interleaving of its callers. Waiting happens outside the lock.

  // What the first lock-held region of Wait leads to.
  datatype Booking =
    | Immediate(slot: int)  // the slot has come: the caller goes ahead
    | Refused               // the slot has come, but the context ended meanwhile
    | Queued(slot: int)     // the caller starts a timer for its slot

  /** First lock-held region: the value of nextAllowed it leaves, and the booking. */
  function Book(nextAllowed: int, interval: nat, now: int, cancelled: bool): (int, Booking) {
    var slot := Max(nextAllowed, now);
    if slot > now then (slot + interval, Queued(slot))
    else if cancelled then (slot, Refused)
    else (slot + interval, Immediate(slot))
  }

  /** Second lock-held region: the context of a queued caller ended at time `now`. */
  function HandBack(nextAllowed: int, interval: nat, now: int): int {
    Max(nextAllowed - interval, now)
  }

  class Limiter {
    const interval: nat
    var nextAllowed: int

    constructor (interval: nat)
      ensures this.interval == interval && nextAllowed == 0
    {
      this.interval := interval;
      nextAllowed := 0;
    }

    method Reserve(now: int, cancelled: bool) returns (booking: Booking)
      modifies this
      ensures (nextAllowed, booking) == Book(old(nextAllowed), interval, now, cancelled)
    {
      if nextAllowed < now {
        nextAllowed := now;
      }
      var prevNext := nextAllowed;
      var wait := nextAllowed - now;
      nextAllowed := nextAllowed + interval;
      if wait <= 0 {
        if cancelled {
          nextAllowed := prevNext;
          return Refused;
        }
        return Immediate(prevNext);
      }
      return Queued(prevNext);
    }

    method Cancel(now: int)
      modifies this
      ensures nextAllowed == HandBack(old(nextAllowed), interval, now)
    {
      nextAllowed := nextAllowed - interval;
      if nextAllowed < now {
        nextAllowed := now;
      }
    }
  }

  // ---------------------------------------------------------------------------
  // Every run of one limiter

  // A booked slot that was not handed back, in booking order.
  datatype Ticket =
    | Waiting(slot: int)
    | Granted(slot: int, at: int)

  datatype Ledger = Ledger(nextAllowed: int, tickets: seq<Ticket>)

  datatype Event =
    | Call(now: int, cancelled: bool)  // a caller runs the first lock-held region
    | Grant(ticket: nat, at: int)      // a waiter's timer fires, no earlier than its slot
    | Cancel(ticket: nat, now: int)    // a waiter's context ends first

  predicate Enabled(l: Ledger, e: Event) {
    match e
    case Call(_, _) => true
    case Grant(t, at) => t < |l.tickets| && l.tickets[t].Waiting? && l.tickets[t].slot <= at
    case Cancel(t, _) => t < |l.tickets| && l.tickets[t].Waiting?
  }

  function Apply(l: Ledger, interval: nat, e: Event): Ledger
    requires Enabled(l, e)
  {
    match e
    case Call(now, cancelled) =>
      var (next, booking) := Book(l.nextAllowed, interval, now, cancelled);
      (match booking
       case Immediate(slot) => Ledger(next, l.tickets + [Granted(slot, now)])
       case Refused => Ledger(next, l.tickets)
       case Queued(slot) => Ledger(next, l.tickets + [Waiting(slot)]))
    case Grant(t, at) =>
      l.(tickets := l.tickets[t := Granted(l.tickets[t].slot, at)])
    case Cancel(t, now) =>
      Ledger(HandBack(l.nextAllowed, interval, now), l.tickets[..t] + l.tickets[t + 1..])
  }

  const Fresh := Ledger(0, [])

  /** The ledger some events lead to, or nothing when one of them could not happen. */
  function Continue(l: Ledger, interval: nat, events: seq<Event>): Option<Ledger>
    decreases |events|
  {
    if events == [] then Some(l)
    else
      var last := events[|events| - 1];
      match Continue(l, interval, events[..|events| - 1])
      case None => None
      case Some(l0) => if Enabled(l0, last) then Some(Apply(l0, interval, last)) else None
  }

  predicate Run(interval: nat, events: seq<Event>, l: Ledger) {
    Continue(Fresh, interval, events) == Some(l)
  }

  /** How many requests had gone out by time `t`. */
  function GrantedBy(tickets: seq<Ticket>, t: int): nat {
    if tickets == [] then 0
    else
      var last := tickets[|tickets| - 1];
      GrantedBy(tickets[..|tickets| - 1], t) + if last.Granted? && last.at <= t then 1 else 0
  }

  // ---------------------------------------------------------------------------
  // The average rate, under every interleaving and any cancellations

  // The instant k intervals after b, one interval at a time.
  function After(b: int, interval: nat, k: nat): int {
    if k == 0 then b else After(b, interval, k - 1) + interval
  }

  lemma {:induction false} AfterIsLater(b: int, interval: nat, j: nat, k: nat)
    requires j <= k
    ensures b <= After(b, interval, j) <= After(b, interval, k)
  {
    if j < k {
      AfterIsLater(b, interval, j, k - 1);
    } else if 0 < k {
      AfterIsLater(b, interval, j - 1, k - 1);
    }
  }

  /** The k-th surviving ticket sits at least k intervals after the first call,
      and so does the next free slot. This is what cancellation keeps: it may
      move later bookings next to one another, but never ahead of this staircase. */
  ghost predicate Staircase(l: Ledger, interval: nat, b: int) {
    && (forall k :: 0 <= k < |l.tickets| ==> After(b, interval, k) <= l.tickets[k].slot)
    && (forall k :: 0 <= k < |l.tickets| && l.tickets[k].Granted? ==> l.tickets[k].slot <= l.tickets[k].at)
    && After(b, interval, |l.tickets|) <= l.nextAllowed
  }

  lemma {:induction false} CancelKeepsStaircase(l: Ledger, interval: nat, b: int, t: nat, now: int)
    requires Staircase(l, interval, b) && Enabled(l, Cancel(t, now))
    ensures Staircase(Apply(l, interval, Cancel(t, now)), interval, b)
  {
    var l' := Apply(l, interval, Cancel(t, now));
    forall k | 0 <= k < |l'.tickets|
      ensures After(b, interval, k) <= l'.tickets[k].slot
      ensures l'.tickets[k].Granted? ==> l'.tickets[k].slot <= l'.tickets[k].at
    {
      if k < t {
        assert l'.tickets[k] == l.tickets[k];
      } else {
        assert l'.tickets[k] == l.tickets[k + 1];
        AfterIsLater(b, interval, k, k + 1);
      }
    }
  }

  lemma {:induction false} StaircaseKept(l: Ledger, interval: nat, b: int, e: Event)
    requires Staircase(l, interval, b) && Enabled(l, e)
    ensures Staircase(Apply(l, interval, e), interval, b)
  {
    match e
    case Call(now, cancelled) =>
    case Grant(t, at) =>
    case Cancel(t, now) => CancelKeepsStaircase(l, interval, b, t, now);
  }

  lemma {:induction false} RunKeepsStaircase(interval: nat, events: seq<Event>, l: Ledger)
    requires |events| > 0 && Run(interval, events, l)
    ensures events[0].Call? && Staircase(l, interval, events[0].now)
    decreases |events|
  {
    var last := events[|events| - 1];
    var before := events[..|events| - 1];
    var l0 := Continue(Fresh, interval, before).value;
    if |events| > 1 {
      RunKeepsStaircase(interval, before, l0);
      StaircaseKept(l0, interval, events[0].now, last);
    }
  }

  lemma {:induction false} LastGrantIsLateEnough(tickets: seq<Ticket>, t: int) returns (k: nat)
    requires GrantedBy(tickets, t) > 0
    ensures k < |tickets| && tickets[k].Granted? && tickets[k].at <= t
    ensures GrantedBy(tickets, t) <= k + 1
  {
    AtMostAll(tickets, t);
    var n := |tickets|;
    if tickets[n - 1].Granted? && tickets[n - 1].at <= t {
      k := n - 1;
    } else {
      k := LastGrantIsLateEnough(tickets[..n - 1], t);
    }
  }

  lemma {:induction false} AtMostAll(tickets: seq<Ticket>, t: int)
    ensures GrantedBy(tickets, t) <= |tickets|
  {
    if tickets != [] { AtMostAll(tickets[..|tickets| - 1], t); }
  }

  /** The rate bound: n requests by time T means (n-1) intervals have passed
      since the first call, whoever waited, went ahead or gave up in between. */
  lemma {:induction false} RateBound(interval: nat, events: seq<Event>, l: Ledger, t: int)
    requires |events| > 0 && Run(interval, events, l)
    requires GrantedBy(l.tickets, t) > 0
    ensures events[0].Call?
    ensures (GrantedBy(l.tickets, t) - 1) * interval <= t - events[0].now
  {
    RunKeepsStaircase(interval, events, l);
    var k := LastGrantIsLateEnough(l.tickets, t);
    var n := GrantedBy(l.tickets, t) - 1;
    AfterIsLater(events[0].now, interval, n, k);
    AfterIsProduct(events[0].now, interval, n);
  }

  lemma {:induction false} AfterIsProduct(b: int, interval: nat, k: nat)
    ensures After(b, interval, k) == b + k * interval
  {
    if k > 0 {
      AfterIsProduct(b, interval, k - 1);
      assert k * interval == (k - 1) * interval + interval;
    }
  }

  // ---------------------------------------------------------------------------
  // Spacing: what cancellation does destroy

  ghost predicate Apart(tickets: seq<Ticket>, interval: nat) {
    forall j, k :: 0 <= j < k < |tickets| ==> tickets[j].slot + interval <= tickets[k].slot
  }

  /** All slots are an interval apart, the next free one included. */
  ghost predicate Spaced(l: Ledger, interval: nat) {
    && Apart(l.tickets, interval)
    && forall j :: 0 <= j < |l.tickets| ==> l.tickets[j].slot + interval <= l.nextAllowed
  }

  /** The caller that gives up is the last in the queue, or it gives up so late that
      the hand-back no longer reaches the last slot. */
  predicate Harmless(l: Ledger, interval: nat, t: nat, now: int) {
    t < |l.tickets| ==>
      var last := |l.tickets| - 1;
      t == last || l.tickets[last].slot + interval <= HandBack(l.nextAllowed, interval, now)
  }

  lemma CancelKeepsSpacingExactly(l: Ledger, interval: nat, t: nat, now: int)
    requires Spaced(l, interval) && Enabled(l, Cancel(t, now))
    ensures Spaced(Apply(l, interval, Cancel(t, now)), interval) <==> Harmless(l, interval, t, now)
  {
    var left := Apply(l, interval, Cancel(t, now)).tickets;
    var last := |l.tickets| - 1;
    assert forall j :: 0 <= j < |left| ==> left[j] == l.tickets[if j < t then j else j + 1];
    if t != last {
      assert left[last - 1] == l.tickets[last];
    }
  }

  ghost predicate NobodyCancels(events: seq<Event>) {
    forall e :: e in events ==> !e.Cancel?
  }

  lemma StepKeepsSpacing(l: Ledger, interval: nat, e: Event)
    requires Spaced(l, interval) && Enabled(l, e) && !e.Cancel?
    ensures Spaced(Apply(l, interval, e), interval)
  {
  }

  lemma {:induction false} StaysSpaced(l: Ledger, interval: nat, events: seq<Event>)
    requires Spaced(l, interval) && NobodyCancels(events) && Continue(l, interval, events).Some?
    ensures Spaced(Continue(l, interval, events).value, interval)
    decreases |events|
  {
    if events != [] {
      var before, last := events[..|events| - 1], events[|events| - 1];
      assert last in events && forall e :: e in before ==> e in events;
      StaysSpaced(l, interval, before);
      StepKeepsSpacing(Continue(l, interval, before).value, interval, last);
    }
  }

  /** As long as nobody cancels, any two slots are at least an interval apart. */
  lemma SpacedWithoutCancellation(interval: nat, events: seq<Event>, l: Ledger)
    requires Run(interval, events, l) && NobodyCancels(events)
    ensures Spaced(l, interval)
  {
    StaysSpaced(Fresh, interval, events);
  }

  // After any other cancellation, the next caller is booked too close to the last.
  lemma NextCallComesTooClose(l: Ledger, interval: nat, t: nat, now: int)
    requires Enabled(l, Cancel(t, now)) && !Harmless(l, interval, t, now)
    ensures var l' := Apply(l, interval, Cancel(t, now));
            && Continue(l', interval, [Call(now, false)]) == Some(Apply(l', interval, Call(now, false)))
            && !Apart(Apply(l', interval, Call(now, false)).tickets, interval)
  {
    var l' := Apply(l, interval, Cancel(t, now));
    assert [Call(now, false)][..0] == [];
    assert Continue(l', interval, []) == Some(l');
    var last := |l'.tickets| - 1;
    assert l'.tickets[last] == l.tickets[|l.tickets| - 1];
    var after := Apply(l', interval, Call(now, false)).tickets;
    assert after[last] == l'.tickets[last] && after[last + 1].slot == l'.nextAllowed;
  }

  /** A cancellation is harmless exactly when, whatever uncancelled callers come
      after it, all slots stay an interval apart. */
  lemma CancellationIsHarmlessExactly(l: Ledger, interval: nat, t: nat, now: int)
    requires Spaced(l, interval) && Enabled(l, Cancel(t, now))
    ensures var l' := Apply(l, interval, Cancel(t, now));
            Harmless(l, interval, t, now) <==>
              forall more :: NobodyCancels(more) && Continue(l', interval, more).Some? ==>
                Apart(Continue(l', interval, more).value.tickets, interval)
  {
    var l' := Apply(l, interval, Cancel(t, now));
    CancelKeepsSpacingExactly(l, interval, t, now);
    if Harmless(l, interval, t, now) {
      forall more | NobodyCancels(more) && Continue(l', interval, more).Some?
        ensures Apart(Continue(l', interval, more).value.tickets, interval)
      {
        StaysSpaced(l', interval, more);
      }
    } else {
      var more := [Call(now, false)];
      NextCallComesTooClose(l, interval, t, now);
      assert NobodyCancels(more);
    }
  }

  // The ledger after the first n events of a run.
  function At(interval: nat, events: seq<Event>, n: nat): Ledger
    requires n <= |events|
  {
    match Continue(Fresh, interval, events[..n]) case Some(l) => l case None => Fresh
  }

  ghost predicate AlwaysSpaced(interval: nat, events: seq<Event>) {
    forall n :: 0 <= n <= |events| ==> Spaced(At(interval, events, n), interval)
  }

  ghost predicate AlwaysHarmless(interval: nat, events: seq<Event>) {
    forall n :: 0 <= n < |events| && events[n].Cancel? ==>
      Harmless(At(interval, events, n), interval, events[n].ticket, events[n].now)
  }

  lemma {:induction false} PrefixRuns(interval: nat, events: seq<Event>, n: nat)
    requires n <= |events| && Continue(Fresh, interval, events).Some?
    ensures Continue(Fresh, interval, events[..n]).Some?
    decreases |events|
  {
    if n < |events| {
      var before := events[..|events| - 1];
      PrefixRuns(interval, before, n);
      assert before[..n] == events[..n];
    } else {
      assert events[..n] == events;
    }
  }

  lemma NextAt(interval: nat, events: seq<Event>, n: nat)
    requires n < |events| && Continue(Fresh, interval, events).Some?
    ensures Enabled(At(interval, events, n), events[n])
    ensures At(interval, events, n + 1) == Apply(At(interval, events, n), interval, events[n])
  {
    PrefixRuns(interval, events, n + 1);
    assert events[..n + 1][..n] == events[..n];
  }

  lemma {:induction false} HarmlessStaysSpaced(interval: nat, events: seq<Event>, n: nat)
    requires Continue(Fresh, interval, events).Some? && AlwaysHarmless(interval, events) && n <= |events|
    ensures Spaced(At(interval, events, n), interval)
  {
    if n > 0 {
      HarmlessStaysSpaced(interval, events, n - 1);
      NextAt(interval, events, n - 1);
      var l, e := At(interval, events, n - 1), events[n - 1];
      if e.Cancel? {
        CancelKeepsSpacingExactly(l, interval, e.ticket, e.now);
      } else {
        StepKeepsSpacing(l, interval, e);
      }
    }
  }

  /** Over whole runs: the slots are an interval apart all along exactly when every
      cancellation of the run is harmless at its moment. */
  lemma {:induction false} SpacedExactlyWhenCancellationsAreHarmless(interval: nat, events: seq<Event>)
    requires Continue(Fresh, interval, events).Some?
    ensures AlwaysSpaced(interval, events) <==> AlwaysHarmless(interval, events)
  {
    if AlwaysHarmless(interval, events) {
      forall n | 0 <= n <= |events| ensures Spaced(At(interval, events, n), interval) {
        HarmlessStaysSpaced(interval, events, n);
      }
    }
    if AlwaysSpaced(interval, events) {
      forall n | 0 <= n < |events| && events[n].Cancel?
        ensures Harmless(At(interval, events, n), interval, events[n].ticket, events[n].now)
      {
        NextAt(interval, events, n);
        assert Spaced(At(interval, events, n), interval) && Spaced(At(interval, events, n + 1), interval);
        CancelKeepsSpacingExactly(At(interval, events, n), interval, events[n].ticket, events[n].now);
      }
    }
  }

  ghost predicate Paced(l: Ledger, interval: nat, b: int, n: nat) {
    && |l.tickets| == n
    && (forall k :: 0 <= k < n ==> l.tickets[k].slot == After(b, interval, k))
    && if n == 0 then l == Fresh else l.nextAllowed == After(b, interval, n)
  }

  lemma {:induction false} PacedOneMore(interval: nat, l: Ledger, b: nat, n: nat)
    requires Paced(l, interval, b, n) && Enabled(l, Call(b, false))
    ensures Paced(Apply(l, interval, Call(b, false)), interval, b, n + 1)
  {
    AfterIsLater(b, interval, 0, n);
  }

  lemma {:induction false} BurstIsPaced(interval: nat, events: seq<Event>, l: Ledger, b: nat)
    requires Run(interval, events, l)
    requires forall e :: e in events ==> e == Call(b, false)
    ensures Paced(l, interval, b, |events|)
    decreases |events|
  {
    if events != [] {
      var last, before := events[|events| - 1], events[..|events| - 1];
      var l0 := Continue(Fresh, interval, before).value;
      assert last in events && forall e :: e in before ==> e in events;
      BurstIsPaced(interval, before, l0, b);
      PacedOneMore(interval, l0, b, |before|);
    }
  }

  /** The bound is met exactly: callers arriving together go out one per interval. */
  lemma {:induction false} BurstIsPacedExactly(interval: nat, events: seq<Event>, l: Ledger, b: nat)
    requires Run(interval, events, l)
    requires forall e :: e in events ==> e == Call(b, false)
    ensures |l.tickets| == |events|
    ensures forall k :: 0 <= k < |l.tickets| ==> l.tickets[k].slot == b + k * interval
    ensures events != [] ==> l.nextAllowed == b + |events| * interval
  {
    BurstIsPaced(interval, events, l, b);
    forall k: nat {
      AfterIsProduct(b, interval, k);
    }
  }

  /** How a call goes: at once when the next free slot has come, unless the caller has given
      up already, and otherwise it queues for that slot. Whoever gets a slot moves the next
      one an interval on; whoever is refused leaves it, but in the past. */
  lemma CallGoes(l: Ledger, interval: nat, now: int, cancelled: bool)
    ensures var l' := Apply(l, interval, Call(now, cancelled));
            && (l.nextAllowed <= now && !cancelled ==>
                  l' == Ledger(now + interval, l.tickets + [Granted(now, now)]))
            && (l.nextAllowed > now ==>
                  l' == Ledger(l.nextAllowed + interval, l.tickets + [Waiting(l.nextAllowed)]))
            && (l.nextAllowed <= now && cancelled ==> l' == Ledger(now, l.tickets))
  {
  }

  // When the callers of a run came.
  function Arrivals(events: seq<Event>): seq<int> {
    if events == [] then []
    else
      var last := events[|events| - 1];
      Arrivals(events[..|events| - 1]) + if last.Call? then [last.now] else []
  }

  // The latest of the instants j's arrival and as many intervals as follow it up to k.
  ghost predicate IsLatest(arrivals: seq<int>, interval: nat, k: nat, at: int) {
    && k <= |arrivals|
    && (forall j :: 0 <= j < k ==> After(arrivals[j], interval, k - j) <= at)
    && (k > 0 ==> exists j :: 0 <= j < k && After(arrivals[j], interval, k - j) == at)
    && (k == 0 ==> at == 0)
  }

  ghost predicate Served(l: Ledger, interval: nat, arrivals: seq<int>) {
    && |l.tickets| == |arrivals|
    && (forall k :: 0 <= k < |arrivals| ==> SlotIs(arrivals, interval, k, l.tickets[k].slot))
    && IsLatest(arrivals, interval, |arrivals|, l.nextAllowed)
  }

  ghost predicate SlotIs(arrivals: seq<int>, interval: nat, k: nat, slot: int) {
    && k < |arrivals|
    && (forall j :: 0 <= j <= k ==> After(arrivals[j], interval, k - j) <= slot)
    && exists j :: 0 <= j <= k && After(arrivals[j], interval, k - j) == slot
  }

  // Nobody gives up, and the clock is past its zero.
  ghost predicate Patient(events: seq<Event>) {
    forall e :: e in events ==> !e.Cancel? && (e.Call? ==> !e.cancelled && e.now >= 0)
  }

  lemma LongerKeepsSlot(arrivals: seq<int>, more: int, interval: nat, k: nat, slot: int)
    requires SlotIs(arrivals, interval, k, slot)
    ensures SlotIs(arrivals + [more], interval, k, slot)
  {
    var all := arrivals + [more];
    assert forall j :: 0 <= j <= k ==> all[j] == arrivals[j];
    var j :| 0 <= j <= k && After(arrivals[j], interval, k - j) == slot;
    assert After(all[j], interval, k - j) == slot;
  }

  lemma NewSlot(arrivals: seq<int>, now: int, interval: nat, next: int)
    requires IsLatest(arrivals, interval, |arrivals|, next) && now >= 0
    ensures SlotIs(arrivals + [now], interval, |arrivals|, Max(next, now))
  {
    var n, all := |arrivals|, arrivals + [now];
    assert After(all[n], interval, 0) == now;
    assert forall j :: 0 <= j < n ==> all[j] == arrivals[j];
    if next > now {
      var j :| 0 <= j < n && After(arrivals[j], interval, n - j) == next;
      assert After(all[j], interval, n - j) == next;
    }
  }

  lemma NextSlot(arrivals: seq<int>, interval: nat, slot: int)
    requires arrivals != [] && SlotIs(arrivals, interval, |arrivals| - 1, slot)
    ensures IsLatest(arrivals, interval, |arrivals|, slot + interval)
  {
    var n := |arrivals|;
    forall j | 0 <= j < n ensures After(arrivals[j], interval, n - j) <= slot + interval {
      assert After(arrivals[j], interval, n - 1 - j) <= slot;
    }
    var j :| 0 <= j <= n - 1 && After(arrivals[j], interval, n - 1 - j) == slot;
    assert After(arrivals[j], interval, n - j) == slot + interval;
  }

  lemma CallIsServed(l: Ledger, interval: nat, arrivals: seq<int>, now: int)
    requires Served(l, interval, arrivals) && now >= 0
    ensures Served(Apply(l, interval, Call(now, false)), interval, arrivals + [now])
  {
    var l' := Apply(l, interval, Call(now, false));
    var n := |arrivals|;
    NewSlot(arrivals, now, interval, l.nextAllowed);
    NextSlot(arrivals + [now], interval, Max(l.nextAllowed, now));
    forall k | 0 <= k <= n ensures SlotIs(arrivals + [now], interval, k, l'.tickets[k].slot) {
      if k < n {
        LongerKeepsSlot(arrivals, now, interval, k, l.tickets[k].slot);
      }
    }
  }

  lemma GrantIsServed(l: Ledger, interval: nat, arrivals: seq<int>, e: Event)
    requires Served(l, interval, arrivals) && e.Grant? && Enabled(l, e)
    ensures Served(Apply(l, interval, e), interval, arrivals)
  {
    var l' := Apply(l, interval, e);
    forall k | 0 <= k < |arrivals| ensures SlotIs(arrivals, interval, k, l'.tickets[k].slot) {
      assert l'.tickets[k].slot == l.tickets[k].slot;
    }
  }

  lemma {:induction false} PatientIsServed(interval: nat, events: seq<Event>, l: Ledger)
    requires Run(interval, events, l) && Patient(events)
    ensures Served(l, interval, Arrivals(events))
    decreases |events|
  {
    if events != [] {
      var last, before := events[|events| - 1], events[..|events| - 1];
      var l0 := Continue(Fresh, interval, before).value;
      assert last in events && forall e :: e in before ==> e in events;
      PatientIsServed(interval, before, l0);
      if last.Call? {
        CallIsServed(l0, interval, Arrivals(before), last.now);
      } else {
        GrantIsServed(l0, interval, Arrivals(before), last);
        assert Arrivals(events) == Arrivals(before);
      }
    }
  }

  /** Nobody waits longer than needed: as long as nobody gives up, a caller's slot is exactly
      the latest instant that it, or a caller before it, forces by its own arrival and an
      interval for every caller from that one on. */
  lemma SlotsAreExact(interval: nat, events: seq<Event>, l: Ledger, k: nat)
    requires Run(interval, events, l) && Patient(events) && k < |l.tickets|
    ensures |l.tickets| == |Arrivals(events)|
    ensures forall j: nat :: j <= k ==> Arrivals(events)[j] + (k - j) * interval <= l.tickets[k].slot
    ensures exists j: nat :: j <= k && Arrivals(events)[j] + (k - j) * interval == l.tickets[k].slot
  {
    PatientIsServed(interval, events, l);
    forall b: int, n: nat {
      AfterIsProduct(b, interval, n);
    }
    assert SlotIs(Arrivals(events), interval, k, l.tickets[k].slot);
    var j: nat :| j <= k && After(Arrivals(events)[j], interval, k - j) == l.tickets[k].slot;
    AfterIsProduct(Arrivals(events)[j], interval, k - j);
  }

  /** Giving up undoes booking: the last in the queue leaves the limiter to later
      callers exactly as if it had never called. */
  lemma GivingUpUndoesBooking(nextAllowed: int, interval: nat, now: int, gaveUp: int, later: int)
    requires now <= gaveUp <= later
    ensures var next := Book(nextAllowed, interval, now, false).0;
            Book(HandBack(next, interval, gaveUp), interval, later, false) == Book(nextAllowed, interval, later, false)
  {
  }

  lemma RunStep(interval: nat, events: seq<Event>, l: Ledger, e: Event)
    requires Run(interval, events, l) && Enabled(l, e)
    ensures Run(interval, events + [e], Apply(l, interval, e))
  {
    var longer := events + [e];
    assert longer[..|longer| - 1] == events && longer[|longer| - 1] == e;
  }

  /** Three calls at time b: the first goes ahead, the others queue. */
  lemma ThreeCalls(interval: nat, b: nat) returns (events: seq<Event>, l: Ledger)
    requires interval > 0
    ensures Run(interval, events, l)
    ensures l == Ledger(b + 3 * interval, [Granted(b, b), Waiting(b + interval), Waiting(b + 2 * interval)])
  {
    var call := Call(b, false);
    events, l := [], Fresh;
    RunStep(interval, events, l, call);
    events, l := events + [call], Apply(l, interval, call);
    RunStep(interval, events, l, call);
    events, l := events + [call], Apply(l, interval, call);
    RunStep(interval, events, l, call);
    events, l := events + [call], Apply(l, interval, call);
  }

  /** The second gives up, and a fourth is booked onto the slot the third holds. */
  lemma TwoOnOneSlot(interval: nat, b: nat) returns (events: seq<Event>, l: Ledger)
    requires interval > 0
    ensures Run(interval, events, l)
    ensures l == Ledger(b + 3 * interval, [Granted(b, b), Waiting(b + 2 * interval), Waiting(b + 2 * interval)])
  {
    events, l := ThreeCalls(interval, b);
    RunStep(interval, events, l, Cancel(1, b));
    events, l := events + [Cancel(1, b)], Apply(l, interval, Cancel(1, b));
    assert l == Ledger(b + 2 * interval, [Granted(b, b), Waiting(b + 2 * interval)]);
    RunStep(interval, events, l, Call(b, false));
    events, l := events + [Call(b, false)], Apply(l, interval, Call(b, false));
  }

  /** One hand-back in front of a queued caller is enough to put two requests on
      the same instant, whatever the interval. */
  lemma CancellationBreaksSpacing(interval: nat, b: nat) returns (events: seq<Event>, l: Ledger)
    requires interval > 0
    ensures Run(interval, events, l) && |l.tickets| == 3
    ensures l.tickets[1] == l.tickets[2] == Granted(b + 2 * interval, b + 2 * interval)
  {
    events, l := TwoOnOneSlot(interval, b);
    var t := b + 2 * interval;
    RunStep(interval, events, l, Grant(1, t));
    events, l := events + [Grant(1, t)], Apply(l, interval, Grant(1, t));
    RunStep(interval, events, l, Grant(2, t));
    events, l := events + [Grant(2, t)], Apply(l, interval, Grant(2, t));
  }
}
