/** A session's playback stream: one open stream at a time, handed out through
    leases. The functions say what each lock-held region does to the state record;
    the classes do it in place: State is the record a session makes on first use,
    Session the part of a session that owns it, and Lease what a caller holds, which
    stops reaching the stream once the session has another record or none. */
module PlaybackStream {
  import opened Basics

  datatype Spec = Spec(key: string, name: string, size: int)

  const NO_SPEC := Spec("", "", 0)

  // Streams are known by number.
  type Stream = nat

  datatype Playback = Playback(spec: Spec, stream: Option<Stream>, opening: bool, inUse: bool, startup: Option<int>)

  const IDLE := Playback(NO_SPEC, None, false, false, None)

  predicate Busy(p: Playback) {
    p.opening || p.inUse
  }

  // How one turn of the acquire loop ends.
  datatype Turn =
    | Reuse                        // lease on the stream already open for the key
    | BusySameKey                  // the caller asked not to wait for its own key
    | Park                         // wait on the condition variable
    | Open(replaced: Option<Stream>)    // open a new stream, after closing this one

  // What the session tells of its playback: the cached spec, and the startup info if known.
  datatype Snapshot = Snapshot(spec: Spec, startup: Option<int>)

  function ShownBy(p: Playback): Option<Snapshot> {
    if p.spec.key == "" then None else Some(Snapshot(p.spec, p.startup))
  }

  function Attempt(p: Playback, spec: Spec, allowBusySameKey: bool): (Playback, Turn) {
    if p.stream.Some? && p.spec.key == spec.key && !Busy(p) then
      (p.(spec := spec, inUse := true), Reuse)
    else if allowBusySameKey && p.spec.key == spec.key && Busy(p) then
      (p, BusySameKey)
    else if Busy(p) then
      (p, Park)
    else
      (Playback(spec, None, true, false, if p.spec.key != spec.key then None else p.startup), Open(p.stream))
  }

  function Opened(p: Playback, spec: Spec, stream: Stream): Playback {
    p.(opening := false, stream := Some(stream), spec := spec, inUse := true)
  }

  function OpenFailed(p: Playback, spec: Spec): Playback {
    var p' := p.(opening := false);
    if p.stream.None? && p.spec.key == spec.key then p'.(spec := NO_SPEC, startup := None) else p'
  }

  function Released(p: Playback): Playback {
    p.(inUse := false)
  }

  /** Storing a snapshot: the new record, and the stream it detaches. */
  function Snapshotted(p: Playback, spec: Spec, startup: Option<int>): (Playback, Option<Stream>) {
    var detached := if Busy(p) then None else p.stream;
    (p.(stream := if Busy(p) then p.stream else None, spec := spec, startup := startup), detached)
  }

  function WithStartInfo(p: Playback, key: string, info: int): Playback {
    if p.spec.key == "" || p.spec.key != key then p else p.(startup := Some(info))
  }

  // ---------------------------------------------------------------------------

  class State {
    var spec: Spec
    var stream: Option<Stream>
    var opening: bool
    var inUse: bool
    var startup: Option<int>

    function View(): Playback
      reads this
    {
      Playback(spec, stream, opening, inUse, startup)
    }

    constructor ()
      ensures View() == IDLE
    {
      spec, stream, opening, inUse, startup := NO_SPEC, None, false, false, None;
    }

    /** One turn of the acquire loop, from taking the lock to giving it up. */
    method TryAcquire(wanted: Spec, allowBusySameKey: bool) returns (turn: Turn)
      modifies this
      ensures (View(), turn) == Attempt(old(View()), wanted, allowBusySameKey)
    {
      if stream.Some? && spec.key == wanted.key && !inUse && !opening {
        spec := wanted;
        inUse := true;
        return Reuse;
      }
      if allowBusySameKey && spec.key == wanted.key && (opening || inUse) {
        return BusySameKey;
      }
      if opening || inUse {
        return Park;
      }
      var oldStream, oldKey := stream, spec.key;
      stream := None;
      spec := wanted;
      opening := true;
      inUse := false;
      if oldKey != wanted.key {
        startup := None;
      }
      return Open(oldStream);
    }

    /** The region after open() came back, with a stream or with an error. */
    method FinishOpen(wanted: Spec, result: Option<Stream>)
      modifies this
      ensures View() ==
                if result.Some? then Opened(old(View()), wanted, result.value) else OpenFailed(old(View()), wanted)
    {
      opening := false;
      if result.None? {
        if stream.None? && spec.key == wanted.key {
          spec := NO_SPEC;
          startup := None;
        }
        return;
      }
      stream := result;
      spec := wanted;
      inUse := true;
    }

    method Reset() returns (detached: Option<Stream>)
      modifies this
      ensures View() == IDLE && detached == old(stream)
    {
      detached := stream;
      stream := None;
      spec := NO_SPEC;
      opening := false;
      inUse := false;
      startup := None;
    }
  }

  class Session {
    var playback: State?

    constructor ()
      ensures playback == null
    {
      playback := null;
    }

    method EnsurePlaybackState() returns (state: State)
      modifies this
      ensures playback == state
      ensures old(playback) != null ==> state == old(playback) && state.View() == old(state.View())
      ensures old(playback) == null ==> fresh(state) && state.View() == IDLE
    {
      if playback == null {
        playback := new State();
      }
      state := playback;
    }

    method PlaybackStreamSnapshot() returns (shown: Option<Snapshot>)
      ensures shown == if playback == null then None else ShownBy(playback.View())
    {
      if playback == null || playback.spec.key == "" {
        return None;
      }
      return Some(Snapshot(playback.spec, playback.startup));
    }

    method CacheSnapshot(spec: Spec, startup: Option<int>) returns (detached: Option<Stream>)
      modifies this, playback
      ensures spec.key == "" ==> playback == old(playback) && detached == None
                                 && (playback != null ==>
                                       playback.View() == old(if playback == null then IDLE else playback.View()))
      ensures spec.key != "" ==>
                && playback != null && (old(playback) != null ==> playback == old(playback))
                && (playback.View(), detached) ==
                   Snapshotted(old(if playback == null then IDLE else playback.View()), spec, startup)
      ensures spec.key != "" ==> ShownBy(playback.View()) == Some(Snapshot(spec, startup))
    {
      detached := None;
      if spec.key == "" {
        return;
      }
      var state := EnsurePlaybackState();
      if state.stream.Some? && !state.inUse && !state.opening {
        detached := state.stream;
        state.stream := None;
      }
      state.spec := spec;
      state.startup := startup;
    }

    method SetStartInfo(key: string, info: int)
      modifies playback
      ensures playback != null ==> playback.View() == WithStartInfo(old(playback.View()), key, info)
      ensures playback != null && playback.spec.key == key != "" ==>
                ShownBy(playback.View()) == Some(Snapshot(old(playback.spec), Some(info)))
    {
      if playback == null || playback.spec.key == "" || playback.spec.key != key {
        return;
      }
      playback.startup := Some(info);
    }

    method ResetPlaybackStream() returns (detached: Option<Stream>)
      modifies playback
      ensures playback != null ==> playback.View() == IDLE && detached == old(playback.stream)
      ensures playback == null ==> detached == None
    {
      detached := None;
      if playback != null {
        detached := playback.Reset();
      }
    }

    /** Closing the session drops the state record: whoever still holds it keeps a
        record that is no longer the session's. */
    method Close() returns (detached: Option<Stream>)
      modifies this, playback
      ensures playback == null
      ensures old(playback) != null ==> old(playback).View() == IDLE && detached == old(playback.stream)
      ensures old(playback) == null ==> detached == None
    {
      detached := ResetPlaybackStream();
      playback := null;
    }
  }

  class Lease {
    const session: Session
    const state: State
    var closed: bool

    constructor (session: Session, state: State)
      ensures this.session == session && this.state == state && !closed
    {
      this.session := session;
      this.state := state;
      closed := false;
    }

    method ActiveStream() returns (stream: Option<Stream>)
      ensures stream == if closed || session.playback != state then None else state.stream
    {
      if closed || session.playback != state {
        return None;
      }
      return state.stream;
    }

    method Close()
      modifies this, state
      ensures closed
      ensures state.View() ==
                if !old(closed) && session.playback == state then Released(old(state.View())) else old(state.View())
    {
      if closed {
        return;
      }
      closed := true;
      if session.playback == state {
        state.inUse := false;
      }
    }
  }
}
