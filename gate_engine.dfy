/**
 * The gate's protocol state machine. The asynchronous dial loop is modelled as a step
 * machine: `phase` records where the suspended loop stands, and the environment drives
 * it with `RingArrived`, `PauseElapsed`, `ContinueLoop` and `WhitelistAnswered`. The
 * environment may also call any public operation (`Abort`, `Reset`, ...) between two
 * steps, as timers and listeners can in the original.
 */
module GateEngine {
  import opened Wrappers
  import opened GateRules

  /** Where the body of the running `initiateDialSequence` is suspended. */
  datatype LoopPhase =
    | NotRunning
      /** awaiting the ring at iteration `index` */
    | AwaitRing(index: nat)
      /** in the 300 ms pause after locking the chevron of iteration `index` */
    | Pausing(index: nat)
      /**
       * the `dialing` transition that ends an iteration has notified its listeners
       * (which may abort); the abort test of iteration `index` comes next
       */
    | AtTop(index: nat)
      /** awaiting the whitelist's answer in `validateAddress` */
    | AwaitWhitelist
  {
    /** Suspended inside an iteration of the loop. */
    predicate InLoop() { AwaitRing? || Pausing? || AtTop? }
  }

  /** The data `reset` restores, apart from the event log. */
  datatype Snapshot = Snapshot(
    state: GateState, mode: int, buffer: seq<int>, locked: seq<nat>,
    chevronIndex: nat, destination: Option<Destination>)

  function ResetSnapshot(mode: int): Snapshot {
    Snapshot(Idle, mode, [], [], 0, None)
  }

  class GateStateMachine {
    var state: GateState
    var mode: int
    var addressBuffer: seq<int>
    var lockedChevrons: seq<nat>
    var currentChevronIndex: nat
    var destination: Option<Destination>
    /** everything published on the event channel, oldest first */
    var events: seq<Event>
    var phase: LoopPhase
    /** the lock order the running dial loop captured when it started */
    var sequence: seq<nat>

    /** The canon rules on the address buffer, and a well-formed loop position. */
    ghost predicate Valid()
      reads this
    {
      && IsDialMode(mode)
      && |addressBuffer| <= mode - 1
      && Distinct(addressBuffer)
      && (state == Idle ==> addressBuffer == [])
      && (phase.InLoop() ==> IsDialMode(|sequence|) && phase.index < |sequence|)
      && (phase.AtTop? ==> 0 < phase.index)
    }

    function Snap(): Snapshot
      reads this
    {
      Snapshot(state, mode, addressBuffer, lockedChevrons, currentChevronIndex, destination)
    }

    constructor ()
      ensures Valid()
      ensures Snap() == ResetSnapshot(Local)
      ensures events == [] && phase == NotRunning
    {
      state := Idle;
      mode := Local;
      addressBuffer := [];
      lockedChevrons := [];
      currentChevronIndex := 0;
      destination := None;
      events := [];
      phase := NotRunning;
      sequence := [];
    }

    /** `transition`: set the state and announce the change. */
    method Transition(to: GateState)
      modifies this`state, this`events
      ensures state == to
      ensures events == old(events) + [StateChanged(old(state), to)]
    {
      events := events + [StateChanged(state, to)];
      state := to;
    }

    /** `setMode`: allowed only while idle; changes nothing but the mode. */
    method SetMode(m: int) returns (ok: bool)
      requires Valid() && IsDialMode(m)
      modifies this`mode, this`events
      ensures Valid()
      ensures ok <==> old(state) == Idle
      ensures mode == if ok then m else old(mode)
      ensures events == old(events) + if ok then [ModeChanged(m)] else []
    {
      if state != Idle {
        return false;
      }
      mode := m;
      events := events + [ModeChanged(m)];
      return true;
    }

    /** `addGlyph`: append a glyph under the canon rules. */
    method AddGlyph(glyphId: int) returns (ok: bool)
      requires Valid()
      modifies this`state, this`addressBuffer, this`events
      ensures Valid()
      ensures ok <==> && (old(state) == Idle || old(state) == Dialing)
                      && glyphId !in old(addressBuffer)
                      && |old(addressBuffer)| < mode - 1
      ensures ok ==> && addressBuffer == old(addressBuffer) + [glyphId]
                     && state == Dialing
                     && events == old(events)
                                  + (if old(state) == Idle then [StateChanged(Idle, Dialing)] else [])
                                  + [GlyphAdded(glyphId, addressBuffer)]
      ensures !ok ==> addressBuffer == old(addressBuffer) && state == old(state)
      ensures old(state) != Idle && old(state) != Dialing ==> events == old(events)
      ensures (old(state) == Idle || old(state) == Dialing) && glyphId in old(addressBuffer) ==>
                events == old(events) + [GlyphRejected(DuplicateGlyph(glyphId))]
      ensures (old(state) == Idle || old(state) == Dialing) && glyphId !in old(addressBuffer)
              && |old(addressBuffer)| >= mode - 1 ==>
                events == old(events) + [GlyphRejected(BufferFull)]
    {
      if state != Idle && state != Dialing {
        return false;
      }
      if glyphId in addressBuffer {
        events := events + [GlyphRejected(DuplicateGlyph(glyphId))];
        return false;
      }
      if |addressBuffer| >= mode - 1 {
        events := events + [GlyphRejected(BufferFull)];
        return false;
      }
      addressBuffer := addressBuffer + [glyphId];
      if state == Idle {
        Transition(Dialing);
      }
      events := events + [GlyphAdded(glyphId, addressBuffer)];
      return true;
    }

    /** `lockChevron`: record a locked chevron and announce the running total. */
    method LockChevron(chevronNum: nat)
      modifies this`lockedChevrons, this`events
      ensures lockedChevrons == old(lockedChevrons) + [chevronNum]
      ensures events == old(events) + [ChevronLocked(chevronNum, |old(lockedChevrons)| + 1)]
    {
      lockedChevrons := lockedChevrons + [chevronNum];
      events := events + [ChevronLocked(chevronNum, |lockedChevrons|)];
    }

    /**
     * `initiateDialSequence` up to its first suspension: allowed only while dialing;
     * captures the lock order of the current mode and announces chevron 0.
     */
    method InitiateDialSequence() returns (started: bool)
      requires Valid() && phase == NotRunning
      modifies this`currentChevronIndex, this`events, this`phase, this`sequence
      ensures Valid()
      ensures started <==> old(state) == Dialing
      ensures !started ==> && events == old(events) && phase == NotRunning
                           && currentChevronIndex == old(currentChevronIndex)
                           && sequence == old(sequence)
      ensures started ==> && sequence == DialSequence(mode)
                          && phase == AwaitRing(0) && currentChevronIndex == 0
                          && events == old(events) + [EncodingEvent(sequence, addressBuffer, 0), WaitForRing]
    {
      if state != Dialing {
        return false;
      }
      sequence := DialSequence(mode);
      EnterIteration(0);
      return true;
    }

    /**
     * The top of iteration i of the dial loop: stop if aborted (the test after the loop
     * then sees the abort too), otherwise announce the chevron and await the ring.
     */
    method EnterIteration(i: nat)
      requires Valid() && IsDialMode(|sequence|) && i < |sequence|
      modifies this`currentChevronIndex, this`events, this`phase
      ensures Valid()
      ensures old(state) == Aborted ==> && phase == NotRunning && events == old(events)
                                        && currentChevronIndex == old(currentChevronIndex)
      ensures old(state) != Aborted ==> && phase == AwaitRing(i) && currentChevronIndex == i
                                        && events == old(events) + [EncodingEvent(sequence, addressBuffer, i), WaitForRing]
    {
      if state == Aborted {
        phase := NotRunning;
        return;
      }
      currentChevronIndex := i;
      events := events + [EncodingEvent(sequence, addressBuffer, i), WaitForRing];
      phase := AwaitRing(i);
    }

    /** After the loop: validate unless aborted. */
    method FinishLoop()
      requires Valid()
      modifies this`state, this`events, this`phase
      ensures Valid()
      ensures old(state) == Aborted ==> && state == Aborted && phase == NotRunning
                                        && events == old(events)
      ensures old(state) != Aborted ==> && state == Validating && phase == AwaitWhitelist
                                        && events == old(events) + [StateChanged(old(state), Validating), ValidateRequest(addressBuffer)]
    {
      if state == Aborted {
        phase := NotRunning;
        return;
      }
      Transition(Validating);
      events := events + [ValidateRequest(addressBuffer)];
      phase := AwaitWhitelist;
    }

    /**
     * The ring has arrived: the loop locks its chevron. The `chevron_lock` transition is
     * unconditional, so an abort issued while the ring was turning is overwritten.
     * Outside that wait there is no pending continuation and nothing happens.
     */
    method RingArrived()
      requires Valid()
      modifies this`state, this`lockedChevrons, this`events, this`phase
      ensures Valid()
      ensures old(phase).AwaitRing? ==>
                var i := old(phase).index;
                && state == ChevronLock
                && lockedChevrons == old(lockedChevrons) + [sequence[i]]
                && phase == Pausing(i)
                && events == old(events) + [StateChanged(old(state), ChevronLock), ChevronLocked(sequence[i], |lockedChevrons|)]
      ensures !old(phase).AwaitRing? ==> && state == old(state) && lockedChevrons == old(lockedChevrons)
                                         && events == old(events) && phase == old(phase)
    {
      if !phase.AwaitRing? {
        return;
      }
      var i := phase.index;
      Transition(ChevronLock);
      LockChevron(sequence[i]);
      phase := Pausing(i);
    }

    /**
     * The pause after a lock has elapsed. Except after the last chevron the loop goes
     * back to `dialing` unconditionally (so an abort during the pause is overwritten) and
     * reaches the top of the next iteration; after the last it tests for abort and
     * validates.
     */
    method PauseElapsed()
      requires Valid()
      modifies this`state, this`events, this`phase
      ensures Valid()
      ensures old(phase).Pausing? && old(phase).index + 1 < |sequence| ==>
                && state == Dialing && phase == AtTop(old(phase).index + 1)
                && events == old(events) + [StateChanged(old(state), Dialing)]
      ensures old(phase).Pausing? && old(phase).index + 1 == |sequence| && old(state) == Aborted ==>
                && state == Aborted && phase == NotRunning && events == old(events)
      ensures old(phase).Pausing? && old(phase).index + 1 == |sequence| && old(state) != Aborted ==>
                && state == Validating && phase == AwaitWhitelist
                && events == old(events) + [StateChanged(old(state), Validating), ValidateRequest(addressBuffer)]
      ensures !old(phase).Pausing? ==> state == old(state) && events == old(events) && phase == old(phase)
    {
      if !phase.Pausing? {
        return;
      }
      var i := phase.index;
      if i + 1 < |sequence| {
        Transition(Dialing);
        phase := AtTop(i + 1);
      } else {
        FinishLoop();
      }
    }

    /** The loop resumes at the top of its next iteration, where it tests for abort. */
    method ContinueLoop()
      requires Valid()
      modifies this`currentChevronIndex, this`events, this`phase
      ensures Valid()
      ensures old(phase).AtTop? && old(state) == Aborted ==> phase == NotRunning && events == old(events)
      ensures old(phase).AtTop? && old(state) != Aborted ==>
                var i := old(phase).index;
                && phase == AwaitRing(i) && currentChevronIndex == i
                && events == old(events) + [EncodingEvent(sequence, addressBuffer, i), WaitForRing]
      ensures !old(phase).AtTop? ==> events == old(events) && phase == old(phase)
                                     && currentChevronIndex == old(currentChevronIndex)
    {
      if !phase.AtTop? {
        return;
      }
      EnterIteration(phase.index);
    }

    /**
     * The whitelist has answered (`validateAddress`): a destination connects; otherwise
     * the hash of the buffer connects to a procedural world inside its 5 % window, and
     * everything else fails as an invalid address.
     */
    method WhitelistAnswered(answer: Option<Destination>)
      requires Valid()
      modifies this`state, this`destination, this`events, this`phase
      ensures Valid()
      ensures old(phase) == AwaitWhitelist ==> phase == NotRunning
      ensures old(phase) == AwaitWhitelist && Connection(answer, addressBuffer).Some? ==>
                var d := Connection(answer, addressBuffer).value;
                && state == ActiveOutbound && destination == Some(d)
                && events == old(events) + [StateChanged(old(state), ActiveOutbound), WormholeEstablished(d)]
      ensures old(phase) == AwaitWhitelist && Connection(answer, addressBuffer).None? ==>
                && state == Aborted && destination == old(destination)
                && events == old(events) + [StateChanged(old(state), Aborted), DialFailed]
      ensures old(phase) != AwaitWhitelist ==> && state == old(state) && destination == old(destination)
                                               && events == old(events) && phase == old(phase)
    {
      if phase != AwaitWhitelist {
        return;
      }
      phase := NotRunning;
      var connection := Resolve(answer, addressBuffer);
      Connect(connection);
    }

    /** The whitelist's destination, or else the procedural world of the hash, if any. */
    method Resolve(answer: Option<Destination>, buffer: seq<int>) returns (connection: Option<Destination>)
      ensures connection == Connection(answer, buffer)
    {
      connection := answer;
      if answer.None? {
        var hash := HashAddress(buffer);
        connection := if InProceduralWindow(hash) then Some(ProceduralDestination(hash)) else None;
      }
    }

    /** The end of `validateAddress`: open the wormhole to a destination, or fail. */
    method Connect(connection: Option<Destination>)
      modifies this`state, this`destination, this`events
      ensures connection.Some? ==>
                && state == ActiveOutbound && destination == connection
                && events == old(events) + [StateChanged(old(state), ActiveOutbound), WormholeEstablished(connection.value)]
      ensures connection.None? ==>
                && state == Aborted && destination == old(destination)
                && events == old(events) + [StateChanged(old(state), Aborted), DialFailed]
    {
      match connection
      case Some(d) =>
        destination := Some(d);
        Transition(ActiveOutbound);
        events := events + [WormholeEstablished(d)];
      case None =>
        Transition(Aborted);
        events := events + [DialFailed];
    }

    /** `hashAddress`: the djb2-style fold over the glyphs, then its absolute value. */
    method HashAddress(buffer: seq<int>) returns (hash: nat)
      ensures hash == AddressHash(buffer)
    {
      var h := HashSeed;
      for i := 0 to |buffer|
        invariant h == HashFold(buffer[..i])
      {
        assert buffer[..i + 1][..i] == buffer[..i];
        h := ((ToInt32(ToInt32(h) * 32)) + h) + buffer[i];
      }
      assert buffer[..|buffer|] == buffer;
      hash := if h < 0 then -h else h;
    }

    /**
     * `abort`: from any state to `aborted`, announcing whether a wormhole was open. The
     * delayed `reset` it schedules is a separate `Reset` call by the environment.
     */
    method Abort()
      requires Valid()
      modifies this`state, this`events
      ensures Valid()
      ensures state == Aborted
      ensures events == old(events) + [StateChanged(old(state), Aborted),
                                       AbortAnnounced(old(state) == ActiveOutbound || old(state) == ActiveIncoming)]
    {
      var wasActive := state == ActiveOutbound || state == ActiveIncoming;
      Transition(Aborted);
      events := events + [AbortAnnounced(wasActive)];
    }

    /** `shutdown`: to `shutdown`; the delayed `reset` is again the environment's. */
    method Shutdown()
      requires Valid()
      modifies this`state, this`events
      ensures Valid()
      ensures state == GateState.Shutdown
      ensures events == old(events) + [StateChanged(old(state), GateState.Shutdown), ShutdownAnnounced]
    {
      Transition(GateState.Shutdown);
      events := events + [ShutdownAnnounced];
    }

    /**
     * `reset`: back to `idle` with an empty attempt, keeping the mode; it sets the state
     * directly, without a `stateChange` event, and leaves a suspended dial loop suspended.
     */
    method Reset()
      requires Valid()
      modifies this`state, this`addressBuffer, this`lockedChevrons, this`currentChevronIndex,
               this`destination, this`events
      ensures Valid()
      ensures Snap() == ResetSnapshot(old(mode))
      ensures events == old(events) + [ResetAnnounced]
    {
      state := Idle;
      addressBuffer := [];
      lockedChevrons := [];
      currentChevronIndex := 0;
      destination := None;
      events := events + [ResetAnnounced];
    }

    method GetState() returns (s: GateState)
      ensures s == state
    {
      return state;
    }

    method GetMode() returns (m: int)
      requires Valid()
      ensures m == mode && IsDialMode(m)
    {
      return mode;
    }

    /** A copy of the buffer: at most mode - 1 glyphs, none twice. */
    method GetBuffer() returns (b: seq<int>)
      requires Valid()
      ensures b == addressBuffer
      ensures |b| <= mode - 1 && Distinct(b)
    {
      return addressBuffer;
    }

    method GetLockedChevrons() returns (c: seq<nat>)
      ensures c == lockedChevrons
    {
      return lockedChevrons;
    }
  }

  /**
   * A dial that nobody aborts, with the ring, the pause timer and the loop driven in
   * turn: every chevron of the mode locks, in the criss-cross order, the encodings
   * announced are exactly the dial plan of the buffer, and validation is requested.
   */
  method DialUninterrupted(g: GateStateMachine)
    requires g.Valid() && g.phase == NotRunning && g.state == Dialing
    modifies g
    ensures g.Valid()
    ensures g.state == Validating && g.phase == AwaitWhitelist
    ensures g.mode == old(g.mode) && g.addressBuffer == old(g.addressBuffer)
    ensures g.lockedChevrons == old(g.lockedChevrons) + DialSequence(g.mode)
    ensures |old(g.events)| < |g.events| && g.events[..|old(g.events)|] == old(g.events)
    ensures Encodings(g.events[|old(g.events)|..]) == DialPlan(g.mode, g.addressBuffer)
    ensures g.events[|g.events| - 1] == ValidateRequest(g.addressBuffer)
  {
    ghost var e0 := g.events;
    var started := g.InitiateDialSequence();
    ghost var first := [EncodingEvent(g.sequence, g.addressBuffer, 0), WaitForRing];
    ghost var rest := RunDialLoop(g);
    EncodingsOfDial(g.sequence, g.addressBuffer, first, rest);
    assert g.events[|e0|..] == first + rest;
  }

  /**
   * The undisturbed dial loop from the wait for the first ring to the validation
   * request: the whole lock order locks and the remaining chevrons are announced.
   */
  method RunDialLoop(g: GateStateMachine) returns (ghost log: seq<Event>)
    requires g.Valid() && IsDialMode(|g.sequence|) && g.phase == AwaitRing(0) && g.state == Dialing
    modifies g
    ensures g.Valid()
    ensures g.sequence == old(g.sequence) && g.mode == old(g.mode) && g.addressBuffer == old(g.addressBuffer)
    ensures g.state == Validating && g.phase == AwaitWhitelist
    ensures g.lockedChevrons == old(g.lockedChevrons) + g.sequence
    ensures g.events == old(g.events) + log
    ensures Encodings(log) == PlanOf(g.sequence, g.addressBuffer)[1..]
    ensures |log| > 0 && log[|log| - 1] == ValidateRequest(g.addressBuffer)
  {
    ghost var sq := g.sequence;
    ghost var locked0 := g.lockedChevrons;
    var middle := DialToChevron(g, |g.sequence| - 1);
    ghost var locked1 := g.lockedChevrons;
    var last := LockLastChevron(g);
    EncodingsOfLoop(sq, g.addressBuffer, middle, last);
    LockedGrow(locked0, locked1, g.lockedChevrons, sq, |sq| - 1);
    log := middle + last;
  }

  /**
   * The undisturbed dial loop from the wait for the first ring to the wait for ring k:
   * the first k chevrons of the lock order lock, and the announcements are those of
   * iterations 1 to k.
   */
  method DialToChevron(g: GateStateMachine, k: nat) returns (ghost tail: seq<Event>)
    requires g.Valid() && IsDialMode(|g.sequence|) && g.phase == AwaitRing(0) && g.state == Dialing
    requires k < |g.sequence|
    modifies g
    ensures g.Valid()
    ensures g.sequence == old(g.sequence) && g.mode == old(g.mode) && g.addressBuffer == old(g.addressBuffer)
    ensures g.phase == AwaitRing(k) && g.state == Dialing
    ensures g.events == old(g.events) + tail
    ensures g.lockedChevrons == old(g.lockedChevrons) + g.sequence[..k]
    ensures Encodings(tail) == PlanOf(g.sequence, g.addressBuffer)[1..k + 1]
  {
    ghost var sq := g.sequence;
    ghost var locked0 := g.lockedChevrons;
    tail := [];
    var i := 0;
    while i < k
      invariant 0 <= i <= k
      invariant g.Valid() && g.sequence == sq
      invariant g.mode == old(g.mode) && g.addressBuffer == old(g.addressBuffer)
      invariant g.phase == AwaitRing(i) && g.state == Dialing
      invariant g.events == old(g.events) + tail
      invariant g.lockedChevrons == locked0 + sq[..i]
      invariant Encodings(tail) == PlanOf(sq, g.addressBuffer)[1..i + 1]
    {
      ghost var locked := g.lockedChevrons;
      var step := AdvanceChevron(g, i);
      EncodingsGrow(sq, g.addressBuffer, tail, step, i);
      LockedGrow(locked0, locked, g.lockedChevrons, sq, i);
      tail := tail + step;
      i := i + 1;
    }
  }

  /**
   * A dial aborted once k chevrons have locked, at the first point where the loop
   * honours an abort: the top of iteration k, or for k = mode the test before
   * validation. The loop stops, nothing is validated, and the locked chevrons are the
   * first k of the lock order, a proper prefix unless k = mode.
   */
  method DialAbortedAfter(g: GateStateMachine, k: nat)
    requires g.Valid() && g.phase == NotRunning && g.state == Dialing
    requires 1 <= k <= g.mode
    modifies g
    ensures g.Valid()
    ensures g.state == Aborted && g.phase == NotRunning
    ensures g.mode == old(g.mode) && g.addressBuffer == old(g.addressBuffer)
    ensures g.lockedChevrons == old(g.lockedChevrons) + DialSequence(g.mode)[..k]
    ensures |g.events| > 0 && g.events[|g.events| - 1] == AbortAnnounced(false)
  {
    var started := g.InitiateDialSequence();
    ghost var sq := g.sequence;
    assert sq == DialSequence(old(g.mode));
    var n := |g.sequence|;
    ghost var locked0 := g.lockedChevrons;
    var _ := DialToChevron(g, k - 1);
    ghost var locked1 := g.lockedChevrons;
    g.RingArrived();
    ghost var locked := g.lockedChevrons;
    LockedGrow(locked0, locked1, locked, sq, k - 1);
    if k == n {
      g.Abort();
      g.PauseElapsed();
    } else {
      g.PauseElapsed();
      g.Abort();
      g.ContinueLoop();
    }
    assert g.lockedChevrons == locked;
  }

  /**
   * An abort issued while the ring turns is lost when it is not the last chevron: the
   * lock and the pause overwrite the state, and the loop goes on to the next chevron.
   */
  method AbortWhileTurning(g: GateStateMachine, i: nat)
    requires g.Valid() && g.phase == AwaitRing(i) && i + 1 < |g.sequence|
    modifies g
    ensures g.Valid()
    ensures g.state == Dialing && g.phase == AwaitRing(i + 1)
    ensures g.lockedChevrons == old(g.lockedChevrons) + [g.sequence[i]]
  {
    g.Abort();
    g.RingArrived();
    g.PauseElapsed();
    g.ContinueLoop();
  }

  /**
   * Likewise an abort issued during the pause after a chevron other than the last: the
   * unconditional return to `dialing` overwrites it before the loop tests for it.
   */
  method AbortWhilePausing(g: GateStateMachine, i: nat)
    requires g.Valid() && g.phase == Pausing(i) && i + 1 < |g.sequence|
    modifies g
    ensures g.Valid()
    ensures g.state == Dialing && g.phase == AwaitRing(i + 1)
    ensures g.lockedChevrons == old(g.lockedChevrons)
  {
    g.Abort();
    g.PauseElapsed();
    g.ContinueLoop();
  }

  /** `reset` is idempotent: a second call leaves the same snapshot as the first. */
  method ResetTwice(g: GateStateMachine) returns (first: Snapshot, second: Snapshot)
    requires g.Valid()
    modifies g
    ensures g.Valid()
    ensures first == second == ResetSnapshot(old(g.mode))
  {
    g.Reset();
    first := g.Snap();
    g.Reset();
    second := g.Snap();
  }

  /**
   * One undisturbed iteration of the dial loop before the last: the ring arrives, the
   * chevron locks, the pause elapses and the loop announces the next chevron.
   */
  method AdvanceChevron(g: GateStateMachine, i: nat) returns (ghost step: seq<Event>)
    requires g.Valid() && IsDialMode(|g.sequence|) && i + 1 < |g.sequence|
    requires g.phase == AwaitRing(i) && g.state == Dialing
    modifies g
    ensures g.Valid()
    ensures g.sequence == old(g.sequence) && g.mode == old(g.mode) && g.addressBuffer == old(g.addressBuffer)
    ensures g.lockedChevrons == old(g.lockedChevrons) + [g.sequence[i]]
    ensures g.events == old(g.events) + step
    ensures g.phase == AwaitRing(i + 1) && g.state == Dialing
    ensures Encodings(step) == [EncodingEvent(g.sequence, g.addressBuffer, i + 1)]
  {
    g.RingArrived();
    var locked := ChevronLocked(g.sequence[i], |g.lockedChevrons|);
    g.PauseElapsed();
    g.ContinueLoop();
    var next := EncodingEvent(g.sequence, g.addressBuffer, i + 1);
    var pre := [StateChanged(Dialing, ChevronLock), locked, StateChanged(ChevronLock, Dialing)];
    step := pre + [next, WaitForRing];
    EncodingsOfIteration(pre, next);
  }

  /** The last iteration of an undisturbed dial loop: the chevron locks and validation is requested. */
  method LockLastChevron(g: GateStateMachine) returns (ghost step: seq<Event>)
    requires g.Valid() && IsDialMode(|g.sequence|)
    requires g.phase == AwaitRing(|g.sequence| - 1) && g.state == Dialing
    modifies g
    ensures g.Valid()
    ensures g.sequence == old(g.sequence) && g.mode == old(g.mode) && g.addressBuffer == old(g.addressBuffer)
    ensures g.lockedChevrons == old(g.lockedChevrons) + [g.sequence[|g.sequence| - 1]]
    ensures g.events == old(g.events) + step
    ensures g.phase == AwaitWhitelist && g.state == Validating
    ensures Encodings(step) == [] && |step| > 0 && step[|step| - 1] == ValidateRequest(g.addressBuffer)
  {
    g.RingArrived();
    var locked := ChevronLocked(g.sequence[|g.sequence| - 1], |g.lockedChevrons|);
    g.PauseElapsed();
    step := [StateChanged(Dialing, ChevronLock), locked, StateChanged(ChevronLock, Validating), ValidateRequest(g.addressBuffer)];
    EncodingsOfNone(step);
  }

  /** Locking chevron k of the order after its first k extends the locked prefix by one. */
  lemma LockedGrow<T>(l0: seq<T>, l1: seq<T>, l2: seq<T>, s: seq<T>, k: nat)
    requires k < |s| && l1 == l0 + s[..k] && l2 == l1 + [s[k]]
    ensures l2 == l0 + s[..k + 1]
    ensures k + 1 == |s| ==> l2 == l0 + s
  {
    assert s[..k + 1] == s[..k] + [s[k]];
    assert s[..|s|] == s;
  }
}
