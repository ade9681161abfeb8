/**
 * The value-level rules of the gate protocol: the nine gate states, the three dial
 * modes and their criss-cross chevron order, the chevron encoding plan, the djb2-style
 * address hash with JavaScript's 32-bit shift, the procedural destination name, and
 * the events the state machine publishes.
 */
module GateRules {
  import opened Wrappers
  import Decimal

  /** GATE_STATES: exactly one is current at any time. */
  datatype GateState =
    | Idle
    | Dialing
    | ChevronLock
    | Validating
    | ActiveOutbound
    | ActiveIncoming
    | IrisCheck
    | Shutdown
    | Aborted

  /** DIAL_MODES: the number of chevrons; the address holds one glyph fewer. */
  const Local: int := 7
  const Intergalactic: int := 8
  const Destiny: int := 9

  predicate IsDialMode(m: int) { m == Local || m == Intergalactic || m == Destiny }

  /** The glyph encoded on the last chevron: the dialer's own point of origin. */
  const PointOfOrigin: int := 0

  predicate Distinct<T(==)>(s: seq<T>) {
    forall i, j :: 0 <= i < j < |s| ==> s[i] != s[j]
  }

  /** DIAL_SEQUENCES: the physical order in which the chevrons of each mode lock. */
  function DialSequence(mode: int): (s: seq<nat>)
    requires IsDialMode(mode)
    ensures |s| == mode
  {
    if mode == Local then [1, 8, 2, 7, 3, 6, 9]
    else if mode == Intergalactic then [1, 8, 2, 7, 3, 6, 4, 9]
    else [1, 8, 2, 7, 3, 6, 4, 5, 9]
  }

  /**
   * Every lock order starts at the top chevron, ends at chevron 9 (the point of origin)
   * and locks distinct chevrons among 1 to 9.
   */
  lemma DialSequenceShape(mode: int)
    requires IsDialMode(mode)
    ensures Distinct(DialSequence(mode))
    ensures DialSequence(mode)[0] == 1 && DialSequence(mode)[mode - 1] == 9
    ensures forall i :: 0 <= i < mode ==> 1 <= DialSequence(mode)[i] <= 9
  {
  }


  /** A larger mode inserts its extra chevrons just before the final one. */
  lemma {:induction false} DialSequencesNest(m: int, m': int)
    requires IsDialMode(m) && IsDialMode(m') && m <= m'
    ensures DialSequence(m)[..m - 1] <= DialSequence(m')[..m' - 1]
    ensures DialSequence(m)[m - 1] == DialSequence(m')[m' - 1]
  {
  }

  // ------------------------------------------------------------------
  // Destinations
  // ------------------------------------------------------------------

  /** A whitelist record, or a procedurally generated one of the same shape. */
  datatype Destination = Destination(name: string, kind: string, description: string)

  // ------------------------------------------------------------------
  // Events published on the event channel
  // ------------------------------------------------------------------

  datatype InputError = DuplicateGlyph(glyphId: int) | BufferFull

  datatype Event =
    | StateChanged(from: GateState, to: GateState)
    | ModeChanged(mode: int)
    | GlyphRejected(error: InputError)
    | GlyphAdded(glyphId: int, buffer: seq<int>)
    | ChevronEncoding(chevronNum: nat, index: nat, isLast: bool, encoded: Option<int>)
    | WaitForRing
    | ChevronLocked(chevronNum: nat, total: nat)
    | ValidateRequest(buffer: seq<int>)
    | WormholeEstablished(destination: Destination)
    | DialFailed
    | AbortAnnounced(wasActive: bool)
    | ShutdownAnnounced
    | ResetAnnounced

  // ------------------------------------------------------------------
  // Chevron encoding
  // ------------------------------------------------------------------

  /**
   * The glyph announced for position i of an n-chevron dial: the point of origin on
   * the last position, otherwise the i-th glyph of the buffer, and nothing (JavaScript
   * `undefined`) where the buffer is shorter than the dial.
   */
  function EncodedGlyph(buffer: seq<int>, i: nat, n: nat): (g: Option<int>)
    ensures g.None? <==> i + 1 != n && |buffer| <= i
    ensures i + 1 == n ==> g == Some(PointOfOrigin)
    ensures i + 1 != n && g.Some? ==> i < |buffer| && g.value == buffer[i]
  {
    if i + 1 == n then Some(PointOfOrigin)
    else if i < |buffer| then Some(buffer[i])
    else None
  }

  /** The `chevronEncoding` event of iteration i of the dial loop. */
  function EncodingEvent(sequence: seq<nat>, buffer: seq<int>, i: nat): Event
    requires i < |sequence|
  {
    ChevronEncoding(sequence[i], i, i + 1 == |sequence|, EncodedGlyph(buffer, i, |sequence|))
  }

  /** The `chevronEncoding` events of a complete dial with the given lock order. */
  function PlanOf(sequence: seq<nat>, buffer: seq<int>): (plan: seq<Event>)
    ensures |plan| == |sequence|
  {
    seq(|sequence|, i requires 0 <= i < |sequence| => EncodingEvent(sequence, buffer, i))
  }

  /** The `chevronEncoding` events of a complete dial in the given mode. */
  function DialPlan(mode: int, buffer: seq<int>): (plan: seq<Event>)
    requires IsDialMode(mode)
    ensures |plan| == mode
  {
    PlanOf(DialSequence(mode), buffer)
  }

  /**
   * The plan announces every chevron of the lock order in turn, marks only the last,
   * encodes the point of origin there, the buffer's glyphs before it, and nothing
   * where the buffer is too short.
   */
  lemma DialPlanShape(mode: int, buffer: seq<int>)
    requires IsDialMode(mode)
    ensures var plan := DialPlan(mode, buffer);
      && (forall i :: 0 <= i < mode ==> plan[i].ChevronEncoding? && plan[i].index == i)
      && (forall i :: 0 <= i < mode ==> plan[i].chevronNum == DialSequence(mode)[i])
      && plan[mode - 1].isLast && plan[mode - 1].encoded == Some(PointOfOrigin)
      && (forall i :: 0 <= i < mode - 1 ==> !plan[i].isLast)
      && (forall i :: 0 <= i < mode - 1 && i < |buffer| ==> plan[i].encoded == Some(buffer[i]))
      && (forall i :: |buffer| <= i < mode - 1 ==> plan[i].encoded == None)
  {
  }

  /** The `chevronEncoding` events among a stretch of published events, in order. */
  function Encodings(es: seq<Event>): seq<Event> {
    if es == [] then [] else EncodingOf(es[0]) + Encodings(es[1..])
  }

  function EncodingOf(e: Event): seq<Event> {
    if e.ChevronEncoding? then [e] else []
  }

  lemma {:induction false} EncodingsAppend(a: seq<Event>, b: seq<Event>)
    ensures Encodings(a + b) == Encodings(a) + Encodings(b)
  {
    if a == [] {
      assert a + b == b;
    } else {
      var ab := a + b;
      assert ab[0] == a[0] && ab[1..] == a[1..] + b;
      EncodingsAppend(a[1..], b);
      assert Encodings(ab) == EncodingOf(a[0]) + (Encodings(a[1..]) + Encodings(b));
      assert Encodings(a) == EncodingOf(a[0]) + Encodings(a[1..]);
    }
  }


  /** An iteration's announcement: the encoding, then the request to turn the ring. */
  lemma EncodingsOfAnnouncement(e: Event)
    requires e.ChevronEncoding?
    ensures Encodings([e, WaitForRing]) == [e]
  {
    assert [e, WaitForRing][1..] == [WaitForRing];
    assert [WaitForRing][1..] == [];
  }

  lemma {:induction false} EncodingsOfNone(es: seq<Event>)
    requires forall i :: 0 <= i < |es| ==> !es[i].ChevronEncoding?
    ensures Encodings(es) == []
  {
    if es != [] {
      EncodingsOfNone(es[1..]);
    }
  }

  /** An iteration's events: some that announce nothing, then the next chevron and the wait. */
  lemma EncodingsOfIteration(pre: seq<Event>, next: Event)
    requires forall i :: 0 <= i < |pre| ==> !pre[i].ChevronEncoding?
    requires next.ChevronEncoding?
    ensures Encodings(pre + [next, WaitForRing]) == [next]
  {
    EncodingsOfNone(pre);
    EncodingsAppend(pre, [next, WaitForRing]);
    EncodingsOfAnnouncement(next);
  }

  /** The encodings of the loop so far grow by the announcement of the next iteration. */
  lemma EncodingsGrow(sq: seq<nat>, buffer: seq<int>, tail: seq<Event>, step: seq<Event>, i: nat)
    requires i + 1 < |sq|
    requires Encodings(tail) == PlanOf(sq, buffer)[1..i + 1]
    requires Encodings(step) == [EncodingEvent(sq, buffer, i + 1)]
    ensures Encodings(tail + step) == PlanOf(sq, buffer)[1..i + 2]
  {
    var plan := PlanOf(sq, buffer);
    EncodingsAppend(tail, step);
    SliceSnoc(plan, 1, i + 1);
    assert plan[i + 1] == EncodingEvent(sq, buffer, i + 1);
  }

  lemma SliceSnoc<T>(s: seq<T>, a: nat, b: nat)
    requires a <= b < |s|
    ensures s[a..b + 1] == s[a..b] + [s[b]]
  {
  }

  /** The loop announces chevrons 1 to n - 1 before the last ring, and none after it. */
  lemma EncodingsOfLoop(sq: seq<nat>, buffer: seq<int>, middle: seq<Event>, last: seq<Event>)
    requires 0 < |sq|
    requires Encodings(middle) == PlanOf(sq, buffer)[1..|sq|] && Encodings(last) == []
    ensures Encodings(middle + last) == PlanOf(sq, buffer)[1..]
  {
    EncodingsAppend(middle, last);
  }

  /**
   * A dial's log is the first announcement followed by the events of the loop, which
   * announce the other chevrons: together they announce the whole plan.
   */
  lemma EncodingsOfDial(sq: seq<nat>, buffer: seq<int>, first: seq<Event>, rest: seq<Event>)
    requires IsDialMode(|sq|) && sq == DialSequence(|sq|)
    requires first == [EncodingEvent(sq, buffer, 0), WaitForRing]
    requires Encodings(rest) == PlanOf(sq, buffer)[1..]
    ensures Encodings(first + rest) == DialPlan(|sq|, buffer)
  {
    var plan := DialPlan(|sq|, buffer);
    EncodingsOfAnnouncement(first[0]);
    EncodingsAppend(first, rest);
    assert plan == [plan[0]] + plan[1..];
  }

  /**
   * The lock order does not depend on the glyphs: two buffers give the same chevron
   * numbers, and the same glyphs wherever they agree.
   */
  lemma DialPlanLockOrder(mode: int, b1: seq<int>, b2: seq<int>, i: nat)
    requires IsDialMode(mode) && i < mode
    ensures DialPlan(mode, b1)[i].chevronNum == DialPlan(mode, b2)[i].chevronNum
    ensures i < |b1| && i < |b2| && b1[i] == b2[i] ==> DialPlan(mode, b1)[i] == DialPlan(mode, b2)[i]
  {
  }

  // ------------------------------------------------------------------
  // The address hash
  // ------------------------------------------------------------------

  const Two31: int := 0x8000_0000
  const Two32: int := 0x1_0000_0000

  /** JavaScript's ToInt32: the integer congruent to x modulo 2^32 in [-2^31, 2^31). */
  function ToInt32(x: int): (r: int)
    ensures -Two31 <= r < Two31
    ensures (x - r) % Two32 == 0
  {
    var m := x % Two32;
    if m >= Two31 then m - Two32 else m
  }

  /** `h << 5`: the operand is converted with ToInt32 and the shifted value wraps again. */
  function ShiftLeft5(h: int): (r: int)
    ensures -Two31 <= r < Two31
    ensures (r - h * 32) % Two32 == 0
  {
    var t := ToInt32(h);
    var r := ToInt32(t * 32);
    AddMultiple(r - h * 32, (h - t) / Two32 * 32 - (r - t * 32) / Two32);
    r
  }

  const HashSeed: int := 5381

  /** One step of the fold: `((hash << 5) + hash) + id`, whose additions do not wrap. */
  function HashStep(h: int, id: int): (r: int)
    ensures (r - (33 * h + id)) % Two32 == 0
  {
    (ShiftLeft5(h) + h) + id
  }

  /** The accumulator of the hash after folding the glyphs of `buffer` in order. */
  function HashFold(buffer: seq<int>): int {
    if buffer == [] then HashSeed
    else HashStep(HashFold(buffer[..|buffer| - 1]), buffer[|buffer| - 1])
  }

  /** `hashAddress(buffer)`: the absolute value of the fold. */
  function AddressHash(buffer: seq<int>): (h: nat)
    ensures h == HashFold(buffer) || h == -HashFold(buffer)
  {
    var f := HashFold(buffer);
    if f < 0 then -f else f
  }

  /** The textbook djb2 over 32-bit unsigned words, as an independent reference. */
  function Djb2Unsigned(buffer: seq<int>): (h: int)
    ensures 0 <= h < Two32
  {
    if buffer == [] then HashSeed
    else (33 * Djb2Unsigned(buffer[..|buffer| - 1]) + buffer[|buffer| - 1]) % Two32
  }

  /**
   * Modulo 2^32 the source's fold is the textbook djb2: the unwrapped additions only
   * add multiples of 2^32.
   */
  lemma {:induction false} HashFoldIsDjb2(buffer: seq<int>)
    ensures HashFold(buffer) % Two32 == Djb2Unsigned(buffer)
  {
    if buffer != [] {
      var p := buffer[..|buffer| - 1];
      var id := buffer[|buffer| - 1];
      var h := HashFold(p);
      HashFoldIsDjb2(p);
      var u := Djb2Unsigned(p);
      var t := ToInt32(h);
      var s := ToInt32(t * 32);
      var k1 := (h - t) / Two32;
      var k2 := (t * 32 - s) / Two32;
      var k3 := h / Two32;
      assert h - t == Two32 * k1;
      assert t * 32 - s == Two32 * k2;
      assert h == Two32 * k3 + u;
      assert HashFold(buffer) == (33 * u + id) + Two32 * (33 * k3 - 32 * k1 - k2);
      AddMultiple(33 * u + id, 33 * k3 - 32 * k1 - k2);
    }
  }

  /** Adding a multiple of 2^32 does not change the residue. */
  lemma AddMultiple(y: int, q: int)
    ensures (y + Two32 * q) % Two32 == y % Two32
  {
    var r := y % Two32;
    var d := y / Two32;
    assert y + Two32 * q == Two32 * (d + q) + r;
  }

  /**
   * Each step moves the accumulator by at most 2^31 plus the glyph, so for the short
   * buffers the gate accepts the exact integer fold stays far below 2^53, where
   * JavaScript numbers are exact.
   */
  lemma {:induction false} HashFoldBounded(buffer: seq<int>, bound: int)
    requires 0 <= bound
    requires forall i :: 0 <= i < |buffer| ==> -bound <= buffer[i] <= bound
    ensures -(HashSeed + |buffer| * (Two31 + bound)) <= HashFold(buffer) <= HashSeed + |buffer| * (Two31 + bound)
  {
    if buffer != [] {
      var p := buffer[..|buffer| - 1];
      HashFoldBounded(p, bound);
      assert buffer[..|buffer| - 1] == p && |buffer| == |p| + 1;
      assert -Two31 <= ShiftLeft5(HashFold(p)) < Two31;
      assert -bound <= buffer[|buffer| - 1] <= bound;
      MulSucc(|p|, Two31 + bound);
    }
  }

  lemma MulSucc(n: int, c: int)
    ensures n * c + c == (n + 1) * c
  {
  }

  /** The published test vector: the address 1-8-2-7-3-6 hashes to 180758624. */
  lemma SampleAddressHash()
    ensures AddressHash([1, 8, 2, 7, 3, 6]) == 180758624
  {
    assert HashFold([1]) == 177574 by {
      HashFoldSnoc([], 1);
      assert [] + [1] == [1];
      ShiftOfSample(5381, 0, 172192);
    }
    assert HashFold([1, 8]) == 5859950 by {
      HashFoldSnoc([1], 8);
      assert [1] + [8] == [1, 8];
      ShiftOfSample(177574, 0, 5682368);
    }
    assert HashFold([1, 8, 2]) == 193378352 by {
      HashFoldSnoc([1, 8], 2);
      assert [1, 8] + [2] == [1, 8, 2];
      ShiftOfSample(5859950, 0, 187518400);
    }
    assert HashFold([1, 8, 2, 7]) == 2086518327 by {
      HashFoldSnoc([1, 8, 2], 7);
      assert [1, 8, 2] + [7] == [1, 8, 2, 7];
      ShiftOfSample(193378352, 1, 1893139968);
    }
    assert HashFold([1, 8, 2, 7, 3]) == 135628058 by {
      HashFoldSnoc([1, 8, 2, 7], 3);
      assert [1, 8, 2, 7] + [3] == [1, 8, 2, 7, 3];
      ShiftOfSample(2086518327, 15, 2344077024);
    }
    assert HashFold([1, 8, 2, 7, 3, 6]) == 180758624 by {
      HashFoldSnoc([1, 8, 2, 7, 3], 6);
      assert [1, 8, 2, 7, 3] + [6] == [1, 8, 2, 7, 3, 6];
      ShiftOfSample(135628058, 1, 45130560);
    }
  }

  /** `h << 5` for a non-negative 32-bit h, given the quotient and remainder of 32 h by 2^32. */
  lemma ShiftOfSample(h: int, q: int, r: int)
    requires 0 <= h < Two31 && 0 <= r < Two32 && h * 32 == q * Two32 + r
    ensures ShiftLeft5(h) == if r >= Two31 then r - Two32 else r
  {
    assert h % Two32 == h;
    assert (h * 32) % Two32 == r;
  }

  lemma HashFoldSnoc(p: seq<int>, id: int)
    ensures HashFold(p + [id]) == HashStep(HashFold(p), id)
  {
    assert (p + [id])[..|p|] == p;
  }

  // ------------------------------------------------------------------
  // Procedural destinations
  // ------------------------------------------------------------------

  /** The 5 % window in which an unknown address still connects. */
  predicate InProceduralWindow(hash: nat) { hash % 100 < 5 }

  /** `P{hash % 9}X-{hash % 999 padded to three digits}`. */
  function ProceduralName(hash: nat): (name: string)
    ensures |name| == 7 && name[0] == 'P' && name[2] == 'X' && name[3] == '-'
    ensures Decimal.IsDigit(name[1]) && Decimal.DigitValue(name[1]) == hash % 9
    ensures Decimal.AllDigits(name[4..]) && Decimal.Value(name[4..]) == hash % 999
  {
    var world := Decimal.ToDecimal(hash % 9);
    var serial := Decimal.ToDecimal(hash % 999);
    Decimal.ValueOfToDecimal(hash % 9);
    Decimal.ValueOfToDecimal(hash % 999);
    Decimal.ToDecimalLength(hash % 999, 3);
    var padded := Decimal.PadStartZero(serial, 3);
    var name := "P" + world + "X-" + padded;
    assert name[4..] == padded;
    name
  }

  function ProceduralDestination(hash: nat): Destination {
    Destination(ProceduralName(hash), "unknown", "Unexplored world")
  }

  /**
   * What `validateAddress` connects to: the whitelist's destination when it has one,
   * otherwise the procedural world of the address hash inside its window, otherwise
   * nothing (the dial fails).
   */
  function Connection(answer: Option<Destination>, buffer: seq<int>): (r: Option<Destination>)
    ensures answer.Some? ==> r == answer
    ensures answer.None? ==> (r.Some? <==> InProceduralWindow(AddressHash(buffer)))
    ensures answer.None? && r.Some? ==> && r.value.kind == "unknown"
                                         && r.value.name == ProceduralName(AddressHash(buffer))
  {
    match answer
    case Some(_) => answer
    case None =>
      var hash := AddressHash(buffer);
      if InProceduralWindow(hash) then Some(ProceduralDestination(hash)) else None
  }

  /** Distinct names come from hashes that differ modulo 9 or modulo 999. */
  lemma ProceduralNameDetermines(h1: nat, h2: nat)
    requires ProceduralName(h1) == ProceduralName(h2)
    ensures h1 % 9 == h2 % 9 && h1 % 999 == h2 % 999
  {
    var n1, n2 := ProceduralName(h1), ProceduralName(h2);
    assert n1[4..] == n2[4..];
  }
}
