# Stargate Mark III: gate state machine and ring controller

A verified Dafny model of the two stateful controllers behind the Stargate dialing
widget.

- `GateStateMachine` (`Stargate/mark3/engine.js`) is the gate's protocol machine. It
  covers:
  - the nine gate states and the three dial modes;
  - the address buffer and its canon rules (no duplicate glyph, at most `mode - 1` glyphs,
    editable only in `idle` or `dialing`);
  - the criss-cross chevron lock order;
  - the dial loop;
  - validation against a whitelist, with a djb2-style hash as a 5 % procedural fallback;
  - `abort`, `shutdown` and `reset`.
- `RingController` (`Stargate/versions/mark3/ring.js`) turns the glyph ring. The model
  covers its discrete control state:
  - the target `rotateToGlyph` chooses;
  - the single pending arrival continuation, and how `arrive` and `stop` resolve it;
  - `reset`, `destroy` and the glyph index read at the top.

Files:

- `wrappers.dfy`: `Option`.
- `decimal.dfy`: JavaScript's `String(n)` and `padStart(3, '0')`, with a parser as
  their partner.
- `gate_rules.dfy`: the value-level rules. These are the states, modes and lock orders,
  the chevron encoding plan, the events the machine publishes, the 32-bit hash, the
  procedural destination and the three outcomes of validation.
- `gate_engine.dfy`: `class GateStateMachine`, plus driver methods that compose its steps
  into whole dials.
- `ring.dfy`: `class RingController` and its angle arithmetic.

How the asynchronous code is modelled:

- **Dial loop.** `initiateDialSequence` is an `async` loop. It becomes a step machine: the
  field `phase` records where the suspended loop stands. The environment resumes it with
  `RingArrived`, `PauseElapsed`, `ContinueLoop` and `WhitelistAnswered`, and may call any
  public operation (`Abort`, `Reset`, `AddGlyph`, ...) between two steps.
- **Listeners.** The `stateChange` listeners run synchronously inside `transition`, so an
  abort can also come from a listener. The phase `AtTop(i)` models the point after the
  `dialing` transition and before the loop's abort test.
- **Events.** Every `emit` appends to the log `events`.
- **Ring continuations.** A continuation handed to `rotateToGlyph` is a token. Resolving
  it appends the token to `resumed`. The invariant `Valid()` shows each token is resolved
  at most once, and only after it was issued.
- **Hash arithmetic.** `hash << 5` is modelled with an explicit `ToInt32` on its operand
  and on its result. The two additions after the shift do not wrap. This is how JavaScript
  evaluates `((hash << 5) + hash) + id`.
- **Angles.** Angles are reals. JavaScript's `%` on them is the truncating remainder
  `Rem360`.

The code behaves as follows at points a reader may not expect:

- **`normalizedDiff` range.** The value lies in [-180, 180): a turn of exactly 180° normalises to -180.
  `ChooseTarget` states the actual range.
- **Forced direction.** With an explicit direction, the target is the glyph's absolute
  angle plus or minus one turn, whatever the current angle.
- **Abort after a suspension.** The loop does not test for abort when a suspension
  resumes; it tests only at the top of an iteration and before validation.
  - An abort issued while the ring turns is overwritten by the unconditional
    `chevron_lock` transition (`RingArrived`, `AbortWhileTurning`).
  - An abort issued during the pause after a chevron other than the last is overwritten by
    the return to `dialing` (`AbortWhilePausing`).
  - An abort during the pause after the last chevron stops validation with every chevron
    locked (`DialAbortedAfter` with k = mode). So an aborted dial can hold the whole
    lock order.
- **`reset` events.** `reset` sets the state directly. It emits `reset` but no
  `stateChange`.

## Model

| member | source | states |
|---|---|---|
| GateRules.DialSequence | Stargate/mark3/engine.js:28-32 | the lock order of a mode has exactly `mode` chevrons |
| GateRules.DialSequenceShape | Stargate/mark3/engine.js:27-32 | every lock order starts at chevron 1, ends at chevron 9, and locks distinct chevrons among 1..9 |
| GateRules.DialSequencesNest | Stargate/mark3/engine.js:28-32 | a larger mode keeps the smaller mode's order and inserts its extra chevrons just before the final chevron 9 |
| GateRules.EncodedGlyph | Stargate/mark3/engine.js:128 | the glyph announced at position i is the point of origin 0 exactly at the last position, otherwise buffer glyph i, and nothing exactly when the buffer ends before i |
| GateRules.EncodingEvent | Stargate/mark3/engine.js:120-129 | the `chevronEncoding` event of iteration i; no contract of its own, `DialPlanShape` states its fields |
| GateRules.DialPlan | Stargate/mark3/engine.js:114-129 | a dial announces exactly `mode` chevron encodings |
| GateRules.DialPlanShape | Stargate/mark3/engine.js:119-129 | encoding i names the i-th chevron of the lock order; only the last is marked last; the last carries the point of origin 0; earlier ones carry buffer glyph i, or nothing past the buffer's end |
| GateRules.DialPlanLockOrder | Stargate/mark3/engine.js:120-128 | the chevron numbers do not depend on the buffer; two buffers that agree at i give the same encoding i |
| GateRules.EncodingsOfDial | Stargate/mark3/engine.js:116-144 | the first announcement followed by the loop's events announces exactly the dial plan |
| GateRules.ToInt32 | Stargate/mark3/engine.js:195 | the result is a signed 32-bit value congruent to the input modulo 2^32 |
| GateRules.ShiftLeft5 | Stargate/mark3/engine.js:195 | `hash << 5` is a signed 32-bit value congruent to 32 · hash modulo 2^32 |
| GateRules.HashStep | Stargate/mark3/engine.js:195 | one step `((hash << 5) + hash) + id` is congruent to 33 · hash + id modulo 2^32 |
| GateRules.HashFold | Stargate/mark3/engine.js:192-196 | the accumulator after the `forEach`; no contract of its own, `HashFoldIsDjb2` and `HashFoldBounded` state its properties and `HashAddress` computes it by a loop |
| GateRules.AddressHash | Stargate/mark3/engine.js:191-198 | the hash is a non-negative integer equal to the fold or its negation |
| GateRules.Djb2Unsigned | Stargate/mark3/engine.js:192-196 | the textbook djb2 over unsigned 32-bit words, as an independent reference; its value is below 2^32 |
| GateRules.HashFoldIsDjb2 | Stargate/mark3/engine.js:192-196 | modulo 2^32 the source's fold, with its unwrapped additions, equals the textbook djb2 |
| GateRules.HashFoldBounded | Stargate/mark3/engine.js:193-196 | for glyphs bounded by b, the fold stays within 5381 + n(2^31 + b), far below 2^53, where the unwrapped additions are exact |
| GateRules.SampleAddressHash | Stargate/mark3/engine.js:191-198 | the address 1-8-2-7-3-6 hashes to 180758624; the fold wraps at the fourth glyph |
| GateRules.ProceduralName | Stargate/mark3/engine.js:166 | the name is 7 characters, `P`, one digit with value hash % 9, `X-`, then three digits whose value is hash % 999 |
| GateRules.ProceduralNameDetermines | Stargate/mark3/engine.js:166 | equal names come from hashes equal modulo 9 and modulo 999 |
| GateRules.InProceduralWindow | Stargate/mark3/engine.js:164 | the predicate `hash % 100 < 5`; `Connection` states that an unknown address connects exactly inside it |
| GateRules.ProceduralDestination | Stargate/mark3/engine.js:165-169 | the procedural world record; no contract of its own, `Connection` states its type `unknown` and its name, and `ProceduralName` the name's format |
| GateRules.Connection | Stargate/mark3/engine.js:153-177 | a whitelist answer connects to that destination; without one the address connects exactly when its hash is in the 5 % window, to the procedural world of type `unknown` |
| Decimal.ToDecimal | Stargate/mark3/engine.js:166 | `String(n)` is a non-empty digit string, one digit exactly when n < 10 |
| Decimal.ValueOfToDecimal | Stargate/mark3/engine.js:166 | reading back `String(n)` gives n |
| Decimal.ToDecimalLength | Stargate/mark3/engine.js:166 | a number below 10^k renders in at most k digits, so hash % 999 needs no more than three |
| Decimal.PadStartZero | Stargate/mark3/engine.js:166 | `padStart(w, '0')` has length max(len, w) and keeps the value of a digit string |
| GateEngine.GateStateMachine.constructor | Stargate/mark3/engine.js:38-46 | a new machine is idle in local mode with an empty buffer, no locked chevrons, index 0, no destination and the invariant |
| GateEngine.GateStateMachine.Transition | Stargate/mark3/engine.js:63-68 | the state becomes the target and one `stateChange(from, to)` is published |
| GateEngine.GateStateMachine.SetMode | Stargate/mark3/engine.js:71-76 | succeeds exactly in `idle`; then only the mode changes and `modeChange` is published; otherwise nothing changes |
| GateEngine.GateStateMachine.AddGlyph | Stargate/mark3/engine.js:78-104 | succeeds exactly in `idle`/`dialing` for a new glyph below the limit, appending it and moving `idle` to `dialing`; a duplicate is reported as such even when the buffer is full; a full buffer reports `buffer_full`; a refusal leaves buffer and state unchanged; the invariant (length ≤ mode − 1, distinct) is kept |
| GateEngine.GateStateMachine.LockChevron | Stargate/mark3/engine.js:106-109 | appends the chevron and publishes the new total |
| GateEngine.GateStateMachine.InitiateDialSequence | Stargate/mark3/engine.js:111-132 | starts exactly in `dialing`: captures the mode's lock order, announces chevron 0 and waits for the ring; otherwise changes nothing |
| GateEngine.GateStateMachine.EnterIteration | Stargate/mark3/engine.js:116-132 | at the top of an iteration an abort ends the loop silently; otherwise the chevron's encoding is announced and the ring awaited |
| GateEngine.GateStateMachine.RingArrived | Stargate/mark3/engine.js:132-139 | on a ring wait the state becomes `chevron_lock` whatever it was, the iteration's chevron is locked and the pause begins; otherwise nothing happens |
| GateEngine.GateStateMachine.PauseElapsed | Stargate/mark3/engine.js:139-150 | after a chevron other than the last the state returns to `dialing` unconditionally; after the last, an abort ends the loop and otherwise validation is requested |
| GateEngine.GateStateMachine.ContinueLoop | Stargate/mark3/engine.js:116-132 | after the listeners of the `dialing` transition, the loop honours an abort or announces the next chevron |
| GateEngine.GateStateMachine.FinishLoop | Stargate/mark3/engine.js:146-150 | after the loop an abort stops it, otherwise the state becomes `validating` and the whitelist is asked |
| GateEngine.GateStateMachine.WhitelistAnswered | Stargate/mark3/engine.js:153-177 | the three outcomes of validation: `active_outbound` with the `Connection` destination and `wormholeEstablished`, or `aborted` with `dialFailed` |
| GateEngine.GateStateMachine.Resolve | Stargate/mark3/engine.js:155-169 | the destination chosen, computed with the hash loop, is exactly `Connection` |
| GateEngine.GateStateMachine.Connect | Stargate/mark3/engine.js:157-176 | a destination is stored and announced with `active_outbound`; no destination leaves it unchanged and fails with `aborted` |
| GateEngine.GateStateMachine.HashAddress | Stargate/mark3/engine.js:191-198 | the loop over the buffer computes exactly `AddressHash` |
| GateEngine.GateStateMachine.Abort | Stargate/mark3/engine.js:200-205 | from any state the machine ends `aborted`, announcing `wasActive` exactly when it was `active_outbound` or `active_incoming` |
| GateEngine.GateStateMachine.Shutdown | Stargate/mark3/engine.js:211-213 | from any state the machine ends in `shutdown` and announces it |
| GateEngine.GateStateMachine.Reset | Stargate/mark3/engine.js:218-225 | the snapshot is idle with empty buffer and locked list, index 0, no destination and the mode unchanged; only `reset` is published |
| GateEngine.GateStateMachine.GetState | Stargate/mark3/engine.js:239 | returns the current state |
| GateEngine.GateStateMachine.GetMode | Stargate/mark3/engine.js:240 | returns the mode, always 7, 8 or 9 |
| GateEngine.GateStateMachine.GetBuffer | Stargate/mark3/engine.js:241 | returns the buffer, which holds at most mode − 1 distinct glyphs |
| GateEngine.GateStateMachine.GetLockedChevrons | Stargate/mark3/engine.js:242 | returns the locked chevrons |
| GateEngine.DialUninterrupted | Stargate/mark3/engine.js:111-150 | a dial nobody aborts locks exactly the mode's lock order, in order; announces exactly the dial plan; and ends `validating` with a validation request |
| GateEngine.DialAbortedAfter | Stargate/mark3/engine.js:116-150 | an abort honoured once k chevrons have locked leaves the loop stopped in `aborted`, having announced the abort, with exactly the first k chevrons of the order locked |
| GateEngine.AbortWhileTurning | Stargate/mark3/engine.js:117-143 | an abort while the ring turns (not at the last chevron) is overwritten: the chevron locks and the loop goes on in `dialing` |
| GateEngine.AbortWhilePausing | Stargate/mark3/engine.js:139-143 | an abort during the pause after a non-last chevron is overwritten and the loop goes on |
| GateEngine.ResetTwice | Stargate/mark3/engine.js:218-225 | `reset` is idempotent: two calls leave the same snapshot |
| GateEngine.AdvanceChevron | Stargate/mark3/engine.js:116-143 | one undisturbed iteration locks chevron i and announces chevron i + 1 |
| GateEngine.LockLastChevron | Stargate/mark3/engine.js:132-150 | the last undisturbed iteration locks the last chevron, announces nothing and requests validation |
| GateEngine.DialToChevron | Stargate/mark3/engine.js:116-144 | k undisturbed iterations lock the first k chevrons and announce chevrons 1 to k |
| GateEngine.RunDialLoop | Stargate/mark3/engine.js:116-150 | the undisturbed loop locks the whole order and announces every chevron after the first |
| Ring.Rem360 | Stargate/versions/mark3/ring.js:164 | `x % 360` has the sign of x, lies strictly within one turn, and points the same way as x |
| Ring.NormalizedDiff | Stargate/versions/mark3/ring.js:54-55 | the normalised turn lies in [-180, 180) and points the same way as the raw difference |
| Ring.NormalizedDiffOfWholeTurns | Stargate/versions/mark3/ring.js:55 | a whole number of turns normalises to 0 |
| Ring.GlyphAngle | Stargate/versions/mark3/ring.js:50 | the angle `-(g · 360/39)` that brings glyph g to the top; no contract of its own, `GlyphAnglesCycle` states its geometry |
| Ring.GlyphAnglesCycle | Stargate/versions/mark3/ring.js:50 | the 39 glyphs lie at 39 different directions, and glyph g + 39 lies where glyph g does |
| Ring.ChooseTarget | Stargate/versions/mark3/ring.js:50-67 | the target is congruent to the glyph's angle; a forced direction gives that angle minus (clockwise) or plus one turn; otherwise the target is the normalised turn, lengthened by a turn in its own direction below 90°, so the ring turns between 90° and 450° |
| Ring.SameGlyphSpinsFullTurn | Stargate/versions/mark3/ring.js:53-59 | asking for the glyph already on top spins one full turn backwards |
| Ring.ArrivalShowsGlyph | Stargate/versions/mark3/ring.js:50-67 | arriving at the chosen target, normalised by `% 360`, leaves the requested glyph's angle on top |
| Ring.Round | Stargate/versions/mark3/ring.js:205 | `Math.round` on a non-negative value is within one half of it |
| Ring.NormalizedAngle | Stargate/versions/mark3/ring.js:204 | the double remainder lies in [0, 360) and points the same way as the angle |
| Ring.GlyphIndexAt | Stargate/versions/mark3/ring.js:203-206 | the index read at the top is always in 0..38 |
| Ring.GlyphIndexMirrorsRotation | Stargate/versions/mark3/ring.js:203-206 | as written, at the angle of glyph g the index read is (39 − g) mod 39 |
| Ring.GlyphOneReadsAsThirtyEight | Stargate/versions/mark3/ring.js:203-206 | as written, turning to glyph 1 from rest reads back glyph 38 |
| Ring.IntendedGlyphIndex | Stargate/versions/mark3/ring.js:203-206 | the corrected index, measured on −angle, is in 0..38 |
| Ring.IntendedGlyphIndexRoundTrip | Stargate/versions/mark3/ring.js:203-206 | corrected, the index read at the angle of glyph g is g |
| Ring.RingController.constructor | Stargate/versions/mark3/ring.js:7-39 | a new ring is at rest at angle 0 with no continuation and no frame |
| Ring.RingController.RotateToGlyph | Stargate/versions/mark3/ring.js:47-82 | the target is `ChooseTarget`; spinning starts and overshoot is cleared; the new continuation replaces the pending one; a frame handle is taken only if none is held |
| Ring.RingController.ResolvePending | Stargate/versions/mark3/ring.js:166-170 | the pending continuation, if any, is resolved once and cleared |
| Ring.RingController.Arrive | Stargate/versions/mark3/ring.js:158-171 | spinning and velocity stop; the angle becomes `targetAngle % 360`, within one turn and congruent to the target; the pending continuation is resolved at most once |
| Ring.RingController.Stop | Stargate/versions/mark3/ring.js:176-185 | the pending continuation is resolved once and cleared; spinning and velocity stop; angle, target and overshoot are untouched |
| Ring.RingController.Reset | Stargate/versions/mark3/ring.js:190-198 | angle, target and velocity become 0 and both flags clear; continuation and frame handle are untouched |
| Ring.RingController.GetCurrentGlyphIndex | Stargate/versions/mark3/ring.js:203-206 | returns `GlyphIndexAt(angle)`, always in 0..38 |
| Ring.RingController.Destroy | Stargate/versions/mark3/ring.js:211-216 | no frame handle remains; nothing else changes |
| Ring.RotateAndArrive | Stargate/versions/mark3/ring.js:47-82 | a rotation that runs to arrival resolves its continuation exactly once and shows the requested glyph |
| Ring.DestroyTwice | Stargate/versions/mark3/ring.js:211-216 | `destroy` is idempotent and touches nothing but the frame handle |

## Left out

- Ring physics (`animate`, `updatePhysics`, ring.js:87-153): floating-point integration
  with `Math.exp`/`Math.cos`, driven by `requestAnimationFrame` and `performance.now()`.
  The environment ends a spin by calling `Arrive` (or `Stop`). For the same reason the
  first synchronous `animate()` frame inside `rotateToGlyph` is not modelled.
- Ring.RingController.RotateToGlyph: the handle `requestAnimationFrame` returns is a
  parameter (positive, as browsers return).
- DOM side effects: `classList` and `style.setProperty`.
- The listener map (`on`/`emit`): every emitted event is appended to the `events` log
  instead of being dispatched to callbacks.
- `console.log` and the free-form `data` payload of `stateChange`.
- The payloads' human-readable `reason` strings.
- Promise and timer plumbing (`sleep`, `waitForRing`, `checkWhitelist`, and the delayed
  `reset` after `abort` and `shutdown`). These are the environment's calls: the step
  methods and `Reset`.
- The whitelist contents, an external lookup. Its answer is the parameter of
  `WhitelistAnswered`.
- The "5 % chance" of a procedural destination is a claim about the hash's distribution.
  The model states only the window predicate `hash % 100 < 5`.
- Angles are reals, not IEEE doubles. `360 / 39` is therefore exact, and rounding in
  `getCurrentGlyphIndex` is exact.
- The archived single-file widget `Stargate/archive/STARGATE_EXPORT/stargate.js` is not
  part of this model.
- GateEngine.GateStateMachine.SetMode: requires a mode of 7, 8 or 9. The source accepts
  any value and would later index `DIAL_SEQUENCES` with it.
- GateEngine.GateStateMachine.InitiateDialSequence: requires no loop already suspended.
  The source would run two interleaved loops over the same fields.
- Ring.RingController.ResolvePending: `arrive` clears the continuation before calling it,
  while `stop` calls it first and clears it afterwards. Resolving a promise runs nothing
  synchronously, so both orders are modelled by one step.

## Findings

| source | as written | input that shows it | evidently intended | confidence | as-written member | corrected member |
|---|---|---|---|---|---|---|
| Stargate/versions/mark3/ring.js:203-206 | `getCurrentGlyphIndex` reads the glyph nearest to `+angle`, but `rotateToGlyph` (ring.js:50) turns glyph g to `-(g * 360/39)`, so after arriving at glyph g it reports (39 − g) mod 39 | `rotateToGlyph(1)` from angle 0, then arrival: the angle is −360/39 and the index read is 38 | the index of the glyph the ring was turned to, measured on `-angle` | not executed | Ring.GlyphIndexMirrorsRotation | Ring.IntendedGlyphIndexRoundTrip |

`Ring.GlyphOneReadsAsThirtyEight` is the concrete case. `Ring.IntendedGlyphIndex` is the
corrected reading. `RingController.GetCurrentGlyphIndex` keeps the behaviour as written.
