/**
 * The ring controller's discrete control state and its target arithmetic. Angles are
 * reals (an idealisation of JavaScript doubles); `%` on them is JavaScript's truncating
 * remainder. The per-frame physics that moves `angle` toward `targetAngle` is not part
 * of this model: the environment reports the end of a spin by calling `Arrive`.
 */
module Ring {
  import opened Wrappers

  const TotalGlyphs: int := 39
  const DegreesPerGlyph: real := 360.0 / 39.0

  // ------------------------------------------------------------------
  // Arithmetic on angles
  // ------------------------------------------------------------------

  /** `Math.trunc`: the integer part, rounding toward zero. */
  function Trunc(x: real): (t: int)
    ensures x >= 0.0 ==> 0 <= t && t as real <= x < t as real + 1.0
    ensures x < 0.0 ==> t <= 0 && t as real - 1.0 < x <= t as real
  {
    if x >= 0.0 then x.Floor else -((-x).Floor)
  }

  /** d is a whole number of turns. */
  predicate WholeTurns(d: real) {
    (d / 360.0).Floor as real == d / 360.0
  }

  /** a and b denote the same direction. */
  predicate SameDirection(a: real, b: real) {
    WholeTurns(a - b)
  }

  /** `x % 360` in JavaScript: the sign of x, magnitude below a turn, same direction. */
  function Rem360(x: real): (r: real)
    ensures -360.0 < r < 360.0
    ensures x >= 0.0 ==> r >= 0.0
    ensures x <= 0.0 ==> r <= 0.0
    ensures SameDirection(r, x)
  {
    var t := Trunc(x / 360.0);
    var r := x - 360.0 * t as real;
    KTurns(-t);
    assert r - x == 360.0 * (-t) as real;
    r
  }

  /** k turns are whole turns. */
  lemma KTurns(k: int)
    ensures WholeTurns(360.0 * k as real)
  {
    assert (360.0 * k as real) / 360.0 == k as real;
  }

  /** Whole turns are k turns for an integer k. */
  lemma TurnsOf(d: real) returns (k: int)
    requires WholeTurns(d)
    ensures d == 360.0 * k as real
  {
    k := (d / 360.0).Floor;
  }

  lemma WholeTurnsSum(a: real, b: real)
    requires WholeTurns(a) && WholeTurns(b)
    ensures WholeTurns(a + b) && WholeTurns(-a)
  {
    var ka := TurnsOf(a);
    var kb := TurnsOf(b);
    KTurns(ka + kb);
    KTurns(-ka);
  }

  lemma SameDirectionTrans(a: real, b: real, c: real)
    requires SameDirection(a, b) && SameDirection(b, c)
    ensures SameDirection(a, c) && SameDirection(c, a)
  {
    WholeTurnsSum(a - b, b - c);
    assert a - c == (a - b) + (b - c);
    WholeTurnsSum(a - c, 0.0);
    assert c - a == -(a - c);
  }

  lemma SameDirectionSym(a: real, b: real)
    requires SameDirection(a, b)
    ensures SameDirection(b, a)
  {
    WholeTurnsSum(a - b, 0.0);
    assert b - a == -(a - b);
  }

  /** Two directions within one turn of [0, 360) are the same only if equal. */
  lemma OneTurnRepresentative(x: real, y: real)
    requires 0.0 <= x < 360.0 && 0.0 <= y < 360.0 && SameDirection(x, y)
    ensures x == y
  {
  }

  /** `((diff % 360) + 540) % 360 - 180`: the turn in [-180, 180) toward diff. */
  function NormalizedDiff(diff: real): (nd: real)
    ensures -180.0 <= nd < 180.0
    ensures SameDirection(nd, diff)
  {
    var a := Rem360(diff);
    var b := Rem360(a + 540.0);
    var nd := b - 180.0;
    assert SameDirection(a + 540.0, diff + 540.0) by {
      assert (a + 540.0) - (diff + 540.0) == a - diff;
    }
    SameDirectionTrans(b, a + 540.0, diff + 540.0);
    assert WholeTurns(360.0) by {
      assert 360.0 / 360.0 == 1.0;
    }
    WholeTurnsSum(b - (diff + 540.0), 360.0);
    assert nd - diff == (b - (diff + 540.0)) + 360.0;
    nd
  }

  /** A whole number of turns normalises to no turn at all. */
  lemma NormalizedDiffOfWholeTurns(diff: real)
    requires WholeTurns(diff)
    ensures NormalizedDiff(diff) == 0.0
  {
    var k := (diff / 360.0).Floor;
    assert diff == 360.0 * k as real;
    assert Trunc(diff / 360.0) == k;
    assert Rem360(diff) == 0.0;
    assert Trunc(540.0 / 360.0) == 1;
  }

  /** `-(glyphIndex * degreesPerGlyph)`: the angle that brings a glyph to the top. */
  function GlyphAngle(glyphIndex: int): real {
    -(glyphIndex as real * DegreesPerGlyph)
  }

  /** The 39 glyphs sit at 39 different directions, and glyph g + 39 is glyph g again. */
  lemma GlyphAnglesCycle(g: int, h: int)
    requires 0 <= g < h < TotalGlyphs
    ensures !SameDirection(GlyphAngle(g), GlyphAngle(h))
    ensures SameDirection(GlyphAngle(g + TotalGlyphs), GlyphAngle(g))
  {
    var q := (GlyphAngle(g) - GlyphAngle(h)) / 360.0;
    assert q == (h - g) as real / 39.0;
    assert 0.0 < q < 1.0;
    assert (GlyphAngle(g + TotalGlyphs) - GlyphAngle(g)) / 360.0 == -1.0;
  }

  /**
   * The target `rotateToGlyph` chooses. With a direction it is one extra turn past the
   * glyph's absolute angle, whatever the current angle. Without one it is the
   * normalised turn from the current angle, lengthened by a full turn in its own
   * direction (backwards when it is zero) when shorter than 90 degrees.
   */
  function ChooseTarget(angle: real, glyphIndex: int, clockwise: Option<bool>): (target: real)
    ensures SameDirection(target, GlyphAngle(glyphIndex))
    ensures clockwise == Some(true) ==> target == GlyphAngle(glyphIndex) - 360.0
    ensures clockwise == Some(false) ==> target == GlyphAngle(glyphIndex) + 360.0
    ensures clockwise.None? ==>
              var nd := NormalizedDiff(GlyphAngle(glyphIndex) - angle);
              && (-90.0 < nd < 90.0 ==> target - angle == nd + (if nd > 0.0 then 360.0 else -360.0))
              && (nd <= -90.0 || 90.0 <= nd ==> target - angle == nd)
    ensures clockwise.None? ==> 90.0 <= target - angle < 450.0 || -450.0 < target - angle <= -90.0
  {
    var glyph := GlyphAngle(glyphIndex);
    match clockwise
    case None =>
      var nd := NormalizedDiff(glyph - angle);
      var target := if -90.0 < nd < 90.0 then angle + (if nd > 0.0 then 360.0 else -360.0) + nd
                    else angle + nd;
      assert SameDirection(target, glyph) by {
        var turn := if -90.0 < nd < 90.0 then (if nd > 0.0 then 360.0 else -360.0) else 0.0;
        assert WholeTurns(turn) by {
          assert turn / 360.0 == 1.0 || turn / 360.0 == -1.0 || turn / 360.0 == 0.0;
        }
        WholeTurnsSum(nd - (glyph - angle), turn);
        assert target - glyph == (nd - (glyph - angle)) + turn;
      }
      target
    case Some(cw) =>
      var target := glyph + (if cw then -360.0 else 360.0);
      assert (target - glyph) / 360.0 == (if cw then -1.0 else 1.0);
      target
  }

  /** Asking for the glyph already at the top still spins the ring one full turn back. */
  lemma SameGlyphSpinsFullTurn(angle: real, glyphIndex: int)
    requires SameDirection(angle, GlyphAngle(glyphIndex))
    ensures ChooseTarget(angle, glyphIndex, None) == angle - 360.0
  {
    WholeTurnsSum(angle - GlyphAngle(glyphIndex), 0.0);
    assert GlyphAngle(glyphIndex) - angle == -(angle - GlyphAngle(glyphIndex));
    NormalizedDiffOfWholeTurns(GlyphAngle(glyphIndex) - angle);
  }

  /** Wherever the ring stood, arriving at the chosen target leaves the glyph on top. */
  lemma ArrivalShowsGlyph(angle: real, glyphIndex: int, clockwise: Option<bool>)
    ensures SameDirection(Rem360(ChooseTarget(angle, glyphIndex, clockwise)), GlyphAngle(glyphIndex))
  {
    var t := ChooseTarget(angle, glyphIndex, clockwise);
    SameDirectionTrans(Rem360(t), t, GlyphAngle(glyphIndex));
  }

  // ------------------------------------------------------------------
  // Reading the glyph at the top
  // ------------------------------------------------------------------

  /** `Math.round` for the non-negative values it is applied to here. */
  function Round(x: real): (n: int)
    requires x >= 0.0
    ensures n >= 0 && x - 0.5 < n as real <= x + 0.5
  {
    (x + 0.5).Floor
  }

  /** `((angle % 360) + 360) % 360`: the direction of angle as a value in [0, 360). */
  function NormalizedAngle(angle: real): (a: real)
    ensures 0.0 <= a < 360.0
    ensures SameDirection(a, angle)
  {
    var r := Rem360(angle);
    var a := Rem360(r + 360.0);
    assert SameDirection(r + 360.0, r) by {
      assert (r + 360.0 - r) / 360.0 == 1.0;
    }
    SameDirectionTrans(a, r + 360.0, r);
    SameDirectionTrans(a, r, angle);
    a
  }

  /** `getCurrentGlyphIndex` as written: the nearest glyph to `+angle`, modulo 39. */
  function GlyphIndexAt(angle: real): (index: int)
    ensures 0 <= index < TotalGlyphs
  {
    Round(NormalizedAngle(angle) / DegreesPerGlyph) % TotalGlyphs
  }

  /** The glyph whose angle equals a direction in [0, 360): g * 360/39 reads back as g. */
  lemma IndexOfGlyphMultiple(g: int, a: real)
    requires 0 <= g < TotalGlyphs && a == g as real * DegreesPerGlyph
    ensures Round(a / DegreesPerGlyph) == g
  {
    assert a / DegreesPerGlyph == g as real;
  }

  /**
   * As written, after the ring arrives at glyph g the index read back is 39 - g (mod
   * 39): `getCurrentGlyphIndex` measures `+angle` where `rotateToGlyph` turns to
   * `-(g * 360/39)`.
   */
  lemma GlyphIndexMirrorsRotation(angle: real, g: int)
    requires 0 <= g < TotalGlyphs && SameDirection(angle, GlyphAngle(g))
    ensures GlyphIndexAt(angle) == (TotalGlyphs - g) % TotalGlyphs
  {
    var n := NormalizedAngle(angle);
    var v := if g == 0 then 0.0 else (TotalGlyphs - g) as real * DegreesPerGlyph;
    assert SameDirection(v, GlyphAngle(g)) by {
      assert (v - GlyphAngle(g)) / 360.0 == if g == 0 then 0.0 else 1.0;
    }
    SameDirectionSym(angle, GlyphAngle(g));
    SameDirectionTrans(v, GlyphAngle(g), angle);
    SameDirectionTrans(n, angle, v);
    OneTurnRepresentative(n, v);
    IndexOfGlyphMultiple(if g == 0 then 0 else TotalGlyphs - g, v);
  }

  /** Concretely: after turning to glyph 1 the ring reports glyph 38. */
  lemma GlyphOneReadsAsThirtyEight()
    ensures GlyphIndexAt(Rem360(ChooseTarget(0.0, 1, None))) == 38
  {
    ArrivalShowsGlyph(0.0, 1, None);
    GlyphIndexMirrorsRotation(Rem360(ChooseTarget(0.0, 1, None)), 1);
  }

  /** The index the top position evidently should report: measured on `-angle`. */
  function IntendedGlyphIndex(angle: real): (index: int)
    ensures 0 <= index < TotalGlyphs
  {
    GlyphIndexAt(-angle)
  }

  /** Corrected, the index read back after arriving at glyph g is g. */
  lemma IntendedGlyphIndexRoundTrip(angle: real, g: int)
    requires 0 <= g < TotalGlyphs && SameDirection(angle, GlyphAngle(g))
    ensures IntendedGlyphIndex(angle) == g
  {
    var n := NormalizedAngle(-angle);
    var v := g as real * DegreesPerGlyph;
    assert SameDirection(v, -angle) by {
      WholeTurnsSum(angle - GlyphAngle(g), 0.0);
      assert v - -angle == angle - GlyphAngle(g);
    }
    SameDirectionSym(v, -angle);
    SameDirectionTrans(n, -angle, v);
    OneTurnRepresentative(n, v);
    IndexOfGlyphMultiple(g, v);
  }

  // ------------------------------------------------------------------
  // The controller
  // ------------------------------------------------------------------

  /**
   * A continuation is the `resolve` of the promise one `rotateToGlyph` call returns,
   * named here by a token; resolving it is recorded in `resumed`.
   */
  type Continuation = nat

  class RingController {
    var angle: real
    var targetAngle: real
    var velocity: real
    var isSpinning: bool
    var isOvershooting: bool
    /** the single pending continuation */
    var onArrival: Option<Continuation>
    /** the handle of the scheduled animation frame, while the loop runs */
    var animationId: Option<nat>
    /** continuations resolved so far, in order */
    var resumed: seq<Continuation>
    /** continuations handed out so far */
    ghost var issued: set<Continuation>

    /** Every continuation is resolved at most once, and only after it was handed out. */
    ghost predicate Valid()
      reads this
    {
      && (forall i, j :: 0 <= i < j < |resumed| ==> resumed[i] != resumed[j])
      && (forall i :: 0 <= i < |resumed| ==> resumed[i] in issued)
      && (onArrival.Some? ==> onArrival.value in issued && onArrival.value !in resumed)
    }

    constructor ()
      ensures Valid()
      ensures angle == 0.0 && targetAngle == 0.0 && velocity == 0.0
      ensures !isSpinning && !isOvershooting
      ensures onArrival == None && animationId == None && resumed == [] && issued == {}
    {
      angle, targetAngle, velocity := 0.0, 0.0, 0.0;
      isSpinning, isOvershooting := false, false;
      onArrival, animationId := None, None;
      resumed := [];
      issued := {};
    }

    /**
     * `rotateToGlyph`: choose the target, start spinning, and make `k` the pending
     * continuation (a continuation still pending is dropped, never resolved). The
     * animation loop is started, under the handle `frame` the host assigns, only if
     * none is scheduled.
     */
    method RotateToGlyph(glyphIndex: int, clockwise: Option<bool>, k: Continuation, frame: nat)
      requires Valid() && k !in issued && frame > 0
      modifies this`targetAngle, this`isSpinning, this`isOvershooting, this`onArrival,
               this`animationId, this`issued
      ensures Valid()
      ensures targetAngle == ChooseTarget(angle, glyphIndex, clockwise)
      ensures isSpinning && !isOvershooting
      ensures onArrival == Some(k) && issued == old(issued) + {k}
      ensures animationId == if old(animationId).None? then Some(frame) else old(animationId)
    {
      targetAngle := ChooseTarget(angle, glyphIndex, clockwise);
      isSpinning := true;
      isOvershooting := false;
      onArrival := Some(k);
      issued := issued + {k};
      if animationId.None? {
        animationId := Some(frame);
      }
    }

    /** Resolve the pending continuation, if any, and forget it. */
    method ResolvePending()
      requires Valid()
      modifies this`onArrival, this`resumed
      ensures Valid()
      ensures onArrival == None
      ensures resumed == old(resumed) + if old(onArrival).Some? then [old(onArrival).value] else []
    {
      if onArrival.Some? {
        resumed := resumed + [onArrival.value];
        onArrival := None;
      }
    }

    /**
     * `arrive`: stop, bring the angle back within one turn of zero as `targetAngle % 360`
     * (same direction as the target), and resolve the pending continuation once.
     */
    method Arrive()
      requires Valid()
      modifies this`isSpinning, this`velocity, this`angle, this`onArrival, this`resumed
      ensures Valid()
      ensures !isSpinning && velocity == 0.0
      ensures angle == Rem360(targetAngle)
      ensures -360.0 < angle < 360.0 && SameDirection(angle, targetAngle)
      ensures onArrival == None
      ensures resumed == old(resumed) + if old(onArrival).Some? then [old(onArrival).value] else []
    {
      isSpinning := false;
      velocity := 0.0;
      angle := Rem360(targetAngle);
      ResolvePending();
    }

    /**
     * `stop`: resolve the pending continuation at once, without reaching the target;
     * the angle, the target and the overshoot flag stay as they are.
     */
    method Stop()
      requires Valid()
      modifies this`isSpinning, this`velocity, this`onArrival, this`resumed
      ensures Valid()
      ensures !isSpinning && velocity == 0.0
      ensures onArrival == None
      ensures resumed == old(resumed) + if old(onArrival).Some? then [old(onArrival).value] else []
    {
      isSpinning := false;
      velocity := 0.0;
      ResolvePending();
    }

    /** `reset`: back to zero, leaving any pending continuation and the loop alone. */
    method Reset()
      modifies this`angle, this`targetAngle, this`velocity, this`isSpinning, this`isOvershooting
      ensures angle == 0.0 && targetAngle == 0.0 && velocity == 0.0
      ensures !isSpinning && !isOvershooting
    {
      angle, targetAngle, velocity := 0.0, 0.0, 0.0;
      isSpinning, isOvershooting := false, false;
    }

    /** `getCurrentGlyphIndex`: always a glyph position, 0 to 38. */
    method GetCurrentGlyphIndex() returns (index: int)
      ensures index == GlyphIndexAt(angle)
      ensures 0 <= index <= 38
    {
      var normalized := Rem360(Rem360(angle) + 360.0);
      index := Round(normalized / DegreesPerGlyph) % TotalGlyphs;
    }

    /** `destroy`: cancel the scheduled frame; afterwards no frame is scheduled. */
    method Destroy()
      modifies this`animationId
      ensures animationId == None
    {
      if animationId.Some? {
        animationId := None;
      }
    }
  }

  /**
   * A rotation that runs to its end: whatever was pending before is never resolved,
   * the new continuation is resolved exactly once, and the ring shows the glyph.
   */
  method RotateAndArrive(r: RingController, glyphIndex: int, clockwise: Option<bool>, k: Continuation, frame: nat)
    requires r.Valid() && k !in r.issued && frame > 0
    modifies r
    ensures r.Valid()
    ensures r.resumed == old(r.resumed) + [k]
    ensures !r.isSpinning && r.onArrival == None
    ensures SameDirection(r.angle, GlyphAngle(glyphIndex))
    ensures r.animationId.Some?
  {
    r.RotateToGlyph(glyphIndex, clockwise, k, frame);
    r.Arrive();
    ArrivalShowsGlyph(old(r.angle), glyphIndex, clockwise);
  }

  /** `destroy` twice is `destroy` once. */
  method DestroyTwice(r: RingController)
    modifies r`animationId
    ensures r.animationId == None
    ensures r.angle == old(r.angle) && r.onArrival == old(r.onArrival) && r.isSpinning == old(r.isSpinning)
  {
    r.Destroy();
    r.Destroy();
  }
}
