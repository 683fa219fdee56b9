/**
 * The arithmetic of one animation tick of the hero frame player
 * (src/components/HeroScrollFrames.tsx): scroll position to target
 * progress, the one-pole smoothing step, progress to frame index, and the
 * progress-driven styling. Browser doubles are modelled as exact reals.
 */
module ScrollProgress {

  /** The smoothing factor of the tick (`easeFactor`). */
  const Ease: real := 0.1

  function Clamp01(x: real): (r: real)
    ensures 0.0 <= r <= 1.0
    ensures 0.0 <= x <= 1.0 ==> r == x
    ensures x < 0.0 ==> r == 0.0
    ensures x > 1.0 ==> r == 1.0
  {
    if x < 0.0 then 0.0 else if x > 1.0 then 1.0 else x
  }

  /** Target progress for a wrapper whose top edge is at `top` (viewport
      coordinates) and whose scrollable distance is `distance` (wrapper
      height minus viewport height). A non-positive distance gives 0; for a
      positive one this is what the code computes (AsWrittenAgrees). */
  function RawTarget(top: real, distance: real): (p: real)
    ensures 0.0 <= p <= 1.0
    ensures distance <= 0.0 ==> p == 0.0
    ensures distance > 0.0 && top >= 0.0 ==> p == 0.0
    ensures distance > 0.0 && -top >= distance ==> p == 1.0
  {
    if distance <= 0.0 then 0.0
    else
      QuotientBounds(-top, distance);
      Clamp01(-top / distance)
  }

  lemma MulLeq(a: real, b: real, c: real)
    requires a <= b && 0.0 <= c
    ensures a * c <= b * c
  {
  }

  lemma MulLess(a: real, b: real, c: real)
    requires a < b && 0.0 < c
    ensures a * c < b * c
  {
  }

  lemma QuotientBounds(a: real, b: real)
    requires b > 0.0
    ensures a <= 0.0 ==> a / b <= 0.0
    ensures a >= b ==> a / b >= 1.0
  {
    var q := a / b;
    assert q * b == a;
    if a <= 0.0 && q > 0.0 {
      MulLess(0.0, q, b);
    }
    if a >= b && q < 1.0 {
      MulLess(q, 1.0, b);
    }
  }

  // ---------------------------------------------------------------------------
  // The code as written, over JavaScript numbers

  /** A double as far as the target computation can produce one. */
  datatype JsNumber = Finite(r: real) | PosInf | NegInf | NaN

  /** `a / b` on finite doubles: division by zero gives an infinity, or NaN for `0 / 0`. */
  function JsDivide(a: real, b: real): (q: JsNumber)
    ensures b != 0.0 ==> q == Finite(a / b)
    ensures b == 0.0 ==> (q.NaN? <==> a == 0.0)
  {
    if b != 0.0 then Finite(a / b)
    else if a > 0.0 then PosInf
    else if a < 0.0 then NegInf
    else NaN
  }

  predicate JsLess(a: JsNumber, b: JsNumber)
    requires !a.NaN? && !b.NaN?
  {
    match (a, b)
    case (NegInf, _) => !b.NegInf?
    case (_, PosInf) => !a.PosInf?
    case (Finite(x), Finite(y)) => x < y
    case _ => false
  }

  /** `Math.min(a, b)`: NaN if either argument is NaN, otherwise the
      argument that the other is not below. */
  function JsMin(a: JsNumber, b: JsNumber): (m: JsNumber)
    ensures m.NaN? <==> a.NaN? || b.NaN?
    ensures !m.NaN? ==> (m == a || m == b) && !JsLess(a, m) && !JsLess(b, m)
  {
    if a.NaN? || b.NaN? then NaN else if JsLess(b, a) then b else a
  }

  /** `Math.max(a, b)`: NaN if either argument is NaN, otherwise the
      argument that the other is not above. */
  function JsMax(a: JsNumber, b: JsNumber): (m: JsNumber)
    ensures m.NaN? <==> a.NaN? || b.NaN?
    ensures !m.NaN? ==> (m == a || m == b) && !JsLess(m, a) && !JsLess(m, b)
  {
    if a.NaN? || b.NaN? then NaN else if JsLess(a, b) then b else a
  }

  /** `Math.max(0, Math.min(1, -rect.top / totalScrollDistance))`, unguarded.
      A non-zero distance gives the clamped ratio. A zero distance gives NaN
      at top 0, 1 (from +Infinity) above it and 0 (from -Infinity) below it. */
  function RawTargetAsWritten(top: real, distance: real): (t: JsNumber)
    ensures distance != 0.0 ==> t == Finite(Clamp01(-top / distance))
    ensures distance == 0.0 && top == 0.0 ==> t.NaN?
    ensures distance == 0.0 && top < 0.0 ==> t == Finite(1.0)
    ensures distance == 0.0 && top > 0.0 ==> t == Finite(0.0)
  {
    JsMax(Finite(0.0), JsMin(Finite(1.0), JsDivide(-top, distance)))
  }

  /** For a positive scroll distance the guarded target is exactly the code's. */
  lemma AsWrittenAgrees(top: real, distance: real)
    requires distance > 0.0
    ensures RawTargetAsWritten(top, distance) == Finite(RawTarget(top, distance))
  {
  }

  /** A wrapper exactly one viewport tall, at the top of the viewport, makes
      the code divide 0 by 0: the target is NaN instead of a progress. */
  lemma ZeroDistanceGivesNaN(top: real)
    requires top == 0.0
    ensures RawTargetAsWritten(top, 0.0) == NaN
    ensures RawTarget(top, 0.0) == 0.0
  {
  }

  /** The smoothing step over doubles: NaN or an infinite current value
      cannot be recovered from. */
  function JsLerp(current: JsNumber, target: JsNumber): (r: JsNumber)
    ensures current.NaN? ==> r.NaN?
  {
    match (current, target)
    case (Finite(c), Finite(t)) => Finite(Lerp(c, t))
    case (Finite(c), PosInf) => PosInf
    case (Finite(c), NegInf) => NegInf
    case _ => NaN
  }

  /** Once the smoothed progress is NaN it stays NaN, whatever targets follow. */
  lemma {:induction false} NaNPersists(targets: seq<JsNumber>)
    ensures JsSmoothAlong(NaN, targets) == NaN
  {
    if targets != [] {
      NaNPersists(targets[..|targets| - 1]);
    }
  }

  function JsSmoothAlong(current: JsNumber, targets: seq<JsNumber>): JsNumber {
    if targets == [] then current
    else JsLerp(JsSmoothAlong(current, targets[..|targets| - 1]), targets[|targets| - 1])
  }

  // ---------------------------------------------------------------------------
  // Smoothing

  /** One smoothing step: `current + (target - current) * easeFactor`. */
  function Lerp(current: real, target: real): (r: real)
    ensures target - r == (1.0 - Ease) * (target - current)
    ensures current <= target ==> current <= r <= target
    ensures target <= current ==> target <= r <= current
    ensures current < target ==> r < target
    ensures current > target ==> r > target
  {
    current + (target - current) * Ease
  }

  /** Both inputs in [0, 1] keep the output in [0, 1]. */
  lemma LerpInUnit(current: real, target: real)
    requires 0.0 <= current <= 1.0 && 0.0 <= target <= 1.0
    ensures 0.0 <= Lerp(current, target) <= 1.0
  {
  }

  /** `k` ticks at a fixed target. A progress already at the target stays there. */
  function Smooth(current: real, target: real, k: nat): (p: real)
    ensures current == target ==> p == target
  {
    if k == 0 then current else Lerp(Smooth(current, target, k - 1), target)
  }

  /** `(1 - easeFactor)^k`. */
  function Decay(k: nat): (d: real)
    ensures 0.0 < d <= 1.0
  {
    if k == 0 then 1.0 else (1.0 - Ease) * Decay(k - 1)
  }

  /** The gap to a fixed target shrinks geometrically. */
  lemma {:induction false} SmoothGap(current: real, target: real, k: nat)
    ensures target - Smooth(current, target, k) == Decay(k) * (target - current)
  {
    if k > 0 {
      SmoothGap(current, target, k - 1);
      var s := Smooth(current, target, k - 1);
      var d := Decay(k - 1);
      var g := target - current;
      assert target - Smooth(current, target, k) == (1.0 - Ease) * (target - s);
      ScaleAssociates(1.0 - Ease, d, g);
    }
  }

  lemma ScaleAssociates(a: real, b: real, c: real)
    ensures a * (b * c) == (a * b) * c
  {
  }

  /** Approaching a fixed target from below: the values rise and never overshoot. */
  lemma {:induction false} SmoothMonotone(current: real, target: real, k: nat)
    requires current <= target
    ensures Smooth(current, target, k) <= Smooth(current, target, k + 1) <= target
  {
    if k > 0 {
      SmoothMonotone(current, target, k - 1);
    }
  }

  /** Starting strictly below the target, no number of ticks reaches it. */
  lemma {:induction false} SmoothStaysBelow(current: real, target: real, k: nat)
    requires current < target
    ensures Smooth(current, target, k) < target
  {
    if k > 0 {
      SmoothStaysBelow(current, target, k - 1);
    }
  }

  lemma {:induction false} DecayBound(k: nat)
    ensures Decay(k) * (9.0 + k as real) <= 9.0
  {
    if k > 0 {
      DecayBound(k - 1);
      var d := Decay(k - 1);
      assert d * (8.0 + k as real) <= 9.0;
      assert Decay(k) * (9.0 + k as real) == 0.9 * d * (9.0 + k as real);
      assert 0.9 * (9.0 + k as real) <= 8.0 + k as real;
    }
  }

  /** Yet the gap does fall below any positive bound after enough ticks. */
  lemma SmoothConverges(current: real, target: real, eps: real) returns (k: nat)
    requires current <= target && eps > 0.0
    ensures 0.0 <= target - Smooth(current, target, k) < eps
  {
    var gap := target - current;
    k := (9.0 * gap / eps).Floor as nat + 1;
    DecayBound(k);
    SmoothGap(current, target, k);
    SmoothMonotone(current, target, k);
    TicksExceed(9.0 * gap / eps, k, eps);
    ShrunkGapBelow(Decay(k), gap, k as real, eps);
  }

  /** A whole number above `x / eps` scales `eps` beyond `x`. */
  lemma TicksExceed(q: real, k: nat, eps: real)
    requires eps > 0.0 && q < k as real
    ensures (k as real) * eps > q * eps
  {
    MulLess(q, k as real, eps);
  }

  /** From `d * (9 + n) <= 9` and `n * eps > 9 * gap`: `d * gap < eps`. */
  lemma ShrunkGapBelow(d: real, gap: real, n: real, eps: real)
    requires 0.0 < d && 0.0 <= gap && 0.0 <= n && eps > 0.0
    requires d * (9.0 + n) <= 9.0
    requires n * eps > (9.0 * gap / eps) * eps
    ensures d * gap < eps
  {
    assert (9.0 * gap / eps) * eps == 9.0 * gap;
    MulLeq(d * (9.0 + n), 9.0, gap);
    assert (d * gap) * (9.0 + n) <= 9.0 * gap;
    if d * gap >= eps {
      MulLeq(eps, d * gap, 9.0 + n);
    }
  }

  /** The smoothed values for a sequence of scroll targets, one per tick. */
  function SmoothAlong(current: real, targets: seq<real>): (out: seq<real>)
    ensures |out| == |targets|
  {
    if targets == [] then []
    else
      var prefix := SmoothAlong(current, targets[..|targets| - 1]);
      var last := if prefix == [] then current else prefix[|prefix| - 1];
      prefix + [Lerp(last, targets[|targets| - 1])]
  }

  ghost predicate NonDecreasing(xs: seq<real>) {
    forall i, j :: 0 <= i < j < |xs| ==> xs[i] <= xs[j]
  }

  /** Under scroll targets that never decrease, starting at or below the
      first one, the smoothed progress never decreases and never passes the
      latest target. */
  lemma {:induction false} SmoothFollowsRisingTargets(current: real, targets: seq<real>)
    requires targets != [] && current <= targets[0]
    requires NonDecreasing(targets)
    ensures NonDecreasing(SmoothAlong(current, targets))
    ensures forall i :: 0 <= i < |targets| ==> current <= SmoothAlong(current, targets)[i] <= targets[i]
  {
    var out := SmoothAlong(current, targets);
    var n := |targets|;
    if n > 1 {
      var front := targets[..n - 1];
      SmoothFollowsRisingTargets(current, front);
      var prefix := SmoothAlong(current, front);
      assert out == prefix + [Lerp(prefix[n - 2], targets[n - 1])];
      assert prefix[n - 2] <= targets[n - 2] <= targets[n - 1];
      forall i, j | 0 <= i < j < n
        ensures out[i] <= out[j]
      {
        if j < n - 1 {
          assert out[i] == prefix[i] && out[j] == prefix[j];
        } else {
          assert out[i] == prefix[i] <= prefix[n - 2];
        }
      }
      forall i | 0 <= i < n
        ensures current <= out[i] <= targets[i]
      {
        if i < n - 1 {
          assert out[i] == prefix[i] && targets[i] == front[i];
        }
      }
    }
  }

  // ---------------------------------------------------------------------------
  // Frame selection

  /** `Math.floor(progress * (manifest.length - 1))`. */
  function FrameIndex(progress: real, frames: nat): (i: int)
    requires 0.0 <= progress <= 1.0 && frames >= 1
    ensures 0 <= i < frames
    ensures i as real <= progress * (frames - 1) as real < i as real + 1.0
  {
    var n := (frames - 1) as real;
    ScaledInRange(progress, n);
    (progress * n).Floor
  }

  /** A fraction of a non-negative length lies between 0 and the length. */
  lemma ScaledInRange(p: real, n: real)
    requires 0.0 <= p <= 1.0 && 0.0 <= n
    ensures 0.0 <= p * n <= n
  {
    MulLeq(p, 1.0, n);
    MulLeq(0.0, p, n);
  }

  /** A progress strictly below 1 never selects the last of two or more frames. */
  lemma LastFrameNeedsFullProgress(progress: real, frames: nat)
    requires 0.0 <= progress < 1.0 && frames >= 2
    ensures FrameIndex(progress, frames) <= frames - 2
  {
    MulLess(progress, 1.0, (frames - 1) as real);
  }

  /** A progress below a target that lands exactly on frame `m` shows at most frame `m - 1`. */
  lemma FrameBelowExactTarget(progress: real, target: real, frames: nat, m: int)
    requires 0.0 <= progress < target <= 1.0 && frames >= 2
    requires target * (frames - 1) as real == m as real
    ensures FrameIndex(progress, frames) < m
  {
    MulLess(progress, target, (frames - 1) as real);
  }

  /** Three frames, wrapper three viewports tall, scrolled one viewport down:
      the target is 0.5, which would select frame 1, but smoothing up from 0
      stays below 0.5 and so stays on frame 0 after any number of ticks. */
  lemma {:induction false} HalfwayScenario(viewport: real, k: nat)
    requires viewport > 0.0
    ensures RawTarget(-viewport, 3.0 * viewport - viewport) == 0.5
    ensures 0.0 <= Smooth(0.0, 0.5, k) < 0.5
    ensures FrameIndex(0.5, 3) == 1
    ensures FrameIndex(Smooth(0.0, 0.5, k), 3) == 0
  {
    assert -(-viewport) / (3.0 * viewport - viewport) == 0.5;
    SmoothStaysBelow(0.0, 0.5, k);
    SmoothMonotone(0.0, 0.5, k);
    SmoothNotBelowStart(0.0, 0.5, k);
    FrameBelowExactTarget(Smooth(0.0, 0.5, k), 0.5, 3, 1);
  }

  lemma {:induction false} SmoothNotBelowStart(current: real, target: real, k: nat)
    requires current <= target
    ensures current <= Smooth(current, target, k)
  {
    if k > 0 {
      SmoothNotBelowStart(current, target, k - 1);
    }
  }

  // ---------------------------------------------------------------------------
  // Styling

  /** `opacity: 0.4 + p * 0.4`. */
  function Opacity(progress: real): (o: real)
    requires 0.0 <= progress <= 1.0
    ensures 0.4 <= o <= 0.8
  {
    0.4 + progress * 0.4
  }

  /** `brightness(0.8 + p * 0.4)`. */
  function Brightness(progress: real): (b: real)
    requires 0.0 <= progress <= 1.0
    ensures 0.8 <= b <= 1.2
  {
    0.8 + progress * 0.4
  }

  /** `saturate(0.9 + p * 0.2)`. */
  function Saturation(progress: real): (s: real)
    requires 0.0 <= progress <= 1.0
    ensures 0.9 <= s <= 1.1
  {
    0.9 + progress * 0.2
  }

  /** All three style values rise with progress. */
  lemma StyleRisesWithProgress(p: real, q: real)
    requires 0.0 <= p <= q <= 1.0
    ensures Opacity(p) <= Opacity(q) && Brightness(p) <= Brightness(q) && Saturation(p) <= Saturation(q)
  {
  }
}
