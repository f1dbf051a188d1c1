/**
 * The testimonial carousel of the pricing call-to-action: the auto-rotation
 * step `(prev + 1) % testimonials.length`, the indicator dots, and which
 * slide is shown.
 */
module PricingCta {

  /** The carousel's fixed list holds three testimonials. */
  const TestimonialCount: nat := 3

  /** One tick of the rotation timer. */
  function Rotate(current: nat, count: nat): (next: nat)
    requires count > 0
    ensures next < count
    ensures current + 1 < count ==> next == current + 1
    ensures current + 1 == count ==> next == 0
  {
    (current + 1) % count
  }

  /** `k` ticks of the rotation timer. */
  function RotateSteps(current: nat, count: nat, k: nat): nat
    requires count > 0
  {
    if k == 0 then current else Rotate(RotateSteps(current, count, k - 1), count)
  }

  /** Within one cycle, `k` ticks advance `k` places and wrap around once past the last slide. */
  lemma {:induction false} RotateStepsWithinCycle(current: nat, count: nat, k: nat)
    requires count > 0 && current < count && k <= count
    ensures RotateSteps(current, count, k) == if current + k < count then current + k else current + k - count
  {
    if k > 0 {
      RotateStepsWithinCycle(current, count, k - 1);
    }
  }

  /** A full cycle of `count` ticks returns to the starting slide. */
  lemma FullCycle(current: nat, count: nat)
    requires count > 0 && current < count
    ensures RotateSteps(current, count, count) == current
  {
    RotateStepsWithinCycle(current, count, count);
  }

  /**
   * Clicking indicator dot `index` selects exactly that slide, whatever was
   * shown; there is one dot per testimonial, so the index stays in range.
   */
  function ClickDot(current: nat, index: nat, count: nat): (next: nat)
    requires index < count
    ensures next == index
    ensures next < count
  {
    index
  }

  /** `testimonials.map((t, index) => index === currentTestimonial)`: which slides get full opacity. */
  function Visibility(current: nat, count: nat): (shown: seq<bool>)
    ensures |shown| == count
    ensures forall i | 0 <= i < count :: shown[i] <==> i == current
  {
    seq(count, (i: int) => i == current)
  }

  function CountShown(shown: seq<bool>): nat {
    if shown == [] then 0 else (if shown[0] then 1 else 0) + CountShown(shown[1..])
  }

  /** Exactly one slide is visible, the current one, as long as the index is in range. */
  lemma {:induction false} ExactlyOneVisible(current: nat, count: nat)
    requires current < count
    ensures CountShown(Visibility(current, count)) == 1
  {
    var shown := Visibility(current, count);
    OnlyOneTrue(shown, current);
  }

  lemma {:induction false} OnlyOneTrue(shown: seq<bool>, k: nat)
    requires k < |shown| && forall i | 0 <= i < |shown| :: shown[i] <==> i == k
    ensures CountShown(shown) == 1
  {
    if k == 0 {
      NoneTrue(shown[1..]);
    } else {
      OnlyOneTrue(shown[1..], k - 1);
    }
  }

  lemma {:induction false} NoneTrue(shown: seq<bool>)
    requires forall i | 0 <= i < |shown| :: !shown[i]
    ensures CountShown(shown) == 0
  {
    if shown != [] {
      NoneTrue(shown[1..]);
    }
  }

  /** Every tick of the timer leaves exactly one slide visible. */
  lemma RotationKeepsOneVisible(current: nat, count: nat)
    requires count > 0
    ensures CountShown(Visibility(Rotate(current, count), count)) == 1
  {
    ExactlyOneVisible(Rotate(current, count), count);
  }

  /** Selecting a slide by its dot also leaves exactly one slide visible. */
  lemma DotKeepsOneVisible(current: nat, index: nat, count: nat)
    requires index < count
    ensures CountShown(Visibility(ClickDot(current, index, count), count)) == 1
  {
    ExactlyOneVisible(ClickDot(current, index, count), count);
  }
}
