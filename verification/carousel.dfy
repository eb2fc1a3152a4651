/**
 * The testimonial carousel of the results section (src/components/Results.jsx):
 * one state field, the index of the testimonial on show, moved by the next and
 * previous buttons, by a five-second auto-advance tick and by the dots.
 */
module Carousel {

  /** The testimonials, by author, in display order. */
  const Testimonials: seq<string> :=
    ["Haider Ali", "Zaryab Tanveer", "Vladymir Girault", "Hannan Masood", "Stacy Keibler", "Faisal Basit"]

  /** `testimonials.length`. */
  const Count := |Testimonials|

  /** `(prev + 1) % testimonials.length`: the next index, wrapping the last to the first. */
  function NextIndex(i: int): (r: int)
    requires 0 <= i < Count
    ensures 0 <= r < Count
    ensures i < Count - 1 ==> r == i + 1
    ensures i == Count - 1 ==> r == 0
  {
    (i + 1) % Count
  }

  /** `(prev - 1 + testimonials.length) % testimonials.length`: the previous index, wrapping the first to the last. */
  function PrevIndex(i: int): (r: int)
    requires 0 <= i < Count
    ensures 0 <= r < Count
    ensures i > 0 ==> r == i - 1
    ensures i == 0 ==> r == Count - 1
  {
    (i - 1 + Count) % Count
  }

  /** Next after previous, and previous after next, give back the index. */
  lemma NextPrevInverse(i: int)
    requires 0 <= i < Count
    ensures NextIndex(PrevIndex(i)) == i
    ensures PrevIndex(NextIndex(i)) == i
  {
  }

  /** The index after `k` presses of next (or `k` auto-advance ticks) from `i`. */
  function Advance(i: int, k: nat): (r: int)
    requires 0 <= i < Count
    ensures 0 <= r < Count
  {
    if k == 0 then i else NextIndex(Advance(i, k - 1))
  }

  /**
   * `k` steps forward land on `(i + k) mod n`: the auto-advance visits every
   * testimonial in turn and is back where it started after `n` ticks.
   */
  lemma {:induction false} AdvanceIsModular(i: int, k: nat)
    requires 0 <= i < Count
    ensures Advance(i, k) == (i + k) % Count
  {
    if k > 0 {
      AdvanceIsModular(i, k - 1);
      var j := (i + k - 1) % Count;
      assert (i + k) % Count == (j + 1) % Count;
    }
  }

  /** After a full round of ticks the carousel is back on the testimonial it started from. */
  lemma FullRound(i: int)
    requires 0 <= i < Count
    ensures Advance(i, Count) == i
    ensures forall k :: 0 < k < Count ==> Advance(i, k) != i
  {
    AdvanceIsModular(i, Count);
    forall k | 0 < k < Count
      ensures Advance(i, k) != i
    {
      AdvanceIsModular(i, k);
    }
  }

  /** The `currentTestimonial` state of one mounted carousel. */
  class Slider {
    var current: int

    ghost predicate Valid()
      reads this
    {
      0 <= current < Count
    }

    /** `useState(0)`. */
    constructor ()
      ensures Valid() && current == 0
    {
      current := 0;
    }

    /** The testimonial rendered: every `testimonials[currentTestimonial]` access is in bounds. */
    function Shown(): (author: string)
      reads this
      requires Valid()
      ensures author in Testimonials
    {
      Testimonials[current]
    }

    /** Dot `k` is highlighted exactly when it is the current index, so exactly one dot is. */
    predicate DotHighlighted(k: int)
      reads this
    {
      k == current
    }

    /** The next button. */
    method Next()
      requires Valid()
      modifies this
      ensures Valid() && current == NextIndex(old(current))
    {
      current := NextIndex(current);
    }

    /** The five-second interval: the same update as the next button. */
    method Tick()
      requires Valid()
      modifies this
      ensures Valid() && current == NextIndex(old(current))
    {
      current := NextIndex(current);
    }

    /** The previous button. */
    method Prev()
      requires Valid()
      modifies this
      ensures Valid() && current == PrevIndex(old(current))
    {
      current := PrevIndex(current);
    }

    /** Clicking dot `k`, one of the dots rendered for the list. */
    method SelectDot(k: int)
      requires Valid() && 0 <= k < Count
      modifies this
      ensures Valid() && current == k && DotHighlighted(k)
      ensures forall j :: 0 <= j < Count && j != k ==> !DotHighlighted(j)
    {
      current := k;
    }
  }

  /**
   * A fresh carousel left to its interval for `ticks` ticks shows the
   * testimonial at `ticks mod n`, and a press of previous then of next puts
   * it back there.
   */
  method RunTicks(ticks: nat) returns (shown: int, afterPrevNext: int)
    ensures shown == ticks % Count
    ensures afterPrevNext == shown
  {
    var slider := new Slider();
    var t := 0;
    while t < ticks
      invariant 0 <= t <= ticks && slider.Valid()
      invariant slider.current == Advance(0, t)
    {
      slider.Tick();
      t := t + 1;
    }
    AdvanceIsModular(0, ticks);
    shown := slider.current;
    slider.Prev();
    slider.Next();
    NextPrevInverse(shown);
    afterPrevNext := slider.current;
  }
}
