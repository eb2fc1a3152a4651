/**
 * The FAQ accordion (src/components/FAQ.jsx): a list of questions of which at
 * most one is expanded, tracked by a single index that is -1 when every item
 * is collapsed.
 */
module Faq {

  /** The questions, in display order. */
  const Questions: seq<string> := [
    "How is Contwre different from other agencies?",
    "What's your typical engagement model?",
    "Do you work with early-stage startups?",
    "What industries do you specialize in?",
    "How do you measure success?"
  ]

  /** Sentinel index meaning that no item is expanded. */
  const Collapsed := -1

  /**
   * The index after clicking item `i` while `open` is expanded: clicking the
   * expanded item collapses it, clicking any other item expands that one
   * (and so collapses the one that was open).
   */
  function Toggled(open: int, i: nat): (r: int)
    ensures r == Collapsed <==> open == i
    ensures r != Collapsed ==> r == i
  {
    if open == i then Collapsed else i
  }

  /**
   * Clicking the same item twice gives back the state before exactly when
   * that item was expanded or nothing was: with another item expanded, the
   * two clicks leave everything collapsed.
   */
  lemma DoubleToggle(open: int, i: nat)
    ensures Toggled(Toggled(open, i), i) == open <==> open == i || open == Collapsed
    ensures open != i && open != Collapsed ==> Toggled(Toggled(open, i), i) == Collapsed
  {
  }

  /** The `openIndex` state of one mounted FAQ section. */
  class Accordion {
    var openIndex: int

    /** Either nothing is expanded or the index names one of the items. */
    ghost predicate Valid()
      reads this
    {
      openIndex == Collapsed || 0 <= openIndex < |Questions|
    }

    /** `useState(0)`: the first question starts expanded. */
    constructor ()
      ensures Valid() && openIndex == 0 && Expanded(0)
    {
      openIndex := 0;
    }

    /** Item `i` is shown expanded, and its `aria-expanded` is true. */
    predicate Expanded(i: int)
      reads this
    {
      openIndex == i
    }

    /** The click handler of item `i`. */
    method Toggle(i: nat)
      requires Valid() && i < |Questions|
      modifies this
      ensures Valid() && openIndex == Toggled(old(openIndex), i)
      ensures Expanded(i) <==> !old(Expanded(i))
      ensures forall j :: 0 <= j < |Questions| && j != i ==> !Expanded(j)
    {
      openIndex := Toggled(openIndex, i);
    }
  }

  /** At most one item is ever expanded. */
  lemma AtMostOneExpanded(a: Accordion, i: int, j: int)
    requires a.Expanded(i) && a.Expanded(j)
    ensures i == j
  {
  }

  /**
   * A fresh accordion after a sequence of clicks: the expanded item (if any)
   * is the last one clicked, and it is expanded exactly when the clicks before
   * it leave it collapsed.
   */
  method ClickAll(clicks: seq<nat>) returns (open: int)
    requires forall k :: 0 <= k < |clicks| ==> clicks[k] < |Questions|
    ensures open == Collapsed || 0 <= open < |Questions|
    ensures clicks == [] ==> open == 0
    ensures clicks != [] ==> open == Collapsed || open == clicks[|clicks| - 1]
    ensures open == Fold(0, clicks)
  {
    var acc := new Accordion();
    var n := 0;
    while n < |clicks|
      invariant 0 <= n <= |clicks| && acc.Valid()
      invariant acc.openIndex == Fold(0, clicks[..n])
      invariant n > 0 ==> acc.openIndex == Collapsed || acc.openIndex == clicks[n - 1]
    {
      acc.Toggle(clicks[n]);
      assert clicks[..n + 1] == clicks[..n] + [clicks[n]];
      n := n + 1;
    }
    assert clicks[..n] == clicks;
    open := acc.openIndex;
  }

  /** The index after clicking the items `clicks` in order, starting from `open`. */
  function Fold(open: int, clicks: seq<nat>): (r: int)
    decreases |clicks|
  {
    if clicks == [] then open else Toggled(Fold(open, clicks[..|clicks| - 1]), clicks[|clicks| - 1])
  }
}
