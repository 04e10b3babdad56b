/** The bottom navigation bar (src/BottomNav.js): on every scroll it marks
    the last section whose middle has scrolled into view and stretches a
    progress bar to match. */
module BottomNav {

  import opened JsMath
  import opened Wrappers

  /** The layout of a section's element: `offsetTop` and `offsetHeight`. */
  datatype Element = Element(offsetTop: real, offsetHeight: real)

  function Midpoint(e: Element): real
  {
    e.offsetTop + e.offsetHeight / 2.0
  }

  /** The element exists and the bottom of the viewport is at or past its middle. */
  predicate Reached(el: Option<Element>, scrollPos: real): (b: bool)
    ensures el == None ==> !b
    ensures b && el.value.offsetHeight >= 0.0 ==> scrollPos >= el.value.offsetTop
    ensures el.Some? && el.value.offsetHeight >= 0.0 && scrollPos >= el.value.offsetTop + el.value.offsetHeight ==> b
  {
    el.Some? && scrollPos >= Midpoint(el.value)
  }

  /** The index `handleScroll` selects, defined from the end of the list:
      the last reached section, or 0 when none is reached. */
  function ActiveIndex(els: seq<Option<Element>>, scrollPos: real): (r: nat)
    ensures els != [] ==> r < |els|
    ensures els == [] ==> r == 0
    ensures els == [] || r == 0 || Reached(els[r], scrollPos)
    ensures forall j :: r < j < |els| ==> !Reached(els[j], scrollPos)
    ensures (forall j :: 0 <= j < |els| ==> !Reached(els[j], scrollPos)) ==> r == 0
  {
    if els == [] then 0
    else if Reached(els[|els| - 1], scrollPos) then |els| - 1
    else ActiveIndex(els[..|els| - 1], scrollPos)
  }

  /** The postconditions of ActiveIndex determine it: any index that is
      reached (or 0) and has no reached section after it is that index. */
  lemma ActiveIndexUnique(els: seq<Option<Element>>, scrollPos: real, r: nat)
    requires r < |els|
    requires Reached(els[r], scrollPos) || r == 0
    requires forall j :: r < j < |els| ==> !Reached(els[j], scrollPos)
    ensures r == ActiveIndex(els, scrollPos)
  {
  }

  /** Scrolling further down never moves the active marker back, whatever the
      order of the sections on the page. */
  lemma {:induction false} ActiveIndexMonotone(els: seq<Option<Element>>, pos: real, pos': real)
    requires pos <= pos'
    ensures ActiveIndex(els, pos) <= ActiveIndex(els, pos')
  {
    if els != [] && !Reached(els[|els| - 1], pos') {
      ActiveIndexMonotone(els[..|els| - 1], pos, pos');
    }
  }

  /** The `forEach` loop of `handleScroll`: a missing element is skipped, a
      reached one overwrites `current`. */
  method SelectActive(els: seq<Option<Element>>, scrollY: real, innerHeight: real) returns (current: nat)
    ensures current == ActiveIndex(els, scrollY + innerHeight)
  {
    var scrollPos := scrollY + innerHeight;
    current := 0;
    var i := 0;
    while i < |els|
      invariant 0 <= i <= |els|
      invariant current == ActiveIndex(els[..i], scrollPos)
    {
      assert els[..i + 1][..i] == els[..i];
      if els[i].Some? && scrollPos >= Midpoint(els[i].value) {
        current := i;
      }
      i := i + 1;
    }
    assert els[..i] == els;
  }

  /** `100 * (current / (sections.length - 1))`. With one section this is
      0 / 0, NaN; with none it is 0 / -1, which prints as 0. */
  function BarWidth(current: nat, count: nat): (w: Num)
    requires current == 0 || current < count
    ensures w == NaN <==> count == 1
    ensures count != 1 && current == 0 ==> w == Finite(0.0)
    ensures count >= 2 && current == count - 1 ==> w == Finite(100.0)
    ensures count >= 2 ==> 0.0 <= w.value <= 100.0
  {
    if count == 1 then NaN
    else
      BarFraction(current, count);
      Finite(100.0 * (current as real / (count as real - 1.0)))
  }

  lemma BarFraction(current: nat, count: nat)
    requires count >= 2 ==> current < count
    ensures count >= 2 ==> 0.0 <= current as real / (count as real - 1.0) <= 1.0
    ensures count != 1 && current == 0 ==> current as real / (count as real - 1.0) == 0.0
    ensures count >= 2 && current == count - 1 ==> current as real / (count as real - 1.0) == 1.0
  {
    if count != 1 {
      var d := count as real - 1.0;
      var q := current as real / d;
      assert q * d == current as real;
      if current == 0 {
        assert q == 0.0;
      }
    }
  }

  /** The bar grows with the active index. */
  lemma BarWidthMonotone(i: nat, j: nat, count: nat)
    requires i <= j < count && count >= 2
    ensures BarWidth(i, count).value <= BarWidth(j, count).value
  {
    var d := count as real - 1.0;
    assert i as real / d <= j as real / d by {
      assert j as real / d - i as real / d == (j - i) as real / d;
    }
  }

  /** The bar's component state: the active index and the width last
      accepted by the bar's style (None while the stylesheet's width applies). */
  class Nav {
    var activeIndex: nat
    var barWidth: Option<real>

    constructor ()
      ensures activeIndex == 0 && barWidth == None
    {
      activeIndex := 0;
      barWidth := None;
    }

    /** `handleScroll`. `els` are the results of `document.getElementById`
        for the sections, in order; `barMounted` is whether `barRef.current`
        is set. A "NaN%" width is rejected by the style, which keeps its old value. */
    method HandleScroll(els: seq<Option<Element>>, scrollY: real, innerHeight: real, barMounted: bool)
      modifies this
      ensures activeIndex == ActiveIndex(els, scrollY + innerHeight)
      ensures barMounted && BarWidth(activeIndex, |els|).Finite? ==>
        barWidth == Some(BarWidth(activeIndex, |els|).value)
      ensures !(barMounted && BarWidth(activeIndex, |els|).Finite?) ==> barWidth == old(barWidth)
    {
      var current := SelectActive(els, scrollY, innerHeight);
      activeIndex := current;
      if barMounted {
        var w := BarWidth(current, |els|);
        if w.Finite? {
          barWidth := Some(w.value);
        }
      }
    }
  }
}
