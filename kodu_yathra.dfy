/** The scroll-driven scene of the Kodu Yathra page (src/app/KoduYathra.js):
    letters that appear one after another as the scroll progresses through a
    window, and a ship whose scale, x position and rotation follow the
    scroll offset. */
module KoduYathra {

  import opened JsMath
  import opened Wrappers

  // ---------------------------------------------------------------------
  // Letter reveal
  // ---------------------------------------------------------------------

  /** `Math.min(Math.max((t - startOffset) / (endOffset - startOffset), 0), 1)`.
      With a zero-width window the quotient is +Infinity, -Infinity or (at
      `t == startOffset`) NaN; the clamp turns the infinities into 1 and 0 and
      leaves NaN alone. */
  function Progress(t: real, startOffset: real, endOffset: real): (p: Num)
    ensures startOffset != endOffset ==> p.Finite? && 0.0 <= p.value <= 1.0
    ensures p == NaN <==> startOffset == endOffset == t
    ensures startOffset == endOffset && t < startOffset ==> p == Finite(0.0)
    ensures startOffset == endOffset && t > startOffset ==> p == Finite(1.0)
  {
    if startOffset == endOffset then
      if t > startOffset then Finite(1.0)
      else if t < startOffset then Finite(0.0)
      else NaN
    else
      Finite(Clamp01((t - startOffset) / (endOffset - startOffset)))
  }

  /** Before the window progress is 0, after it 1. */
  lemma ProgressSaturates(t: real, startOffset: real, endOffset: real)
    requires startOffset < endOffset
    ensures t <= startOffset ==> Progress(t, startOffset, endOffset) == Finite(0.0)
    ensures t >= endOffset ==> Progress(t, startOffset, endOffset) == Finite(1.0)
  {
    var w := endOffset - startOffset;
    if t <= startOffset {
      assert (t - startOffset) / w <= 0.0;
    }
    if t >= endOffset {
      assert (t - startOffset) / w >= 1.0;
    }
  }

  /** A later scroll offset never gives less progress. */
  lemma ProgressMonotone(t: real, t': real, startOffset: real, endOffset: real)
    requires startOffset < endOffset && t <= t'
    ensures Progress(t, startOffset, endOffset).value <= Progress(t', startOffset, endOffset).value
  {
    var w := endOffset - startOffset;
    QuotientMonotone(t - startOffset, t' - startOffset, w);
    Clamp01Monotone((t - startOffset) / w, (t' - startOffset) / w);
  }

  lemma QuotientMonotone(a: real, b: real, w: real)
    requires a <= b && w > 0.0
    ensures a / w <= b / w
  {
    assert b / w - a / w == (b - a) / w;
  }

  /** `progress * 10 > index`: the frame condition that reveals a letter.
      A NaN progress never satisfies it. */
  predicate Fires(p: Num, index: nat): (b: bool)
    ensures p == NaN ==> !b
    ensures p.Finite? && p.value <= 1.0 && b ==> index < 10
    ensures p == Finite(1.0) && index < 10 ==> b
  {
    p.Finite? && p.value * 10.0 > index as real
  }

  /** Progress never exceeds 1, so a letter with index 10 or more never fires. */
  lemma NoRevealFromTenOn(t: real, startOffset: real, endOffset: real, index: nat)
    requires index >= 10
    ensures !Fires(Progress(t, startOffset, endOffset), index)
  {
  }

  /** When the condition fires for a letter it fires for every earlier letter. */
  lemma RevealOrdered(p: Num, i: nat, j: nat)
    requires Fires(p, i) && j <= i
    ensures Fires(p, j)
  {
  }

  /** At the end of the window the first ten letters all fire. */
  lemma RevealCompleteAtEnd(t: real, startOffset: real, endOffset: real, index: nat)
    requires startOffset < endOffset && t >= endOffset && index < 10
    ensures Fires(Progress(t, startOffset, endOffset), index)
  {
    ProgressSaturates(t, startOffset, endOffset);
  }

  /** Whether letter `index` is visible after the frames `ts` have run: the
      state starts false and a frame can only set it to true. */
  function VisibleAfter(index: nat, startOffset: real, endOffset: real, ts: seq<real>): (r: bool)
    ensures r ==> ts != [] && index < 10
  {
    if ts == [] then false
    else VisibleAfter(index, startOffset, endOffset, ts[..|ts| - 1])
         || Fires(Progress(ts[|ts| - 1], startOffset, endOffset), index)
  }

  /** A letter is visible exactly when some past frame fired for it, whatever
      the scroll offset is now. */
  lemma {:induction false} VisibleAfterIffSomeFrameFired(index: nat, startOffset: real, endOffset: real, ts: seq<real>)
    ensures VisibleAfter(index, startOffset, endOffset, ts)
       <==> exists f :: 0 <= f < |ts| && Fires(Progress(ts[f], startOffset, endOffset), index)
  {
    if ts != [] {
      var n := |ts| - 1;
      VisibleAfterIffSomeFrameFired(index, startOffset, endOffset, ts[..n]);
      assert forall f :: 0 <= f < n ==> ts[..n][f] == ts[f];
    }
  }

  /** The latch: more frames never hide a visible letter. */
  lemma {:induction false} VisibleStaysVisible(index: nat, startOffset: real, endOffset: real, ts: seq<real>, more: seq<real>)
    requires VisibleAfter(index, startOffset, endOffset, ts)
    ensures VisibleAfter(index, startOffset, endOffset, ts + more)
  {
    if more != [] {
      var n := |more| - 1;
      assert (ts + more)[..|ts + more| - 1] == ts + more[..n];
      VisibleStaysVisible(index, startOffset, endOffset, ts, more[..n]);
    } else {
      assert ts + more == ts;
    }
  }

  /** Letters appear in order: whenever letter `i` is visible, so is every
      earlier letter of the same text. */
  lemma {:induction false} VisibleOrdered(i: nat, j: nat, startOffset: real, endOffset: real, ts: seq<real>)
    requires j <= i && VisibleAfter(i, startOffset, endOffset, ts)
    ensures VisibleAfter(j, startOffset, endOffset, ts)
  {
    var n := |ts| - 1;
    if !Fires(Progress(ts[n], startOffset, endOffset), i) {
      VisibleOrdered(i, j, startOffset, endOffset, ts[..n]);
    }
  }

  /** An illustration of the latch that `VisibleStaysVisible` states in
      general: scrolling past the window and then back to its start leaves
      the first letter visible. */
  lemma ScrollingBackKeepsLetter()
    ensures Fires(Progress(1.0, 0.5, 1.0), 0)
    ensures !Fires(Progress(0.5, 0.5, 1.0), 0)
    ensures VisibleAfter(0, 0.5, 1.0, [1.0, 0.5])
  {
    assert [1.0, 0.5][..1] == [1.0];
    assert [1.0][..0] == [];
  }

  /** One `<Letter>`: its index in the text, the window, and the `visible` state. */
  class Letter {
    const index: nat
    const startOffset: real
    const endOffset: real
    var visible: bool
    /** The scroll offsets of the frames run so far. */
    ghost var frames: seq<real>

    ghost predicate Valid()
      reads this
    {
      visible == VisibleAfter(index, startOffset, endOffset, frames)
    }

    constructor (index: nat, startOffset: real, endOffset: real)
      ensures Valid() && !visible && frames == []
      ensures this.index == index && this.startOffset == startOffset && this.endOffset == endOffset
    {
      this.index := index;
      this.startOffset := startOffset;
      this.endOffset := endOffset;
      visible := false;
      frames := [];
    }

    /** The `useFrame` callback: reveal when the threshold fires, never hide. */
    method Frame(t: real)
      requires Valid()
      modifies this
      ensures Valid() && frames == old(frames) + [t]
      ensures visible == (old(visible) || Fires(Progress(t, startOffset, endOffset), index))
    {
      var progress := Progress(t, startOffset, endOffset);
      if Fires(progress, index) {
        visible := true;
      }
      frames := frames + [t];
      assert frames[..|frames| - 1] == old(frames);
    }
  }

  // ---------------------------------------------------------------------
  // The ship
  // ---------------------------------------------------------------------

  /** The uniform scale `0.5 * Math.min(Math.max(t * 5, 0), 1)`: the ship
      grows to half size over the first fifth of the scroll. */
  function ShipScale(t: real): (s: real)
    ensures 0.0 <= s <= 0.5
    ensures t >= 0.2 ==> s == 0.5
    ensures t <= 0.0 ==> s == 0.0
  {
    0.5 * Clamp01(t * 5.0)
  }

  /** The x position: from 10 to -10 over [0, 0.3], then back to 10 over [0.3, 1]. */
  function ShipX(t: real): (x: real)
    ensures x == -10.0 <==> t == 0.3
    ensures t < 0.0 || t > 1.0 ==> x > 10.0
  {
    var x := 10.0 - 20.0 * Min(t / 0.3, 1.0);
    if t > 0.3 then -10.0 + 20.0 * ((t - 0.3) / 0.7) else x
  }

  /** The x path starts at 10, turns at -10 when t is 0.3 and ends at 10. */
  lemma ShipXKeyFrames()
    ensures ShipX(0.0) == 10.0 && ShipX(0.3) == -10.0 && ShipX(1.0) == 10.0
  {
  }

  /** For offsets in [0, 1] the ship stays within [-10, 10]. */
  lemma ShipXBounded(t: real)
    requires 0.0 <= t <= 1.0
    ensures -10.0 <= ShipX(t) <= 10.0
  {
    if t > 0.3 {
      assert 0.0 < (t - 0.3) / 0.7 <= 1.0;
    } else {
      assert 0.0 <= t / 0.3 <= 1.0;
    }
  }

  /** The two pieces meet at t = 0.3: the x position moves by at most 200/3
      per unit of offset away from that point, so it is continuous there. */
  lemma ShipXContinuousAtTurn(t: real)
    ensures var d := ShipX(t) - ShipX(0.3);
      var dt := if t >= 0.3 then t - 0.3 else 0.3 - t;
      -(200.0 / 3.0) * dt <= d <= (200.0 / 3.0) * dt
  {
    if t > 0.3 {
      assert ShipX(t) - ShipX(0.3) == (200.0 / 7.0) * (t - 0.3);
    } else {
      assert t / 0.3 <= 1.0;
      assert ShipX(t) - ShipX(0.3) == (200.0 / 3.0) * (0.3 - t);
    }
  }

  /** `Math.PI * clamp((t - 0.05) / (0.45 - 0.05), 0, 1)`: the ship turns
      half a revolution between offsets 0.05 and 0.45. */
  function TargetRotation(t: real): (r: real)
    ensures 0.0 <= r <= Pi
    ensures t <= 0.05 ==> r == 0.0
    ensures t >= 0.45 ==> r == Pi
  {
    Pi * Clamp01((t - 0.05) / (0.45 - 0.05))
  }

  /** The rotation target never decreases as the scroll advances. */
  lemma TargetRotationMonotone(t: real, t': real)
    requires t <= t'
    ensures TargetRotation(t) <= TargetRotation(t')
  {
    QuotientMonotone(t - 0.05, t' - 0.05, 0.45 - 0.05);
    Clamp01Monotone((t - 0.05) / (0.45 - 0.05), (t' - 0.05) / (0.45 - 0.05));
  }

  /** What one frame writes onto the ship node (y and z are not modelled). */
  datatype ShipPose = ShipPose(scale: real, x: real, rotationY: real)

  /** The `Scene` component: the ship's smoothed rotation survives between frames. */
  class Ship {
    var prevRotation: real

    ghost predicate Valid()
      reads this
    {
      0.0 <= prevRotation <= Pi
    }

    constructor ()
      ensures Valid() && prevRotation == 0.0
    {
      prevRotation := 0.0;
    }

    /** One `useFrame` callback; `mounted` is whether `shipRef.current` is set.
        The rotation moves a tenth of the way toward its target and stays a
        half turn at most. */
    method Frame(t: real, mounted: bool) returns (pose: Option<ShipPose>)
      requires Valid()
      modifies this
      ensures Valid()
      ensures !mounted ==> pose == None && prevRotation == old(prevRotation)
      ensures mounted ==> prevRotation == Lerp(old(prevRotation), TargetRotation(t), 0.1)
      ensures mounted ==> pose == Some(ShipPose(ShipScale(t), ShipX(t), prevRotation))
    {
      if !mounted {
        return None;
      }
      var scale := ShipScale(t);
      var x := ShipX(t);
      var target := TargetRotation(t);
      LerpBetween(prevRotation, target, 0.1);
      prevRotation := Lerp(prevRotation, target, 0.1);
      pose := Some(ShipPose(scale, x, prevRotation));
    }
  }

  /** Each frame closes the gap to the rotation target by a tenth. */
  lemma RotationConverges(prev: real, t: real)
    ensures TargetRotation(t) - Lerp(prev, TargetRotation(t), 0.1) == 0.9 * (TargetRotation(t) - prev)
  {
  }
}
