/** The scroll-scrubbed city scene (src/app/ScrollAnimatedGLB.js): a title
    that is switched on near the end of the scroll track, a camera that
    zooms in as the page scrolls, and an animation clip scrubbed by the
    scroll offset. */
module ScrollAnimatedGlb {

  import opened JsMath
  import opened Wrappers

  /** The scroll offset at which the title is switched. */
  const TextThreshold: real := 0.9

  /** One frame of `ScrollListener`: switch on above the threshold, off below
      it, and leave the state alone at the threshold itself. */
  function NextShowText(showText: bool, offset: real): (r: bool)
    ensures offset == TextThreshold ==> r == showText
    ensures offset != TextThreshold ==> r == (offset > TextThreshold)
  {
    if offset > TextThreshold && !showText then true
    else if offset < TextThreshold && showText then false
    else showText
  }

  /** A second frame at the same offset changes nothing. */
  lemma NextShowTextIdempotent(showText: bool, offset: real)
    ensures NextShowText(NextShowText(showText, offset), offset) == NextShowText(showText, offset)
  {
  }

  /** The switch can be undone: scrolling past the threshold and back hides
      the title again, and the other way round. */
  lemma NextShowTextReversible(showText: bool, above: real, below: real)
    requires below < TextThreshold < above
    ensures !NextShowText(NextShowText(showText, above), below)
    ensures NextShowText(NextShowText(showText, below), above)
  {
  }

  /** The component's `showText` state, driven by `ScrollListener`. */
  class TitleOverlay {
    var showText: bool

    constructor ()
      ensures !showText
    {
      showText := false;
    }

    /** One `useFrame` callback. `toggled` is whether the state changed. */
    method Frame(offset: real) returns (toggled: bool)
      modifies this
      ensures showText == NextShowText(old(showText), offset)
      ensures toggled == (showText != old(showText))
    {
      toggled := false;
      if offset > TextThreshold && !showText {
        showText := true;
        toggled := true;
      } else if offset < TextThreshold && showText {
        showText := false;
        toggled := true;
      }
    }
  }

  const ZoomStart: real := 15.0
  const ZoomEnd: real := 8.0

  /** The camera distance `lerp(15, 8, offset)`. */
  function Zoom(offset: real): (z: real)
    ensures offset == 0.0 ==> z == ZoomStart
    ensures offset == 1.0 ==> z == ZoomEnd
  {
    Lerp(ZoomStart, ZoomEnd, offset)
  }

  /** Over the scroll track the camera stays between 8 and 15 ... */
  lemma ZoomBounded(offset: real)
    requires 0.0 <= offset <= 1.0
    ensures ZoomEnd <= Zoom(offset) <= ZoomStart
  {
    LerpBetween(ZoomStart, ZoomEnd, offset);
  }

  /** ... and only ever moves closer as the page scrolls down. */
  lemma ZoomMonotone(offset: real, offset': real)
    requires offset <= offset'
    ensures Zoom(offset') <= Zoom(offset)
  {
  }

  /** The clip time the scroll asks for: `duration / 2 * offset`. */
  function ScrubTarget(duration: real, offset: real): (target: real)
    ensures 0.0 <= duration && 0.0 <= offset <= 1.0 ==> 0.0 <= target <= duration / 2.0
    ensures offset == 1.0 ==> target == duration / 2.0
  {
    ScrubLemma(duration / 2.0, offset);
    duration / 2.0 * offset
  }

  lemma ScrubLemma(half: real, offset: real)
    ensures 0.0 <= half && 0.0 <= offset <= 1.0 ==> 0.0 <= half * offset <= half
  {
    if 0.0 <= half && 0.0 <= offset <= 1.0 {
      ScaleByFraction(offset, half);
    }
  }

  /** What one frame of `LittlestTokyo` asks for: the clip time to approach
      and the camera distance. */
  datatype TokyoTargets = TokyoTargets(clipTime: real, zoom: real)

  /** One frame of `LittlestTokyo`; `clipDuration` is the duration of the
      first animation, if the model has one. Without an animation the frame
      returns early and the camera is not moved either. */
  function TokyoFrame(clipDuration: Option<real>, offset: real): (r: Option<TokyoTargets>)
    ensures r.Some? <==> clipDuration.Some?
    ensures r.Some? && 0.0 <= clipDuration.value && 0.0 <= offset <= 1.0 ==>
      0.0 <= r.value.clipTime <= clipDuration.value / 2.0 && ZoomEnd <= r.value.zoom <= ZoomStart
  {
    match clipDuration
    case None => None
    case Some(d) =>
      ZoomBoundedIfInTrack(offset);
      Some(TokyoTargets(ScrubTarget(d, offset), Zoom(offset)))
  }

  lemma ZoomBoundedIfInTrack(offset: real)
    ensures 0.0 <= offset <= 1.0 ==> ZoomEnd <= Zoom(offset) <= ZoomStart
  {
    if 0.0 <= offset <= 1.0 {
      ZoomBounded(offset);
    }
  }
}
