# Kodu Yaathra invitation: the scroll and typing logic, in Dafny

The Kodu Yaathra site is a one-page animated invitation. Most of it is view
composition: WebGL canvases, model loaders, tweens and DOM styling. This
project models the small amount of deterministic logic inside it and proves
what that logic promises.

- **Typewriter card** (`src/app/Invitation2.js`, module `Typewriter`).
  - The invitation lines are flattened into one text, `fullText`, joined by `'\n'`.
  - Each rendered grapheme gets a global index: the line's `prevLength`, plus the lengths of the earlier segments, plus its position within its segment.
  - A counter ticks up to `fullText.length`. A grapheme is opaque exactly when its index is below the counter.
  - Strings are sequences of UTF-16 code units, so `.length` is the sequence length.
  - The grapheme splitter is an external library. It is a function parameter, known only by its contract: its graphemes concatenate back to the input and none is empty.
- **Letter reveal and ship** (`src/app/KoduYathra.js`, module `KoduYathra`).
  - Progress through a scroll window is clamped into [0, 1].
  - A `Letter` latches `visible` once `progress * 10 > index`.
  - The ship's scale, x position and rotation target are functions of the offset. Its smoothed rotation is a field updated every frame.
- **Title toggle and camera** (`src/app/ScrollAnimatedGLB.js`, module `ScrollAnimatedGlb`).
  - The `showText` state switches at offset 0.9.
  - The camera distance is `lerp(15, 8, offset)`.
  - The animation clip is scrubbed towards `duration / 2 * offset`.
- **Bottom navigation** (`src/BottomNav.js`, module `BottomNav`).
  - `handleScroll` picks the last section whose middle is at or above the bottom of the viewport. It defaults to 0.
  - It then sets the progress bar's width to `100 * current / (n - 1)` percent.
- Shared modules:
  - `JsMath` holds the clamp, three.js's `lerp`, `Math.PI`, and a number type that can be NaN.
  - `Wrappers` holds `Option`, used for a DOM lookup that returns null and a model without an animation.

Numbers are modelled as exact reals. The decimal constants of the code (0.9, 0.3, 0.05, ...) are therefore taken at their decimal values.

Three behaviours of the code are easy to misread; the model states each one:
- A letter never hides again once shown: the code only ever sets `visible` to true (`src/app/KoduYathra.js:36-41`). `KoduYathra.VisibleStaysVisible` states this, and `KoduYathra.ScrollingBackKeepsLetter` illustrates it.
- A zero-width window gives 0 before its start, 1 after it and NaN exactly at it: the division gives minus or plus infinity, which the clamp turns into 0 or 1, and 0 / 0 at the start. NaN never reveals a letter (`KoduYathra.Progress`).
- With a single section, the bar width is 0 / 0, that is NaN. The style rejects the resulting "NaN%" and keeps its old width (`BottomNav.BarWidth`, `BottomNav.Nav.HandleScroll`).

## Model

| member | source | states |
|---|---|---|
| `JsMath.Min` | src/app/KoduYathra.js:76 | `Math.min(a, b)` is at most both arguments and is one of them |
| `JsMath.Max` | src/app/KoduYathra.js:40 | `Math.max(a, b)` is at least both arguments and is one of them |
| `JsMath.Clamp01` | src/app/KoduYathra.js:40 | `Math.min(Math.max(v, 0), 1)` lies in [0, 1], is the identity on [0, 1], and saturates at 0 below and 1 above |
| `JsMath.Clamp01Monotone` | src/app/KoduYathra.js:40 | the clamp preserves order |
| `JsMath.Lerp` | src/app/ScrollAnimatedGLB.js:147 | three.js `lerp(x, y, t)` is `x` at t = 0 and `y` at t = 1, and moves from `x` by the fraction `t` of `y - x` |
| `JsMath.LerpBetween` | src/app/KoduYathra.js:85 | with a weight in [0, 1], the lerp lies between its two ends |
| `Typewriter.GraphemeCountBound` | src/app/Invitation2.js:177 | a grapheme splitter never yields more graphemes than the string has code units |
| `Typewriter.IsSplitter` | src/app/Invitation2.js:177 | the contract standing for `splitter.splitGraphemes`: the graphemes of a string join back to it, and none is empty |
| `Typewriter.Sum` | src/app/Invitation2.js:201 | the definition of `reduce((a, b) => a + b, 0)` over a list of lengths |
| `Typewriter.TotalLength` | src/app/Invitation2.js:198 | the definition of summing `.length` over a list of strings, as the `reduce` over `t.part.length` does |
| `Typewriter.Parts` | src/app/Invitation2.js:55 | the definition of `l.text.map(seg => seg.part)` |
| `Typewriter.PartsLength` | src/app/Invitation2.js:207 | the definition of `reduce((a, t) => a + t.part.length, 0)` over a line's segments |
| `Typewriter.LineLength` | src/app/Invitation2.js:196-200 | the definition of the length a line adds to `prevLength`: the summed part lengths of a segmented line, or the `.length` of a plain one |
| `Typewriter.LineStrings` | src/app/Invitation2.js:53-57 | the definition of the `lines.map(...)` that gives each line's text before the `join('\n')` |
| `Typewriter.LineLengths` | src/app/Invitation2.js:195-200 | the definition of the `.map(...)` that gives each earlier line's length |
| `Typewriter.Concat` | src/app/Invitation2.js:56 | `join('')` of a list of strings is as long as the summed `.length` of its strings (the `reduce` of lines 198 and 207) |
| `Typewriter.JoinLines` | src/app/Invitation2.js:59 | `join('\n')` is as long as the summed lengths plus one separator between each two strings, and empty for no strings |
| `Typewriter.ConcatAt` | src/app/Invitation2.js:56 | string j sits in `join('')` at the summed length of strings 0..j-1 |
| `Typewriter.JoinLinesAt` | src/app/Invitation2.js:59 | string k sits in `join('\n')` after strings 0..k-1 and k separators, and a separator follows it unless it is last |
| `Typewriter.LinesTotalLength` | src/app/Invitation2.js:194-201 | the summed lengths of the line texts equal the summed line lengths that `prevLength` adds up |
| `Typewriter.PartsLengthStep` | src/app/Invitation2.js:207 | the summed part lengths of segments 0..j are those of 0..j-1 plus segment j's `.part.length` |
| `Typewriter.LineString` | src/app/Invitation2.js:55-57 | a line's text is as long as the length the offsets count for it |
| `Typewriter.FullText` | src/app/Invitation2.js:53-59 | `fullText` has length (sum of line lengths) + (number of lines - 1), and 0 for no lines |
| `Typewriter.PrevLength` | src/app/Invitation2.js:194-201 | the first line starts at 0, and each earlier line takes at least its separator slot |
| `Typewriter.PrevLengthIsTextEnd` | src/app/Invitation2.js:194-201 | line k (k > 0) starts one past the end of the joined text of lines 0..k-1 |
| `Typewriter.SegmentOffset` | src/app/Invitation2.js:207 | segment j starts after the joined parts of segments 0..j-1 |
| `Typewriter.PrevLengthStep` | src/app/Invitation2.js:194-201 | line k+1's `prevLength` is line k's plus its length plus one separator slot |
| `Typewriter.LineInFullText` | src/app/Invitation2.js:194-201 | line k's text sits in `fullText` exactly at `prevLength(k)`, and a '\n' follows it unless it is the last line |
| `Typewriter.SegmentInLine` | src/app/Invitation2.js:207 | segment j sits in its line's text at the summed length of segments 0..j-1 |
| `Typewriter.SegmentInFullText` | src/app/Invitation2.js:207 | the base offset given to `makeChars` for segment j of line k is where that segment sits in `fullText` |
| `Typewriter.Display` | src/app/Invitation2.js:189 | a rendered grapheme keeps its length and is never a bare space; only a space is replaced |
| `Typewriter.MakeChars` | src/app/Invitation2.js:176-192 | one span per grapheme with its displayed text and the given class; global indices run up from `baseOffset` within [baseOffset, baseOffset + count), and a span is opaque iff its index is below `visibleCount` |
| `Typewriter.SegmentSpans` | src/app/Invitation2.js:205-208 | every span of a segmented line has an index at or after the line's offset, and is opaque iff its index is below `visibleCount` |
| `Typewriter.Paragraph` | src/app/Invitation2.js:203-211 | every span of line k has an index at or after `prevLength(k)`, and is opaque iff its index is below `visibleCount` |
| `Typewriter.Card` | src/app/Invitation2.js:175-212 | one paragraph per line, each showing exactly the spans whose index is below `visibleCount` |
| `Typewriter.SegmentSpansWithin` | src/app/Invitation2.js:205-208 | the spans of a segmented line have strictly increasing global indices inside the line's slot, so segments' index ranges never overlap |
| `Typewriter.ParagraphWithin` | src/app/Invitation2.js:176-209 | every span of line k has an index in [prevLength(k), prevLength(k) + length), indices increase along the line, and a span is opaque iff its index is below `visibleCount` |
| `Typewriter.CardIndicesDistinct` | src/app/Invitation2.js:175-212 | no two spans of the card share a global index, and every index is below `fullText.length` |
| `Typewriter.RaisingCountNeverHides` | src/app/Invitation2.js:184 | raising `visibleCount` keeps the layout and never hides a shown character |
| `Typewriter.TypeOut` | src/app/Invitation2.js:133-138 | the interval writes 1, 2, ... in steps of one and stops at `fullText.length` (at 1 for an empty text), never below the length |
| `Typewriter.TypingRevealsEverything` | src/app/Invitation2.js:133-138 | once the counter has reached `fullText.length`, every character of the card is shown |
| `KoduYathra.Progress` | src/app/KoduYathra.js:40 | window progress is finite and in [0, 1] for a non-empty window; for an empty window it is 0 before it, 1 after it, and NaN exactly at it, which is the only NaN |
| `KoduYathra.Fires` | src/app/KoduYathra.js:41 | NaN progress never fires; progress at most 1 fires only for letters below 10; progress 1 fires for every letter below 10 |
| `KoduYathra.VisibleAfter` | src/app/KoduYathra.js:36-42 | a letter is visible only after at least one frame, and never when its index is 10 or more |
| `KoduYathra.ProgressSaturates` | src/app/KoduYathra.js:40 | progress is 0 for t <= startOffset and 1 for t >= endOffset |
| `KoduYathra.ProgressMonotone` | src/app/KoduYathra.js:40 | progress never decreases as t grows |
| `KoduYathra.NoRevealFromTenOn` | src/app/KoduYathra.js:41 | a letter with index 10 or more never satisfies `progress * 10 > index` |
| `KoduYathra.RevealOrdered` | src/app/KoduYathra.js:41 | if the condition fires for letter i, it fires for every letter j <= i |
| `KoduYathra.RevealCompleteAtEnd` | src/app/KoduYathra.js:41 | at or past the window's end, the condition fires for each of the first ten letters |
| `KoduYathra.VisibleAfterIffSomeFrameFired` | src/app/KoduYathra.js:36-42 | after a run of frames, a letter is visible iff some frame's progress fired for it |
| `KoduYathra.VisibleStaysVisible` | src/app/KoduYathra.js:36-42 | further frames never set a visible letter back to hidden |
| `KoduYathra.VisibleOrdered` | src/app/KoduYathra.js:36-42 | after any run of frames, letter i visible implies every letter j <= i visible |
| `KoduYathra.ScrollingBackKeepsLetter` | src/app/KoduYathra.js:36-42 | an illustration of `VisibleStaysVisible` on one run: a letter revealed at offset 1.0 stays visible after scrolling back to 0.5, where the condition no longer fires |
| `KoduYathra.Letter.constructor` | src/app/KoduYathra.js:36 | a letter starts hidden |
| `KoduYathra.Letter.Frame` | src/app/KoduYathra.js:38-42 | one frame sets `visible` to its old value or the threshold; the letter stays equal to the fold over all frames so far |
| `KoduYathra.ShipScale` | src/app/KoduYathra.js:72-73 | the ship's scale lies in [0, 0.5], is 0 for t <= 0 and 0.5 for all t >= 0.2 |
| `KoduYathra.ShipX` | src/app/KoduYathra.js:76-77 | x reaches -10 exactly at t = 0.3, and exceeds 10 for offsets outside [0, 1], since neither piece is clamped |
| `KoduYathra.ShipXKeyFrames` | src/app/KoduYathra.js:76-77 | x is 10 at t = 0, -10 at t = 0.3 and 10 at t = 1 |
| `KoduYathra.ShipXBounded` | src/app/KoduYathra.js:76-77 | for t in [0, 1], x lies in [-10, 10] |
| `KoduYathra.ShipXContinuousAtTurn` | src/app/KoduYathra.js:76-77 | x moves by at most 200/3 per unit of offset around t = 0.3, so the two pieces meet continuously |
| `KoduYathra.TargetRotation` | src/app/KoduYathra.js:84 | the rotation target lies in [0, pi], is 0 for t <= 0.05 and pi for t >= 0.45 |
| `KoduYathra.TargetRotationMonotone` | src/app/KoduYathra.js:84 | the rotation target never decreases as t grows |
| `KoduYathra.Ship.constructor` | src/app/KoduYathra.js:65 | the smoothed rotation starts at 0 |
| `KoduYathra.Ship.Frame` | src/app/KoduYathra.js:67-86 | without a mounted ship the frame does nothing; otherwise the rotation moves a tenth of the way to its target and stays in [0, pi], and the pose written is the scale, x and new rotation |
| `KoduYathra.RotationConverges` | src/app/KoduYathra.js:85 | each frame shrinks the gap to the rotation target to nine tenths |
| `ScrollAnimatedGlb.NextShowText` | src/app/ScrollAnimatedGLB.js:24-25 | at offset 0.9 the state is unchanged; at any other offset the new state is `offset > 0.9` |
| `ScrollAnimatedGlb.NextShowTextIdempotent` | src/app/ScrollAnimatedGLB.js:24-25 | a second frame at the same offset changes nothing |
| `ScrollAnimatedGlb.NextShowTextReversible` | src/app/ScrollAnimatedGLB.js:24-25 | crossing the threshold up and back hides the title, and crossing down and back shows it |
| `ScrollAnimatedGlb.TitleOverlay.constructor` | src/app/ScrollAnimatedGLB.js:18 | the title starts hidden |
| `ScrollAnimatedGlb.TitleOverlay.Frame` | src/app/ScrollAnimatedGLB.js:23-26 | one frame applies the toggle to `showText` and reports whether the state changed |
| `ScrollAnimatedGlb.Zoom` | src/app/ScrollAnimatedGLB.js:145-147 | the camera distance is 15 at offset 0 and 8 at offset 1 |
| `ScrollAnimatedGlb.ZoomBounded` | src/app/ScrollAnimatedGLB.js:145-147 | for offsets in [0, 1] the distance lies in [8, 15] |
| `ScrollAnimatedGlb.ZoomMonotone` | src/app/ScrollAnimatedGLB.js:145-147 | the camera only moves closer as the offset grows |
| `ScrollAnimatedGlb.ScrubTarget` | src/app/ScrollAnimatedGLB.js:139 | for offsets in [0, 1] the scrub target lies in [0, duration / 2], reaching half the clip at offset 1 |
| `ScrollAnimatedGlb.TokyoFrame` | src/app/ScrollAnimatedGLB.js:129-149 | without an animation the frame returns early and sets nothing; otherwise the clip target is at most half the clip and the zoom lies in [8, 15] |
| `BottomNav.Midpoint` | src/BottomNav.js:15 | the definition of `el.offsetTop + el.offsetHeight / 2` |
| `BottomNav.Reached` | src/BottomNav.js:15 | a missing element is never reached; for a non-negative height a reached section's top is at or above the viewport bottom, and a section wholly above it is reached |
| `BottomNav.ActiveIndex` | src/BottomNav.js:12-18 | the active index is within the list, is a reached section or 0, has no reached section after it, and is 0 when none is reached |
| `BottomNav.ActiveIndexUnique` | src/BottomNav.js:12-18 | any index meeting those conditions is the active index |
| `BottomNav.ActiveIndexMonotone` | src/BottomNav.js:11-18 | a larger scroll position never gives a smaller active index, whatever the order of the sections |
| `BottomNav.SelectActive` | src/BottomNav.js:11-18 | the `forEach` loop, which skips missing elements and overwrites `current` with each reached index, computes the active index |
| `BottomNav.BarWidth` | src/BottomNav.js:22 | the bar width is 0% at index 0 and 100% at the last index, within [0, 100] for two or more sections, and NaN exactly when there is one section |
| `BottomNav.BarWidthMonotone` | src/BottomNav.js:22 | the bar grows with the active index |
| `BottomNav.Nav.constructor` | src/BottomNav.js:6 | the active index starts at 0 and the bar has no width set |
| `BottomNav.Nav.HandleScroll` | src/BottomNav.js:10-24 | the active index becomes the selected index; the bar width is written when the bar is mounted and the width is a number, and is otherwise kept |

## Left out

- The custom cursor of the invitation card (`src/app/Invitation2.js:66-107`) is left out. It is floating-point smoothing with `sqrt` and `atan2`, driven by `requestAnimationFrame`.
- Scheduling is left out: the 2-second popup timeout, `setInterval`'s 50 ms period, `clearTimeout` on unmount, event-listener registration and `scrollIntoView`. `Typewriter.TypeOut` gives only the sequence of values the interval writes.
- The literal invitation text (`src/app/Invitation2.js:12-51`) is not reproduced. The model is stated for any list of lines.
- The grapheme splitter is an external library. The model keeps only its contract.
- `KoduYathra.Ship.Frame`: the pose omits the ship's y and z (`Math.sin` terms) and the background colour (`pow(t, 2.5)` and a colour lerp), because they are transcendental floating-point functions.
- How `ScrollSinhala` splits its text into letters is left out. Each `Letter` is modelled on its own, with its index.
- `ScrollAnimatedGlb.TokyoFrame`: gives the clip time the frame aims at. The `THREE.MathUtils.damp` step that moves `action.time` towards it is library float smoothing and is left out.
- The gsap tweens are left out: the title fade, the popup and logo animations, `GalleryCarousel`, the scrubbed `scrollTrigger` tween of `PaperScroll.js` (`src/app/PaperScroll.js:16-24`) and those of `TextEffect.js.js` (`src/app/TextEffect.js.js:12-22`). They are library configuration.
- `ScrollAnimatedGlb.TitleOverlay.Frame`: `toggled` reports a change of `showText`, but the fade effect (`src/app/ScrollAnimatedGLB.js:31-50`) also runs once after the first render, fading out the hidden title; that run is not modelled.
- `ScrollAnimatedGlb.TitleOverlay.Frame`: each state update takes effect at once. In the code `ScrollListener` is redefined on every render and reads `showText` from its closure, so frames before React re-renders still see the old value and may request the same update again; since the toggle is idempotent (`ScrollAnimatedGlb.NextShowTextIdempotent`) the settled state is the same, but the frame-by-frame timing is not captured.
- The 3D scenes, loaders and mixers are left out: `animate.js`, `FBXModelOnScroll.js`, `ScrollAnimatedFBX.js`, `Scroll3DSceneGLB.js`, `Scroll3DScene.js`, `Invitation.js`. They are foreign-library calls.
- The static pages `ButterflyCards.js`, `page.js` and `abc1/page.js` are left out.
- JavaScript doubles are modelled as exact reals. Rounding in the divisions and in the decimal constants is not captured.
