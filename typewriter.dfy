/** The typewriter card of the invitation page (src/app/Invitation2.js):
    the lines of the invitation are flattened into one text, every grapheme
    that is rendered gets a global index into that text, and a counter that
    ticks up to the text's length decides which graphemes are shown. */
module Typewriter {

  /** One UTF-16 code unit: JavaScript's `.length` counts these. */
  newtype CodeUnit = x: int | 0 <= x < 0x1_0000

  type JsString = seq<CodeUnit>

  const NewLine: CodeUnit := 0x0A
  const Space: CodeUnit := 0x20
  const NoBreakSpace: CodeUnit := 0xA0

  /** A styled run of text inside a line: `{ part, style }`. */
  datatype Segment = Segment(part: JsString, style: JsString)

  /** A line's `text` is either an array of segments or a plain string. */
  datatype LineText = Segments(segs: seq<Segment>) | Plain(text: JsString)

  /** A line of the invitation; `highlight` is the empty string when the line has none. */
  datatype Line = Line(text: LineText, highlight: JsString)

  /** One rendered `<span>`: the grapheme it shows, its class, its global
      index and its opacity. */
  datatype CharSpan = CharSpan(text: JsString, style: JsString, globalIndex: nat, opacity: int)

  // ---------------------------------------------------------------------
  // Joining and summing, as `join` and `reduce` do
  // ---------------------------------------------------------------------

  /** `reduce((a, b) => a + b, 0)` */
  function Sum(xs: seq<nat>): nat
  {
    if xs == [] then 0 else Sum(xs[..|xs| - 1]) + xs[|xs| - 1]
  }

  /** `reduce((acc, s) => acc + s.length, 0)`: the summed lengths. */
  function TotalLength(strs: seq<JsString>): nat
  {
    if strs == [] then 0 else TotalLength(strs[..|strs| - 1]) + |strs[|strs| - 1]|
  }

  /** `join('')`: the strings one after another; as long as their summed lengths. */
  function Concat(strs: seq<JsString>): (r: JsString)
    ensures |r| == TotalLength(strs)
  {
    if strs == [] then [] else Concat(strs[..|strs| - 1]) + strs[|strs| - 1]
  }

  /** `join('\n')`: the strings with one separator between each two. */
  function JoinLines(strs: seq<JsString>): (r: JsString)
    ensures |r| == if strs == [] then 0 else TotalLength(strs) + |strs| - 1
  {
    if strs == [] then []
    else if |strs| == 1 then strs[0]
    else JoinLines(strs[..|strs| - 1]) + [NewLine] + strs[|strs| - 1]
  }

  /** Summing one more element of a prefix adds that element. */
  lemma SumPrefixStep(xs: seq<nat>, k: nat)
    requires k < |xs|
    ensures Sum(xs[..k + 1]) == Sum(xs[..k]) + xs[k]
  {
    assert xs[..k + 1][..k] == xs[..k];
  }

  /** The concatenation of the first `m` strings is a prefix of the whole. */
  lemma {:induction false} ConcatPrefix(strs: seq<JsString>, m: nat)
    requires m <= |strs|
    ensures Concat(strs[..m]) <= Concat(strs)
  {
    if m < |strs| {
      var n := |strs| - 1;
      assert strs[..n][..m] == strs[..m];
      ConcatPrefix(strs[..n], m);
    } else {
      assert strs[..m] == strs;
    }
  }

  /** The joined text of the first `m` strings is a prefix of the whole. */
  lemma {:induction false} JoinLinesPrefix(strs: seq<JsString>, m: nat)
    requires 1 <= m <= |strs|
    ensures JoinLines(strs[..m]) <= JoinLines(strs)
  {
    if m < |strs| {
      var n := |strs| - 1;
      assert strs[..n][..m] == strs[..m];
      JoinLinesPrefix(strs[..n], m);
    } else {
      assert strs[..m] == strs;
    }
  }

  /** Slices inside a prefix are slices of the whole. */
  lemma SliceOfPrefix(p: JsString, s: JsString, i: nat, j: nat)
    requires p <= s && i <= j <= |p|
    ensures s[i..j] == p[i..j]
  {
    assert forall n :: i <= n < j ==> s[n] == p[n];
  }

  /** A piece that ends a prefix of `whole` is found in `whole` at the same place. */
  lemma PlacedInPrefix(upTo: JsString, whole: JsString, start: nat, piece: JsString)
    requires |upTo| == start + |piece| && upTo[start..] == piece && upTo <= whole
    ensures start + |piece| <= |whole| && whole[start..start + |piece|] == piece
  {
    SliceOfPrefix(upTo, whole, start, start + |piece|);
  }

  /** String `j` sits in the concatenation at the summed length of the strings before it. */
  lemma ConcatAt(strs: seq<JsString>, j: nat)
    requires j < |strs|
    ensures TotalLength(strs[..j]) + |strs[j]| <= |Concat(strs)|
    ensures Concat(strs)[TotalLength(strs[..j])..TotalLength(strs[..j]) + |strs[j]|] == strs[j]
  {
    var upTo := strs[..j + 1];
    assert upTo[..j] == strs[..j];
    assert Concat(upTo) == Concat(strs[..j]) + strs[j];
    ConcatPrefix(strs, j + 1);
    SliceOfPrefix(Concat(upTo), Concat(strs), |Concat(strs[..j])|, |Concat(upTo)|);
  }

  /** The joined text of strings 0..k ends with string `k`. */
  lemma JoinLinesUpTo(strs: seq<JsString>, k: nat)
    requires k < |strs|
    ensures |JoinLines(strs[..k + 1])| == TotalLength(strs[..k]) + k + |strs[k]|
    ensures JoinLines(strs[..k + 1])[TotalLength(strs[..k]) + k..] == strs[k]
  {
    var upTo := strs[..k + 1];
    assert upTo[..k] == strs[..k];
    if k > 0 {
      assert JoinLines(upTo) == JoinLines(strs[..k]) + [NewLine] + strs[k];
    }
  }

  /** A separator follows the joined text of strings 0..k when more follow. */
  lemma JoinLinesSeparator(strs: seq<JsString>, k: nat)
    requires k + 1 < |strs|
    ensures |JoinLines(strs[..k + 1])| < |JoinLines(strs)|
    ensures JoinLines(strs)[|JoinLines(strs[..k + 1])|] == NewLine
  {
    var next := strs[..k + 2];
    assert next[..k + 1] == strs[..k + 1];
    JoinLinesPrefix(strs, k + 2);
  }

  /** String `k` sits in the joined text after the strings before it and
      one separator for each of them; a separator follows unless it is last. */
  lemma JoinLinesAt(strs: seq<JsString>, k: nat)
    requires k < |strs|
    ensures TotalLength(strs[..k]) + k + |strs[k]| <= |JoinLines(strs)|
    ensures JoinLines(strs)[TotalLength(strs[..k]) + k..TotalLength(strs[..k]) + k + |strs[k]|] == strs[k]
    ensures k + 1 < |strs| ==> TotalLength(strs[..k]) + k + |strs[k]| < |JoinLines(strs)|
    ensures k + 1 < |strs| ==> JoinLines(strs)[TotalLength(strs[..k]) + k + |strs[k]|] == NewLine
  {
    JoinLinesUpTo(strs, k);
    JoinLinesPrefix(strs, k + 1);
    PlacedInPrefix(JoinLines(strs[..k + 1]), JoinLines(strs), TotalLength(strs[..k]) + k, strs[k]);
    if k + 1 < |strs| {
      JoinLinesSeparator(strs, k);
    }
  }

  // ---------------------------------------------------------------------
  // The grapheme splitter, an external library, known only by its contract
  // ---------------------------------------------------------------------

  /** What a grapheme splitter promises: the graphemes spell out the input
      again, and none of them is empty. */
  ghost predicate IsSplitter(split: JsString -> seq<JsString>)
  {
    forall s :: Concat(split(s)) == s && forall g :: g in split(s) ==> g != []
  }

  /** Non-empty pieces are at least one code unit each. */
  lemma {:induction false} ConcatLength(gs: seq<JsString>)
    requires forall g :: g in gs ==> g != []
    ensures |gs| <= |Concat(gs)|
  {
    if gs != [] {
      var n := |gs| - 1;
      assert forall g :: g in gs[..n] ==> g in gs;
      ConcatLength(gs[..n]);
      assert gs[n] in gs;
    }
  }

  /** A splitter never yields more graphemes than the string has code units. */
  lemma GraphemeCountBound(split: JsString -> seq<JsString>, s: JsString)
    requires IsSplitter(split)
    ensures |split(s)| <= |s|
  {
    ConcatLength(split(s));
  }

  // ---------------------------------------------------------------------
  // fullText and the offsets into it
  // ---------------------------------------------------------------------

  /** `l.text.map(seg => seg.part)` */
  function Parts(segs: seq<Segment>): seq<JsString>
  {
    seq(|segs|, j requires 0 <= j < |segs| => segs[j].part)
  }

  /** `segs.reduce((acc, t) => acc + t.part.length, 0)` */
  function PartsLength(segs: seq<Segment>): nat
  {
    TotalLength(Parts(segs))
  }

  /** The length a line contributes to the offsets of later lines (lines 197-199). */
  function LineLength(l: Line): nat
  {
    match l.text
    case Segments(segs) => PartsLength(segs)
    case Plain(t) => |t|
  }

  /** The text of one line in `fullText` (lines 55-57); it is exactly as long
      as the length the offsets count for it. */
  function LineString(l: Line): (r: JsString)
    ensures |r| == LineLength(l)
  {
    match l.text
    case Segments(segs) => Concat(Parts(segs))
    case Plain(t) => t
  }

  function LineStrings(lines: seq<Line>): seq<JsString>
  {
    seq(|lines|, k requires 0 <= k < |lines| => LineString(lines[k]))
  }

  function LineLengths(lines: seq<Line>): seq<nat>
  {
    seq(|lines|, k requires 0 <= k < |lines| => LineLength(lines[k]))
  }

  /** `fullText`: the line texts joined by '\n'; its length is the summed line
      lengths plus one separator between each two lines. */
  function FullText(lines: seq<Line>): (r: JsString)
    ensures |r| == if lines == [] then 0 else Sum(LineLengths(lines)) + |lines| - 1
  {
    LinesTotalLength(lines);
    JoinLines(LineStrings(lines))
  }

  /** The summed lengths of the line texts are the summed line lengths. */
  lemma {:induction false} LinesTotalLength(lines: seq<Line>)
    ensures TotalLength(LineStrings(lines)) == Sum(LineLengths(lines))
  {
    if lines != [] {
      var n := |lines| - 1;
      assert LineStrings(lines)[..n] == LineStrings(lines[..n]);
      assert LineLengths(lines)[..n] == LineLengths(lines[..n]);
      LinesTotalLength(lines[..n]);
    }
  }

  /** `prevLength` for line `k`: the lengths of the earlier lines plus one slot
      per earlier line for its separator. */
  function PrevLength(lines: seq<Line>, k: nat): (r: nat)
    requires k <= |lines|
    ensures k == 0 ==> r == 0
    ensures r >= k
  {
    Sum(LineLengths(lines[..k])) + k
  }

  /** Line `k` starts one past the end of the joined text of the lines before it. */
  lemma PrevLengthIsTextEnd(lines: seq<Line>, k: nat)
    requires 0 < k <= |lines|
    ensures PrevLength(lines, k) == |FullText(lines[..k])| + 1
  {
  }

  /** The base offset handed to `makeChars` for segment `j` of a line. */
  function SegmentOffset(lineOffset: nat, segs: seq<Segment>, j: nat): (r: nat)
    requires j <= |segs|
    ensures r == lineOffset + |Concat(Parts(segs[..j]))|
  {
    lineOffset + PartsLength(segs[..j])
  }

  /** A segmented line is as long as its first segments plus its last one. */
  lemma PartsLengthStep(segs: seq<Segment>, j: nat)
    requires j < |segs|
    ensures PartsLength(segs[..j + 1]) == PartsLength(segs[..j]) + |segs[j].part|
  {
    assert Parts(segs[..j + 1])[..j] == Parts(segs[..j]);
  }

  /** Each line's offset is one past the end of the line before it. */
  lemma PrevLengthStep(lines: seq<Line>, k: nat)
    requires k < |lines|
    ensures PrevLength(lines, k + 1) == PrevLength(lines, k) + LineLength(lines[k]) + 1
  {
    var ls := LineLengths(lines[..k + 1]);
    assert ls[..k] == LineLengths(lines[..k]);
    assert ls == ls[..k + 1];
    SumPrefixStep(ls, k);
  }

  /** Offsets of later lines lie past the end of earlier lines. */
  lemma {:induction false} PrevLengthPastLine(lines: seq<Line>, k: nat, m: nat)
    requires k < m <= |lines|
    ensures PrevLength(lines, k) + LineLength(lines[k]) < PrevLength(lines, m)
  {
    if m == k + 1 {
      PrevLengthStep(lines, k);
    } else {
      assert PrevLength(lines, k) + LineLength(lines[k]) < PrevLength(lines, m - 1) by {
        PrevLengthPastLine(lines, k, m - 1);
      }
      assert PrevLength(lines, m - 1) < PrevLength(lines, m) by {
        PrevLengthStep(lines, m - 1);
      }
    }
  }

  /** Line `k` sits in `fullText` at its `prevLength`, and a '\n' follows it
      unless it is the last line. */
  lemma LineInFullText(lines: seq<Line>, k: nat)
    requires k < |lines|
    ensures PrevLength(lines, k) + LineLength(lines[k]) <= |FullText(lines)|
    ensures FullText(lines)[PrevLength(lines, k)..PrevLength(lines, k) + LineLength(lines[k])] == LineString(lines[k])
    ensures k + 1 < |lines| ==> PrevLength(lines, k) + LineLength(lines[k]) < |FullText(lines)|
    ensures k + 1 < |lines| ==> FullText(lines)[PrevLength(lines, k) + LineLength(lines[k])] == NewLine
  {
    var strs := LineStrings(lines);
    assert strs[..k] == LineStrings(lines[..k]);
    LinesTotalLength(lines[..k]);
    JoinLinesAt(strs, k);
  }

  /** Segment `j` sits in its line's text at the summed length of the
      segments before it. */
  lemma SegmentInLine(segs: seq<Segment>, j: nat)
    requires j < |segs|
    ensures PartsLength(segs[..j]) + |segs[j].part| <= |Concat(Parts(segs))|
    ensures Concat(Parts(segs))[PartsLength(segs[..j])..PartsLength(segs[..j]) + |segs[j].part|] == segs[j].part
  {
    assert Parts(segs)[..j] == Parts(segs[..j]);
    ConcatAt(Parts(segs), j);
  }

  /** Hence segment `j` of line `k` sits in `fullText` at the base offset
      `makeChars` is given for it. */
  lemma SegmentInFullText(lines: seq<Line>, k: nat, j: nat)
    requires k < |lines| && lines[k].text.Segments? && j < |lines[k].text.segs|
    ensures var segs := lines[k].text.segs;
      var at := SegmentOffset(PrevLength(lines, k), segs, j);
      at + |segs[j].part| <= |FullText(lines)| &&
      FullText(lines)[at..at + |segs[j].part|] == segs[j].part
  {
    var segs := lines[k].text.segs;
    var full, start, line := FullText(lines), PrevLength(lines, k), LineString(lines[k]);
    var inLine, part := PartsLength(segs[..j]), segs[j].part;
    assert start + |line| <= |full| && full[start..start + |line|] == line by {
      LineInFullText(lines, k);
    }
    assert inLine + |part| <= |line| && line[inLine..inLine + |part|] == part by {
      SegmentInLine(segs, j);
    }
    PieceOfPiece(full, start, line, inLine, part);
  }

  /** A piece found inside a piece of `s` is found in `s`, at the summed offset. */
  lemma PieceOfPiece(s: JsString, at: nat, outer: JsString, within: nat, inner: JsString)
    requires at + |outer| <= |s| && s[at..at + |outer|] == outer
    requires within + |inner| <= |outer| && outer[within..within + |inner|] == inner
    ensures at + within + |inner| <= |s| && s[at + within..at + within + |inner|] == inner
  {
    assert forall n :: 0 <= n < |inner| ==> s[at + within + n] == outer[within + n] == inner[n];
  }

  // ---------------------------------------------------------------------
  // Rendering: makeChars and the global indices
  // ---------------------------------------------------------------------

  /** What a span shows: a space is rendered as a no-break space. */
  function Display(g: JsString): (r: JsString)
    ensures |r| == |g|
    ensures r != [Space]
    ensures g != [Space] ==> r == g
  {
    if g == [Space] then [NoBreakSpace] else g
  }

  /** `makeChars(text, extraClass, baseOffset)` applied to the graphemes of
      `text`: grapheme `i` gets global index `baseOffset + i`, and is opaque
      exactly when that index is below `visibleCount`. */
  function MakeChars(graphemes: seq<JsString>, style: JsString, baseOffset: nat, visibleCount: nat): (r: seq<CharSpan>)
    ensures |r| == |graphemes|
    ensures forall i :: 0 <= i < |r| ==> r[i].text == Display(graphemes[i]) && r[i].style == style
    ensures IndexedWithin(r, baseOffset, baseOffset + |graphemes|)
    ensures ShownIffBelow(r, visibleCount)
  {
    seq(|graphemes|, i requires 0 <= i < |graphemes| =>
      CharSpan(Display(graphemes[i]), style, baseOffset + i,
               if baseOffset + i < visibleCount then 1 else 0))
  }

  /** The spans of a segmented line, segment after segment. */
  function SegmentSpans(segs: seq<Segment>, split: JsString -> seq<JsString>, lineOffset: nat, visibleCount: nat): (r: seq<CharSpan>)
    ensures forall i :: 0 <= i < |r| ==> lineOffset <= r[i].globalIndex
    ensures ShownIffBelow(r, visibleCount)
  {
    if segs == [] then []
    else
      var j := |segs| - 1;
      SegmentSpans(segs[..j], split, lineOffset, visibleCount)
        + MakeChars(split(segs[j].part), segs[j].style, SegmentOffset(lineOffset, segs, j), visibleCount)
  }

  /** The `<p>` of line `k`. */
  function Paragraph(lines: seq<Line>, k: nat, split: JsString -> seq<JsString>, visibleCount: nat): (r: seq<CharSpan>)
    requires k < |lines|
    ensures forall i :: 0 <= i < |r| ==> PrevLength(lines, k) <= r[i].globalIndex
    ensures ShownIffBelow(r, visibleCount)
  {
    match lines[k].text
    case Segments(segs) => SegmentSpans(segs, split, PrevLength(lines, k), visibleCount)
    case Plain(t) => MakeChars(split(t), lines[k].highlight, PrevLength(lines, k), visibleCount)
  }

  /** The whole card: one paragraph per line. */
  function Card(lines: seq<Line>, split: JsString -> seq<JsString>, visibleCount: nat): (card: seq<seq<CharSpan>>)
    ensures |card| == |lines|
    ensures forall k :: 0 <= k < |card| ==> ShownIffBelow(card[k], visibleCount)
  {
    seq(|lines|, k requires 0 <= k < |lines| => Paragraph(lines, k, split, visibleCount))
  }

  /** Global indices of `spans` lie in [lo, hi) and strictly increase. */
  ghost predicate IndexedWithin(spans: seq<CharSpan>, lo: nat, hi: nat)
  {
    && (forall i :: 0 <= i < |spans| ==> lo <= spans[i].globalIndex < hi)
    && (forall i, i' :: 0 <= i < i' < |spans| ==> spans[i].globalIndex < spans[i'].globalIndex)
  }

  /** Every span is opaque exactly when its global index is below the count. */
  ghost predicate ShownIffBelow(spans: seq<CharSpan>, visibleCount: nat)
  {
    forall i :: 0 <= i < |spans| ==>
      spans[i].opacity == if spans[i].globalIndex < visibleCount then 1 else 0
  }

  /** The spans of one segment stay inside that segment's slot of `fullText`. */
  lemma MakeCharsWithin(split: JsString -> seq<JsString>, part: JsString, style: JsString, baseOffset: nat, visibleCount: nat)
    requires IsSplitter(split)
    ensures IndexedWithin(MakeChars(split(part), style, baseOffset, visibleCount), baseOffset, baseOffset + |part|)
    ensures ShownIffBelow(MakeChars(split(part), style, baseOffset, visibleCount), visibleCount)
  {
    GraphemeCountBound(split, part);
  }

  /** The segments' index ranges follow one another without overlapping and
      together stay inside the line's slot. */
  lemma {:induction false} SegmentSpansWithin(segs: seq<Segment>, split: JsString -> seq<JsString>, lineOffset: nat, visibleCount: nat)
    requires IsSplitter(split)
    ensures IndexedWithin(SegmentSpans(segs, split, lineOffset, visibleCount), lineOffset, lineOffset + PartsLength(segs))
    ensures ShownIffBelow(SegmentSpans(segs, split, lineOffset, visibleCount), visibleCount)
  {
    if segs != [] {
      var j := |segs| - 1;
      var before := SegmentSpans(segs[..j], split, lineOffset, visibleCount);
      var base := SegmentOffset(lineOffset, segs, j);
      var last := MakeChars(split(segs[j].part), segs[j].style, base, visibleCount);
      SegmentSpansWithin(segs[..j], split, lineOffset, visibleCount);
      PartsLengthStep(segs, j);
      assert segs[..j + 1] == segs;
      MakeCharsWithin(split, segs[j].part, segs[j].style, base, visibleCount);
      assert SegmentSpans(segs, split, lineOffset, visibleCount) == before + last;
      assert forall i :: 0 <= i < |before| ==> before[i].globalIndex < base;
    }
  }

  /** Every span of line `k` carries a global index inside line `k`'s slot of
      `fullText`, and the indices increase along the line. */
  lemma ParagraphWithin(lines: seq<Line>, k: nat, split: JsString -> seq<JsString>, visibleCount: nat)
    requires IsSplitter(split) && k < |lines|
    ensures IndexedWithin(Paragraph(lines, k, split, visibleCount),
                          PrevLength(lines, k), PrevLength(lines, k) + LineLength(lines[k]))
    ensures ShownIffBelow(Paragraph(lines, k, split, visibleCount), visibleCount)
  {
    match lines[k].text
    case Segments(segs) =>
      SegmentSpansWithin(segs, split, PrevLength(lines, k), visibleCount);
    case Plain(t) =>
      MakeCharsWithin(split, t, lines[k].highlight, PrevLength(lines, k), visibleCount);
  }

  /** No two spans of the card share a global index, and every index points
      into `fullText`. */
  lemma CardIndicesDistinct(lines: seq<Line>, split: JsString -> seq<JsString>, visibleCount: nat,
                            k: nat, i: nat, k': nat, i': nat)
    requires IsSplitter(split)
    requires k < |lines| && i < |Card(lines, split, visibleCount)[k]|
    requires k' < |lines| && i' < |Card(lines, split, visibleCount)[k']|
    requires (k, i) != (k', i')
    ensures Card(lines, split, visibleCount)[k][i].globalIndex != Card(lines, split, visibleCount)[k'][i'].globalIndex
    ensures Card(lines, split, visibleCount)[k][i].globalIndex < |FullText(lines)|
  {
    var p, q := Paragraph(lines, k, split, visibleCount), Paragraph(lines, k', split, visibleCount);
    assert Card(lines, split, visibleCount)[k] == p && Card(lines, split, visibleCount)[k'] == q;
    var x, y := p[i].globalIndex, q[i'].globalIndex;
    var lo, hi := PrevLength(lines, k), PrevLength(lines, k) + LineLength(lines[k]);
    var lo', hi' := PrevLength(lines, k'), PrevLength(lines, k') + LineLength(lines[k']);
    assert lo <= x < hi by {
      ParagraphWithin(lines, k, split, visibleCount);
    }
    assert lo' <= y < hi' by {
      ParagraphWithin(lines, k', split, visibleCount);
    }
    assert hi <= |FullText(lines)| by {
      LineInFullText(lines, k);
    }
    if k == k' {
      assert x != y by {
        ParagraphWithin(lines, k, split, visibleCount);
        assert i < i' || i' < i;
      }
    } else if k < k' {
      assert hi < lo' by {
        PrevLengthPastLine(lines, k, k');
      }
    } else {
      assert hi' < lo by {
        PrevLengthPastLine(lines, k', k);
      }
    }
  }

  /** The card's layout does not depend on the counter: only opacity changes. */
  lemma {:induction false} SegmentSpansLayout(segs: seq<Segment>, split: JsString -> seq<JsString>, lineOffset: nat, v: nat, w: nat)
    ensures |SegmentSpans(segs, split, lineOffset, v)| == |SegmentSpans(segs, split, lineOffset, w)|
    ensures forall i :: 0 <= i < |SegmentSpans(segs, split, lineOffset, v)| ==>
      SegmentSpans(segs, split, lineOffset, v)[i].globalIndex == SegmentSpans(segs, split, lineOffset, w)[i].globalIndex
  {
    if segs != [] {
      SegmentSpansLayout(segs[..|segs| - 1], split, lineOffset, v, w);
    }
  }

  /** A character is shown exactly when its global index is below
      `visibleCount`, so raising the count never hides a character. */
  lemma RaisingCountNeverHides(lines: seq<Line>, split: JsString -> seq<JsString>, v: nat, w: nat, k: nat, i: nat)
    requires IsSplitter(split) && v <= w
    requires k < |lines| && i < |Card(lines, split, v)[k]|
    ensures i < |Card(lines, split, w)[k]|
    ensures Card(lines, split, v)[k][i].opacity == 1 ==> Card(lines, split, w)[k][i].opacity == 1
    ensures Card(lines, split, w)[k][i].globalIndex == Card(lines, split, v)[k][i].globalIndex
  {
    ParagraphWithin(lines, k, split, v);
    ParagraphWithin(lines, k, split, w);
    match lines[k].text
    case Segments(segs) =>
      SegmentSpansLayout(segs, split, PrevLength(lines, k), v, w);
    case Plain(t) =>
  }

  // ---------------------------------------------------------------------
  // The typing counter
  // ---------------------------------------------------------------------

  /** The interval loop: `count++`, `setVisibleCount(count)`, stop once
      `count >= fullText.length`. Returns the values written to
      `visibleCount`, in order; the last one is the final state. */
  method TypeOut(textLength: nat) returns (writes: seq<nat>)
    ensures |writes| == if textLength == 0 then 1 else textLength
    ensures forall i :: 0 <= i < |writes| ==> writes[i] == i + 1
    ensures writes[|writes| - 1] >= textLength
  {
    var count: nat := 0;
    writes := [];
    while true
      invariant count == 0 || count < textLength
      invariant |writes| == count
      invariant forall i :: 0 <= i < count ==> writes[i] == i + 1
      decreases textLength - count
    {
      count := count + 1;
      writes := writes + [count];
      if count >= textLength {
        return;
      }
    }
  }

  /** Once the counter has reached the length of `fullText`, every character
      of the card is shown. */
  lemma TypingRevealsEverything(lines: seq<Line>, split: JsString -> seq<JsString>, visibleCount: nat, k: nat, i: nat)
    requires IsSplitter(split) && visibleCount >= |FullText(lines)|
    requires k < |lines| && i < |Card(lines, split, visibleCount)[k]|
    ensures Card(lines, split, visibleCount)[k][i].opacity == 1
  {
    ParagraphWithin(lines, k, split, visibleCount);
    LineInFullText(lines, k);
  }
}
