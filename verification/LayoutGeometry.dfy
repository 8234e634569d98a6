/** src/core/layout.cpp: where panes and splitters go. Ratios are real numbers here. */
module LayoutGeometry {
  import opened Options
  import opened Arithmetic
  import opened Model

  datatype Rect = Rect(x: int, y: int, width: int, height: int) {
    predicate Contains(px: int, py: int) {
      x <= px < x + width && y <= py < y + height
    }
  }

  datatype Splitter = Splitter(rect: Rect, ratioIndex: nat, vertical: bool)

  /** std::lround: to the nearest integer, halves away from zero. */
  function Round(x: real): int {
    if x >= 0.0 then (x + 0.5).Floor else -((-x + 0.5).Floor)
  }

  /** What a divider leaves of an extent. */
  function Available(size: int, thickness: int): int {
    Max(size, thickness) - thickness
  }

  datatype Halves = Halves(first: int, second: int)

  function Split(size: int, ratio: real, minimum: int, thickness: int): Halves {
    var available := Available(size, thickness);
    var first := Max(minimum, Round(available as real * ratio));
    Halves(first, Max(minimum, available - first))
  }

  function Ratios(layout: LayoutTemplate, ratios: seq<real>): (r: seq<real>)
    ensures |r| == DividerRatioCount(layout)
  {
    if |ratios| == DividerRatioCount(layout) then ratios else seq(DividerRatioCount(layout), _ => 0.5)
  }

  /** The sizes the panes may have and the thickness of the bars between them. */
  datatype Limits = Limits(width: int, height: int, thickness: int) {
    predicate Sensible() { width > 0 && height > 0 && thickness >= 0 }
  }

  /** compute_layout_rects(). */
  function PaneRects(w: int, h: int, layout: LayoutTemplate, dividers: seq<real>, limits: Limits): (rects: seq<Rect>)
    ensures |rects| == PaneCount(layout)
  {
    var width, height, t := Max(w, limits.width), Max(h, limits.height), limits.thickness;
    var ratios := Ratios(layout, dividers);
    match layout
    case Single => [Rect(0, 0, width, height)]
    case LeftRight =>
      var x := Split(w, ratios[0], limits.width, t);
      [Rect(0, 0, x.first, height), Rect(x.first + t, 0, x.second, height)]
    case TopBottom =>
      var y := Split(h, ratios[0], limits.height, t);
      [Rect(0, 0, width, y.first), Rect(0, y.first + t, width, y.second)]
    case ThreePane =>
      var x, y := Split(w, ratios[0], limits.width, t), Split(h, ratios[1], limits.height, t);
      [Rect(0, 0, x.first, height), Rect(x.first + t, 0, x.second, y.first),
       Rect(x.first + t, y.first + t, x.second, y.second)]
    case TwoOverOne =>
      var y, x := Split(h, ratios[0], limits.height, t), Split(w, ratios[1], limits.width, t);
      [Rect(0, 0, x.first, y.first), Rect(x.first + t, 0, x.second, y.first),
       Rect(0, y.first + t, width, y.second)]
    case OneOverTwo =>
      var y, x := Split(h, ratios[0], limits.height, t), Split(w, ratios[1], limits.width, t);
      [Rect(0, 0, width, y.first), Rect(0, y.first + t, x.first, y.second),
       Rect(x.first + t, y.first + t, x.second, y.second)]
    case TwoBesideOne =>
      var x, y := Split(w, ratios[0], limits.width, t), Split(h, ratios[1], limits.height, t);
      [Rect(0, 0, x.first, y.first), Rect(0, y.first + t, x.first, y.second),
       Rect(x.first + t, 0, x.second, height)]
    case FourPaneGrid =>
      var x, y := Split(w, ratios[0], limits.width, t), Split(h, ratios[1], limits.height, t);
      [Rect(0, 0, x.first, y.first), Rect(x.first + t, 0, x.second, y.first),
       Rect(0, y.first + t, x.first, y.second), Rect(x.first + t, y.first + t, x.second, y.second)]
  }

  /** compute_splitter_rects(), from the rectangles of the panes. */
  function SplitterRects(panes: seq<Rect>, layout: LayoutTemplate, t: int): seq<Splitter> {
    if |panes| < PaneCount(layout) then []
    else
      match layout
      case Single => []
      case LeftRight => [VerticalBar(panes[0].x + panes[0].width, panes[0].y, panes[0].height, 0, t)]
      case TopBottom => [HorizontalBar(panes[0].x, panes[0].y + panes[0].height, panes[0].width, 0, t)]
      case ThreePane =>
        var a, b := panes[0], panes[1];
        [VerticalBar(a.x + a.width, a.y, a.height, 0, t), HorizontalBar(b.x, b.y + b.height, b.width, 1, t)]
      case FourPaneGrid =>
        var a, b, c := panes[0], panes[1], panes[2];
        [VerticalBar(a.x + a.width, a.y, c.y + c.height - a.y, 0, t),
         HorizontalBar(a.x, a.y + a.height, b.x + b.width - a.x, 1, t)]
      case TwoOverOne =>
        var a, c := panes[0], panes[2];
        [HorizontalBar(c.x, c.y - t, c.width, 0, t), VerticalBar(a.x + a.width, a.y, a.height, 1, t)]
      case OneOverTwo =>
        var b, c := panes[1], panes[2];
        [HorizontalBar(b.x, b.y - t, c.x + c.width - b.x, 0, t), VerticalBar(b.x + b.width, b.y, b.height, 1, t)]
      case TwoBesideOne =>
        var a, c := panes[0], panes[2];
        [VerticalBar(c.x - t, c.y, c.height, 0, t), HorizontalBar(a.x, a.y + a.height, a.width, 1, t)]
  }

  function VerticalBar(x: int, y: int, height: int, ratioIndex: nat, t: int): Splitter {
    Splitter(Rect(x, y, t, height), ratioIndex, true)
  }

  function HorizontalBar(x: int, y: int, width: int, ratioIndex: nat, t: int): Splitter {
    Splitter(Rect(x, y, width, t), ratioIndex, false)
  }

  /** divider_ratio_at(): the ratio a drag of the divider to `position` means. */
  function RatioAt(position: int, size: int, thickness: int): Option<real> {
    var available := Available(size, thickness);
    if available <= 0 then None
    else
      var ratio := position as real / available as real;
      Some(if ratio < 0.0 then 0.0 else if ratio > 1.0 then 1.0 else ratio)
  }

  // ----- Panes never overlap and are never too small

  lemma PanesLargeEnough(w: int, h: int, layout: LayoutTemplate, dividers: seq<real>, limits: Limits, p: nat)
    requires limits.Sensible() && p < PaneCount(layout)
    ensures var pane := PaneRects(w, h, layout, dividers, limits)[p];
      pane.width >= limits.width && pane.height >= limits.height && pane.x >= 0 && pane.y >= 0
  {
    SplitsLargeEnough(w, h, layout, dividers, limits);
    hide Split;
  }

  lemma SplitsLargeEnough(w: int, h: int, layout: LayoutTemplate, dividers: seq<real>, limits: Limits)
    ensures forall ratio :: var x := Split(w, ratio, limits.width, limits.thickness);
      x.first >= limits.width && x.second >= limits.width
    ensures forall ratio :: var y := Split(h, ratio, limits.height, limits.thickness);
      y.first >= limits.height && y.second >= limits.height
  {
  }

  /** No point lies in two panes, or in a pane and a splitter, whatever the client area. */
  lemma PanesDisjoint(w: int, h: int, layout: LayoutTemplate, dividers: seq<real>, limits: Limits, x: int, y: int)
    requires limits.Sensible()
    ensures var panes := PaneRects(w, h, layout, dividers, limits);
      var bars := SplitterRects(panes, layout, limits.thickness);
      && (forall p, q | 0 <= p < q < |panes| :: !(panes[p].Contains(x, y) && panes[q].Contains(x, y)))
      && (forall p, b | 0 <= p < |panes| && 0 <= b < |bars| ::
            !(panes[p].Contains(x, y) && bars[b].rect.Contains(x, y)))
  {
    SplitsLargeEnough(w, h, layout, dividers, limits);
    hide Split;
  }

  // ----- When they cover the client area exactly

  /** The second half gets what the divider leaves, and the client area is no smaller than a pane. */
  predicate HasRoom(size: int, ratio: real, minimum: int, thickness: int) {
    Available(size, thickness) - Split(size, ratio, minimum, thickness).first >= minimum
  }

  /** Each direction the layout divides has room for both halves; one it does not divide, for one. */
  predicate Fits(w: int, h: int, layout: LayoutTemplate, dividers: seq<real>, limits: Limits) {
    var ratios := Ratios(layout, dividers);
    match layout
    case Single => w >= limits.width && h >= limits.height
    case LeftRight => HasRoom(w, ratios[0], limits.width, limits.thickness) && h >= limits.height
    case TopBottom => HasRoom(h, ratios[0], limits.height, limits.thickness) && w >= limits.width
    case TwoOverOne | OneOverTwo =>
      HasRoom(h, ratios[0], limits.height, limits.thickness) && HasRoom(w, ratios[1], limits.width, limits.thickness)
    case _ =>
      HasRoom(w, ratios[0], limits.width, limits.thickness) && HasRoom(h, ratios[1], limits.height, limits.thickness)
  }

  predicate Covered(panes: seq<Rect>, bars: seq<Splitter>, x: int, y: int) {
    || (exists p | 0 <= p < |panes| :: panes[p].Contains(x, y))
    || (exists b | 0 <= b < |bars| :: bars[b].rect.Contains(x, y))
  }

  ghost predicate CoversExactly(w: int, h: int, layout: LayoutTemplate, dividers: seq<real>, limits: Limits) {
    var panes := PaneRects(w, h, layout, dividers, limits);
    var bars := SplitterRects(panes, layout, limits.thickness);
    forall x, y :: Covered(panes, bars, x, y) <==> 0 <= x < w && 0 <= y < h
  }

  lemma CoveredByOne(panes: seq<Rect>, bars: seq<Splitter>, x: int, y: int)
    requires |panes| <= 4 && |bars| <= 2
    ensures Covered(panes, bars, x, y) <==>
      || (|panes| > 0 && panes[0].Contains(x, y)) || (|panes| > 1 && panes[1].Contains(x, y))
      || (|panes| > 2 && panes[2].Contains(x, y)) || (|panes| > 3 && panes[3].Contains(x, y))
      || (|bars| > 0 && bars[0].rect.Contains(x, y)) || (|bars| > 1 && bars[1].rect.Contains(x, y))
  {
  }

  lemma SplitsFill(w: int, h: int, dividers: seq<real>, limits: Limits)
    requires limits.Sensible()
    ensures forall ratio :: var x := Split(w, ratio, limits.width, limits.thickness);
      if HasRoom(w, ratio, limits.width, limits.thickness) then x.first + limits.thickness + x.second == w
      else x.first + limits.thickness + x.second > w
    ensures forall ratio :: var y := Split(h, ratio, limits.height, limits.thickness);
      if HasRoom(h, ratio, limits.height, limits.thickness) then y.first + limits.thickness + y.second == h
      else y.first + limits.thickness + y.second > h
  {
  }

  /** With room everywhere a point is covered exactly if it is in the client area. */
  lemma CoveredWhenFits(w: int, h: int, layout: LayoutTemplate, dividers: seq<real>, limits: Limits, x: int, y: int)
    requires limits.Sensible() && Fits(w, h, layout, dividers, limits)
    ensures var panes := PaneRects(w, h, layout, dividers, limits);
      Covered(panes, SplitterRects(panes, layout, limits.thickness), x, y) <==> 0 <= x < w && 0 <= y < h
  {
    var panes := PaneRects(w, h, layout, dividers, limits);
    SplitsFill(w, h, dividers, limits);
    SplitsLargeEnough(w, h, layout, dividers, limits);
    CoveredByOne(panes, SplitterRects(panes, layout, limits.thickness), x, y);
    FitsLeavesRoom(w, h, layout, dividers, limits);
    hide Split, HasRoom, Covered;
  }

  lemma FitsLeavesRoom(w: int, h: int, layout: LayoutTemplate, dividers: seq<real>, limits: Limits)
    requires limits.Sensible() && Fits(w, h, layout, dividers, limits)
    ensures w >= limits.width && h >= limits.height
  {
  }

  /** The far corner of the last pane, which is outside the client area when something does not fit. */
  lemma OverflowWhenNotFits(w: int, h: int, layout: LayoutTemplate, dividers: seq<real>, limits: Limits)
    requires limits.Sensible() && !Fits(w, h, layout, dividers, limits)
    ensures !CoversExactly(w, h, layout, dividers, limits)
  {
    var panes := PaneRects(w, h, layout, dividers, limits);
    var bars := SplitterRects(panes, layout, limits.thickness);
    SplitsFill(w, h, dividers, limits);
    SplitsLargeEnough(w, h, layout, dividers, limits);
    var last := panes[|panes| - 1];
    var x, y := last.x + last.width - 1, last.y + last.height - 1;
    assert last.Contains(x, y) by { hide Split, HasRoom; }
    assert Covered(panes, bars, x, y);
    if layout == TwoBesideOne {
      var low := panes[1];
      assert low.Contains(0, low.y + low.height - 1) by { hide Split, HasRoom; }
      assert Covered(panes, bars, 0, low.y + low.height - 1);
    }
    if layout == TwoOverOne {
      var right := panes[1];
      assert right.Contains(right.x + right.width - 1, 0) by { hide Split, HasRoom; }
      assert Covered(panes, bars, right.x + right.width - 1, 0);
    }
    hide Split, HasRoom, Covered;
  }

  /** Panes and splitters cover the client area, and nothing else, exactly when everything fits. */
  lemma CoversExactlyIffFits(w: int, h: int, layout: LayoutTemplate, dividers: seq<real>, limits: Limits)
    requires limits.Sensible()
    ensures CoversExactly(w, h, layout, dividers, limits) <==> Fits(w, h, layout, dividers, limits)
  {
    hide Fits;
    if Fits(w, h, layout, dividers, limits) {
      forall x, y {
        CoveredWhenFits(w, h, layout, dividers, limits, x, y);
      }
    } else {
      OverflowWhenNotFits(w, h, layout, dividers, limits);
    }
  }

  // ----- Which pane is where

  /** The first of a pair lies left of the second, the bar between them, or above it. */
  datatype Places = Places(left: set<(nat, nat)>, above: set<(nat, nat)>)

  /** What the names of the layouts say, the panes numbered from 0. */
  function PlacesOf(layout: LayoutTemplate): Places {
    match layout
    case Single => Places({}, {})
    case LeftRight => Places({(0, 1)}, {})
    case TopBottom => Places({}, {(0, 1)})
    case ThreePane => Places({(0, 1), (0, 2)}, {(1, 2)})
    case TwoOverOne => Places({(0, 1)}, {(0, 2), (1, 2)})
    case OneOverTwo => Places({(1, 2)}, {(0, 1), (0, 2)})
    case TwoBesideOne => Places({(0, 2), (1, 2)}, {(0, 1)})
    case FourPaneGrid => Places({(0, 1), (2, 3)}, {(0, 2), (1, 3)})
  }

  lemma PanesInPlace(w: int, h: int, layout: LayoutTemplate, dividers: seq<real>, limits: Limits, p: nat, q: nat)
    requires limits.Sensible() && p < PaneCount(layout) && q < PaneCount(layout)
    ensures var panes := PaneRects(w, h, layout, dividers, limits);
      && ((p, q) in PlacesOf(layout).left ==> panes[q].x == panes[p].x + panes[p].width + limits.thickness)
      && ((p, q) in PlacesOf(layout).above ==> panes[q].y == panes[p].y + panes[p].height + limits.thickness)
      && panes[0].x == panes[0].y == 0
  {
    hide Split;
  }

  /** A list of ratios that does not suit the layout counts as halves. */
  lemma UnsuitedRatiosAreHalves(w: int, h: int, layout: LayoutTemplate, dividers: seq<real>, limits: Limits)
    requires |dividers| != DividerRatioCount(layout)
    ensures PaneRects(w, h, layout, dividers, limits)
         == PaneRects(w, h, layout, if DividerRatioCount(layout) == 0 then []
                                    else if DividerRatioCount(layout) == 1 then [0.5] else [0.5, 0.5], limits)
  {
    assert Ratios(layout, dividers)
      == if DividerRatioCount(layout) == 0 then [] else if DividerRatioCount(layout) == 1 then [0.5] else [0.5, 0.5];
    hide Split;
  }

  /** std::lround. */
  lemma RoundsToNearest(x: real, n: int)
    ensures -0.5 <= Round(x) as real - x <= 0.5
    ensures x == n as real + 0.5 ==> Round(x) == if n >= 0 then n + 1 else n
  {
  }

  /** Whether the bar of ratio `b` stands upright. */
  predicate Upright(layout: LayoutTemplate, b: nat) {
    if b == 0 then layout in {LeftRight, ThreePane, TwoBesideOne, FourPaneGrid} else layout in {TwoOverOne, OneOverTwo}
  }

  /** The part of an extent that a ratio gives to what lies before the divider, but no less than the minimum. */
  function Share(size: int, ratio: real, minimum: int, thickness: int): int {
    Max(minimum, Round(Available(size, thickness) as real * ratio))
  }

  function BarPosition(w: int, h: int, layout: LayoutTemplate, ratio: real, limits: Limits, b: nat): int {
    if Upright(layout, b) then Share(w, ratio, limits.width, limits.thickness)
    else Share(h, ratio, limits.height, limits.thickness)
  }

  predicate IsBar(bar: Splitter, b: nat, upright: bool, thickness: int, position: int) {
    && bar.ratioIndex == b && bar.vertical == upright
    && (if upright then bar.rect.width else bar.rect.height) == thickness
    && (if upright then bar.rect.x else bar.rect.y) == position
  }

  /** There is a bar for each ratio, upright or level, as thick as it should be, where its ratio says. */
  lemma BarsFollowRatios(w: int, h: int, layout: LayoutTemplate, dividers: seq<real>, limits: Limits)
    requires limits.Sensible() && |dividers| == DividerRatioCount(layout)
    ensures var bars := SplitterRects(PaneRects(w, h, layout, dividers, limits), layout, limits.thickness);
      && |bars| == |dividers|
      && forall b | 0 <= b < |bars| ::
           IsBar(bars[b], b, Upright(layout, b), limits.thickness, BarPosition(w, h, layout, dividers[b], limits, b))
  {
    assert Ratios(layout, dividers) == dividers;
    if |dividers| > 0 {
      SplitFirst(w, dividers[0], limits.width, limits.thickness);
      SplitFirst(h, dividers[0], limits.height, limits.thickness);
    }
    if |dividers| > 1 {
      SplitFirst(w, dividers[1], limits.width, limits.thickness);
      SplitFirst(h, dividers[1], limits.height, limits.thickness);
    }
    hide Split, Share, Max;
  }

  lemma SplitFirst(size: int, ratio: real, minimum: int, thickness: int)
    ensures Split(size, ratio, minimum, thickness).first == Share(size, ratio, minimum, thickness)
  {
    hide Round, Available, Max;
  }

  // ----- Dragging a divider

  lemma RoundWhole(n: int)
    ensures Round(n as real) == n
  {
  }

  lemma QuotientTimes(position: int, available: int)
    requires available > 0
    ensures available as real * (position as real / available as real) == position as real
    ensures 0 <= position <= available ==> 0.0 <= position as real / available as real <= 1.0
  {
  }

  /** A divider dragged to a position that leaves both halves their minimum stays exactly there. */
  lemma DraggedDividerStays(size: int, position: int, minimum: int, thickness: int)
    requires minimum >= 0 && thickness >= 0
    requires minimum <= position <= Available(size, thickness) - minimum && Available(size, thickness) > 0
    ensures RatioAt(position, size, thickness).Some?
    ensures var ratio := RatioAt(position, size, thickness).value;
      && 0.0 <= ratio <= 1.0
      && Split(size, ratio, minimum, thickness) == Halves(position, Available(size, thickness) - position)
  {
    var available := Available(size, thickness);
    QuotientTimes(position, available);
    RoundWhole(position);
  }

  /** Wherever it is dragged, the ratio is one that may be stored; without room there is none. */
  lemma RatioAtIsRatio(position: int, size: int, thickness: int)
    requires thickness >= 0
    ensures Available(size, thickness) == if size > thickness then size - thickness else 0
    ensures RatioAt(position, size, thickness).Some? <==> size > thickness
    ensures RatioAt(position, size, thickness).Some? ==> 0.0 <= RatioAt(position, size, thickness).value <= 1.0
  {
  }

  /** The extent a bar divides, and the least it must leave on either side. */
  function Extent(w: int, h: int, layout: LayoutTemplate, b: nat): int {
    if Upright(layout, b) then w else h
  }

  function Least(layout: LayoutTemplate, limits: Limits, b: nat): int {
    if Upright(layout, b) then limits.width else limits.height
  }

  /** Where a bar starts in the direction it divides. */
  function StartOf(bar: Splitter): int {
    if bar.vertical then bar.rect.x else bar.rect.y
  }

  /** Dragging a bar sets the ratio of its index: then the bar is where it was dragged to, and the other one where
      it was. */
  lemma DraggedBarStays(w: int, h: int, layout: LayoutTemplate, dividers: seq<real>, limits: Limits, b: nat,
                        position: int)
    requires limits.Sensible() && |dividers| == DividerRatioCount(layout) && b < |dividers|
    requires var available := Available(Extent(w, h, layout, b), limits.thickness);
      available > 0 && Least(layout, limits, b) <= position <= available - Least(layout, limits, b)
    ensures RatioAt(position, Extent(w, h, layout, b), limits.thickness).Some?
    ensures var ratio := RatioAt(position, Extent(w, h, layout, b), limits.thickness).value;
      var before := SplitterRects(PaneRects(w, h, layout, dividers, limits), layout, limits.thickness);
      var after := SplitterRects(PaneRects(w, h, layout, dividers[b := ratio], limits), layout, limits.thickness);
      && |before| == |after| == |dividers|
      && StartOf(after[b]) == position
      && forall c | 0 <= c < |dividers| && c != b :: StartOf(after[c]) == StartOf(before[c])
  {
    var size := Extent(w, h, layout, b);
    DraggedDividerStays(size, position, Least(layout, limits, b), limits.thickness);
    var ratio := RatioAt(position, size, limits.thickness).value;
    SplitFirst(size, ratio, Least(layout, limits, b), limits.thickness);
    var moved := dividers[b := ratio];
    BarsFollowRatios(w, h, layout, dividers, limits);
    BarsFollowRatios(w, h, layout, moved, limits);
    hide PaneRects, SplitterRects, Share, Available, Split, RatioAt;
  }
}
