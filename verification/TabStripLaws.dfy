/** What a reader of a tab strip sees: widths, order, scrolling and buttons as the input asks for them. */
module TabStripLaws {
  import opened Options
  import opened Arithmetic
  import opened TabStrip

  // ----- Widths

  /** Every tab has the width it prefers if that is within the bounds, else the nearer bound, as long as there is
      room for all. */
  lemma WidthsAsWished(input: Input, i: nat)
    requires i < |input.preferred|
    ensures var lo, hi := Max(0, input.minWidth), Max(Max(0, input.minWidth), input.maxWidth);
      && lo <= WishedWidths(input)[i] <= hi
      && (lo <= input.preferred[i] <= hi ==> WishedWidths(input)[i] == input.preferred[i])
      && (input.preferred[i] < lo ==> WishedWidths(input)[i] == lo)
      && (input.preferred[i] > hi ==> WishedWidths(input)[i] == hi)
    ensures Sum(WishedWidths(input)) <= AvailableWidth(input) ==> Widths(input) == WishedWidths(input)
  {
  }

  /** A tab that is shrunk has the nearest whole width to its share of the room, or the minimum if that is more. */
  lemma WidthsInProportion(input: Input, i: nat)
    requires i < |WishedWidths(input)| && Sum(WishedWidths(input)) > AvailableWidth(input)
    ensures Widths(input)[i] >= Max(0, input.minWidth)
    ensures Widths(input)[i] > Max(0, input.minWidth) ==>
      IsNearestShare(Widths(input)[i], WishedWidths(input)[i], AvailableWidth(input), Sum(WishedWidths(input)))
  {
    hide Sum, IsNearestShare;
    NearestShare(WishedWidths(input)[i], AvailableWidth(input), Sum(WishedWidths(input)));
  }

  /** No whole number is nearer to `wished * available / total`. */
  predicate IsNearestShare(width: int, wished: int, available: int, total: int) {
    -total <= 2 * (width * total - wished * available) <= total
  }

  lemma NearestShare(wished: nat, available: nat, total: nat)
    requires total > 0
    ensures IsNearestShare(Proportional(wished, available, total), wished, available, total)
  {
    var scaled := wished * available;
    var q := (scaled + total / 2) / total;
    assert scaled + total / 2 == q * total + (scaled + total / 2) % total;
  }

  // ----- Order

  /** Without a drag every tab stands where it is; a dragged one stands at the target, a foreign one too, behind
      the last at most. */
  lemma DraggedStandsAtTarget(input: Input, i: nat)
    requires i < Count(input)
    ensures !IsLocalDrag(input) && !HasForeign(input) ==> PositionOf(input, i) == i
    ensures IsLocalDrag(input) ==> PositionOf(input, input.drag.value.source) == input.drag.value.target.value
    ensures HasForeign(input) ==>
      PositionOf(input, |input.preferred|) == Min(input.drag.value.target.value, |input.preferred|)
  {
  }

  /** The other tabs keep their order. */
  lemma OthersKeepOrder(input: Input, i: nat, j: nat)
    requires i < j < Count(input)
    requires (IsLocalDrag(input) || HasForeign(input)) ==> i != Dragged(input) && j != Dragged(input)
    ensures PositionOf(input, i) < PositionOf(input, j)
  {
  }

  /** In the layout: the placeholder is at the target of the drag and says so, and the dragged tab is nowhere else. */
  lemma PlaceholderAtTarget(input: Input, g: Geometry)
    requires IsLayout(input, g) && (IsLocalDrag(input) || HasForeign(input))
    ensures var at := if IsLocalDrag(input) then input.drag.value.target.value
                      else Min(input.drag.value.target.value, |input.preferred|);
      at < |Drawn(input)| && g.placeholder == Some(RectAt(input, at))
    ensures g.placeholderIndex == input.drag.value.target
    ensures IsLocalDrag(input) ==> g.tabs[input.drag.value.source] == NOWHERE
  {
    var at := PositionOf(input, Dragged(input));
    EveryTabDrawn(input, Dragged(input));
    assert at < |Drawn(input)| && IsPlaceholder(input, TabAtPosition(input, at));
  }

  // ----- Scrolling

  /** With room for all there is nothing to scroll; else two buttons of the wished width, or as wide as fits, share
      the room with the view. */
  lemma ViewReads(input: Input)
    ensures var view, available := View(input), AvailableWidth(input);
      && (view.overflow <==> Content(input) > available)
      && view.width + 2 * view.buttonWidth == available
      && (!view.overflow ==> view.buttonWidth == 0)
      && (view.overflow && 0 <= input.buttonWidth <= available / 2 ==> view.buttonWidth == input.buttonWidth)
      && (view.overflow && input.buttonWidth > available / 2 ==> view.buttonWidth == available / 2)
    ensures AvailableWidth(input) == Max(0, Max(0, input.clientWidth) - Max(0, input.addWidth))
  {
  }

  /** The largest useful offset shows the end of the content. */
  predicate IsOffset(input: Input, offset: int) {
    0 <= offset <= Max(0, Content(input) - View(input).width)
  }

  function Distance(a: int, b: int): int { Max(a - b, b - a) }

  /** The strip scrolls no further than it has to: no useful offset that shows the active tab is nearer to the one
      asked for, and without an active tab none is nearer at all. */
  lemma ScrollsNoFurther(input: Input, offset: int)
    requires IsOffset(input, offset)
    requires HasActive(input) ==>
      var k := PositionOf(input, input.active.value);
      k < |Drawn(input)| && offset <= LeftOf(input, k)
      && LeftOf(input, k) + Drawn(input)[k] <= offset + View(input).width
    ensures Distance(Offset(input), input.requestedOffset) <= Distance(offset, input.requestedOffset)
  {
    if HasActive(input) {
      EveryTabDrawn(input, input.active.value);
      hide Drawn, Sum, Widths, PositionOf, LeftOf;
    }
  }

  /** A tab too wide for the view is shown from its start, or from its end, as far as the offset allows. */
  lemma WideTabEdge(input: Input)
    requires HasActive(input)
    ensures var k := PositionOf(input, input.active.value);
      && k < |Drawn(input)|
      && (LeftOf(input, k) < input.requestedOffset ==>
            Offset(input) == Clamp(LeftOf(input, k), 0, Max(0, Content(input) - View(input).width)))
      && (LeftOf(input, k) >= input.requestedOffset
          && LeftOf(input, k) + Drawn(input)[k] > input.requestedOffset + View(input).width ==>
            Offset(input) == Clamp(LeftOf(input, k) + Drawn(input)[k] - View(input).width, 0,
                                   Max(0, Content(input) - View(input).width)))
  {
    EveryTabDrawn(input, input.active.value);
    hide Drawn, Sum, Widths, PositionOf, LeftOf;
  }

  // ----- Buttons

  /** Scroll buttons that fit their halves meet in the middle between view and add button, centred in the height. */
  lemma ButtonsMeet(input: Input)
    requires View(input).buttonWidth > 0 && input.visualX == input.visualY == 0
    requires 0 <= input.visualWidth <= View(input).buttonWidth
    requires 0 <= input.visualHeight <= Max(0, input.clientHeight)
    ensures var middle := View(input).width + View(input).buttonWidth;
      var top := (Max(0, input.clientHeight) - input.visualHeight) / 2;
      ButtonsOf(input)
      == (Rect(middle - input.visualWidth, top, middle, top + input.visualHeight),
          Rect(middle, top, middle + input.visualWidth, top + input.visualHeight))
  {
    hide Sum, Widths;
  }

  /** Visuals that reach into the add slot move left together until they do not, and where they overlap each gets
      the half on its side. */
  lemma ButtonsShareOverlap(back: Rect, forward: Rect, addLeft: int)
    ensures var (b, f) := ButtonRects(back, forward, addLeft);
      var shift := if forward.right > addLeft then forward.right - addLeft else 0;
      var overlap := Min(back.right, forward.right) - Max(back.left, forward.left);
      && b.left == back.left - shift && f.right == forward.right - shift
      && (overlap <= 0 ==> b.right == back.right - shift && f.left == forward.left - shift)
      && (overlap > 0 ==> b.right == f.left == Max(back.left, forward.left) - shift + overlap / 2)
      && b.top == back.top && b.bottom == back.bottom && f.top == forward.top && f.bottom == forward.bottom
  {
  }

  /** A visual is no larger than the half it stands in, and away from the middle of the buttons by the offset alone. */
  lemma VisualClipped(area: Rect, width: int, height: int, offsetX: int, offsetY: int, forward: bool)
    requires area.left <= area.right && area.top <= area.bottom && width >= 0 && height >= 0
    ensures var visual := ButtonVisual(area, width, height, offsetX, offsetY, forward);
      && visual.right - visual.left == Min(width, area.right - area.left)
      && visual.bottom - visual.top == Min(height, area.bottom - area.top)
      && (if forward then visual.left == area.left + offsetX else visual.right == area.right + offsetX)
      && 0 <= (area.bottom + offsetY - visual.bottom) - (visual.top - area.top - offsetY) <= 1
  {
  }

  /** The add button has what the tabs leave of the strip, less its insets. */
  lemma AddBesideTabs(input: Input, g: Geometry)
    requires IsLayout(input, g)
    ensures g.add.left == AvailableWidth(input) + input.addInsetX
    ensures g.add.right == Max(0, input.clientWidth) - input.addInsetX
    ensures g.add.top == input.addInsetY && g.add.bottom == Max(0, input.clientHeight) - input.addInsetY
    ensures g.viewport.left == g.viewport.top == 0 && g.viewport.right <= AvailableWidth(input)
    ensures g.viewport.bottom == Max(0, input.clientHeight) && g.maxOffset == Max(0, Content(input) - g.viewport.right)
    ensures g.offset == Offset(input) && g.buttons == ButtonsOf(input)
  {
    ViewReads(input);
    hide Sum, Widths, ButtonsOf, Offset;
  }

  lemma NoButtons(input: Input)
    requires View(input).buttonWidth == 0
    ensures ButtonsOf(input) == (NOWHERE, NOWHERE)
  {
  }

  /** The close button: a square inside its tab, at the inset from the right and centred within a pixel; it is there
      exactly if there is room for it and as much again to its left. */
  lemma CloseInside(tab: Rect, size: int, inset: int)
    ensures var close := CloseRect(tab, size, inset);
      && (close != NOWHERE <==>
            && size > 0 && tab.left < tab.right && tab.top < tab.bottom
            && tab.right - Max(0, inset) - size > tab.left + size)
      && (close != NOWHERE ==>
            && close.right == tab.right - Max(0, inset) && close.right - close.left == size == close.bottom - close.top
            && -1 <= (close.top - tab.top) - (tab.bottom - close.bottom) <= 1)
  {
  }
}
