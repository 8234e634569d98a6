/** src/app_shell/tab_overflow.h: where the tabs of a strip go, and what a point hits. */
module TabStrip {
  import opened Options
  import opened Arithmetic

  datatype Rect = Rect(left: int, top: int, right: int, bottom: int) {
    predicate Contains(x: int, y: int) {
      left <= x < right && top <= y < bottom
    }
  }

  const NOWHERE := Rect(0, 0, 0, 0)

  datatype Drag = Drag(source: nat, target: Option<nat>, foreign: bool, foreignWidth: int)

  /** TabStripLayoutInput. */
  datatype Input = Input(
    preferred: seq<int>, clientWidth: int, clientHeight: int, minWidth: int, maxWidth: int, addWidth: int,
    addInsetX: int, addInsetY: int, buttonWidth: int, visualWidth: int, visualHeight: int, visualX: int, visualY: int,
    requestedOffset: int, drag: Option<Drag>, active: Option<nat>, closeSize: int, closeInset: int)

  /** TabStripGeometry. */
  datatype Geometry = Geometry(
    tabs: seq<Rect>, closes: seq<Rect>, placeholder: Option<Rect>, placeholderIndex: Option<nat>, add: Rect,
    viewport: Rect, buttons: (Rect, Rect), offset: int, maxOffset: int)

  function Clamp(v: int, lo: int, hi: int): int
    requires lo <= hi
  {
    if v < lo then lo else if v > hi then hi else v
  }

  // ----- The pieces of the computation

  datatype Viewport = Viewport(overflow: bool, width: int, buttonWidth: int)

  /** tab_strip_viewport(). */
  function ViewportOf(content: int, availableWidth: int, requestedButton: int): Viewport {
    var available := Max(0, availableWidth);
    if content <= available then Viewport(false, available, 0)
    else
      var button := Min(Max(0, requestedButton), available / 2);
      Viewport(true, Max(0, available - 2 * button), button)
  }

  /** clamp_tab_scroll_offset(). */
  function ClampOffset(requested: int, content: int, viewport: int): int {
    Clamp(requested, 0, Max(0, content - viewport))
  }

  /** tab_scroll_button_visual(). */
  function ButtonVisual(area: Rect, width: int, height: int, offsetX: int, offsetY: int, forward: bool): Rect {
    var w, h := Min(width, area.right - area.left), Min(height, area.bottom - area.top);
    var top := area.top + Half(area.bottom - area.top - h) + offsetY;
    var left := (if forward then area.left else area.right - w) + offsetX;
    Rect(left, top, left + w, top + h)
  }

  /** Division by two as C++ does it, toward zero. */
  function Half(n: int): int {
    if n >= 0 then n / 2 else -(-n / 2)
  }

  /** tab_scroll_button_hit_rects(). */
  function ButtonRects(back: Rect, forward: Rect, addLeft: int): (Rect, Rect) {
    var shift := Max(0, forward.right - addLeft);
    var b := back.(left := back.left - shift, right := back.right - shift);
    var f := forward.(left := forward.left - shift, right := forward.right - shift);
    var left, right := Max(b.left, f.left), Min(b.right, f.right);
    if left < right then
      var middle := left + (right - left) / 2;
      (b.(right := middle), f.(left := middle))
    else (b, f)
  }

  /** tab_close_button_rect(). */
  function CloseRect(tab: Rect, size: int, inset: int): Rect {
    if size <= 0 || tab.right <= tab.left || tab.bottom <= tab.top then NOWHERE
    else
      var right := tab.right - Max(0, inset);
      var left := right - size;
      if left <= tab.left + size then NOWHERE
      else
        var top := tab.top + Half(tab.bottom - tab.top - size);
        Rect(left, top, right, top + size)
  }

  /** proportional_width(). */
  function Proportional(width: nat, available: nat, total: nat): nat
    requires total > 0
  {
    (width * available + total / 2) / total
  }

  // ----- Widths, order and offset

  function MinWidth(input: Input): nat { Max(0, input.minWidth) }

  function MaxWidth(input: Input): (w: nat)
    ensures w >= MinWidth(input)
  {
    Max(MinWidth(input), input.maxWidth)
  }

  function AvailableWidth(input: Input): nat {
    Max(0, Max(0, input.clientWidth) - Max(0, input.addWidth))
  }

  /** A tab dragged in from another strip has room kept for it. */
  predicate HasForeign(input: Input) {
    input.drag.Some? && input.drag.value.foreign && input.drag.value.target.Some?
  }

  /** The preferred widths within their bounds; a foreign tab comes last. */
  function WishedWidths(input: Input): (widths: seq<nat>)
    ensures |widths| == |input.preferred| + if HasForeign(input) then 1 else 0
  {
    var own := ClampedWidths(input.preferred, MinWidth(input), MaxWidth(input));
    if HasForeign(input) then own + [Clamp(input.drag.value.foreignWidth, MinWidth(input), MaxWidth(input))] else own
  }

  function ClampedWidths(preferred: seq<int>, lo: nat, hi: nat): (widths: seq<nat>)
    requires lo <= hi
    ensures |widths| == |preferred|
    ensures forall i | 0 <= i < |preferred| :: widths[i] == Clamp(preferred[i], lo, hi)
  {
    seq(|preferred|, i requires 0 <= i < |preferred| => Clamp(preferred[i], lo, hi))
  }

  function Sum(widths: seq<nat>): nat {
    if widths == [] then 0 else Sum(widths[..|widths| - 1]) + widths[|widths| - 1]
  }

  /** Shrunk in proportion when they do not fit, but not below the minimum. */
  function Widths(input: Input): (widths: seq<nat>)
    ensures |widths| == |WishedWidths(input)|
  {
    var wished := WishedWidths(input);
    var total := Sum(wished);
    if total > AvailableWidth(input) then ShrunkWidths(wished, AvailableWidth(input), total, MinWidth(input))
    else wished
  }

  function ShrunkWidths(widths: seq<nat>, available: nat, total: nat, lo: nat): (shrunk: seq<nat>)
    requires total > 0
    ensures |shrunk| == |widths|
    ensures forall i | 0 <= i < |widths| :: shrunk[i] == Max(lo, Proportional(widths[i], available, total))
  {
    seq(|widths|, i requires 0 <= i < |widths| => Max(lo, Proportional(widths[i], available, total)))
  }

  predicate IsLocalDrag(input: Input) {
    && input.drag.Some? && !input.drag.value.foreign && input.drag.value.target.Some?
    && input.drag.value.source < |input.preferred| && input.drag.value.target.value < |input.preferred|
  }

  /** How many rectangles are drawn: the tabs, and a foreign one if there is one. */
  function Count(input: Input): nat {
    |input.preferred| + if HasForeign(input) then 1 else 0
  }

  /** The drag takes the tab at .0 to position .1; without a drag nothing moves. A foreign tab counts
      as the one after the last. */
  function MoveOf(input: Input): (move: (nat, nat))
    ensures Count(input) > 0 ==> move.0 < Count(input) && move.1 < Count(input)
  {
    if IsLocalDrag(input) then (input.drag.value.source, input.drag.value.target.value)
    else if HasForeign(input) then (|input.preferred|, Min(input.drag.value.target.value, |input.preferred|))
    else (0, 0)
  }

  /** Which element stands at position k once element s has been taken out and put in at t. */
  function MovedFrom(s: nat, t: nat, k: nat): nat {
    if k == t then s
    else
      var r := if k < t then k else k - 1;
      if r < s then r else r + 1
  }

  /** Where element i stands then. */
  function MovedTo(s: nat, t: nat, i: nat): nat {
    if i == s then t
    else
      var r := if i < s then i else i - 1;
      if r < t then r else r + 1
  }

  lemma MoveIsInvertible(s: nat, t: nat, n: nat, k: nat)
    requires s < n && t < n && k < n
    ensures MovedFrom(s, t, k) < n && MovedTo(s, t, MovedFrom(s, t, k)) == k
    ensures MovedTo(s, t, k) < n && MovedFrom(s, t, MovedTo(s, t, k)) == k
  {
  }

  /** The tab drawn at position k. */
  function TabAtPosition(input: Input, k: nat): nat {
    MovedFrom(MoveOf(input).0, MoveOf(input).1, k)
  }

  /** The position at which a tab is drawn. */
  function PositionOf(input: Input, tab: nat): nat {
    MovedTo(MoveOf(input).0, MoveOf(input).1, tab)
  }

  /** Every tab, and a foreign one if there is one, is drawn at exactly one position. */
  lemma EveryTabDrawn(input: Input, i: nat)
    requires i < Count(input)
    ensures PositionOf(input, i) < Count(input) && TabAtPosition(input, PositionOf(input, i)) == i
    ensures TabAtPosition(input, i) < Count(input) && PositionOf(input, TabAtPosition(input, i)) == i
  {
    MoveIsInvertible(MoveOf(input).0, MoveOf(input).1, Count(input), i);
  }

  /** The widths in drawing order. */
  function Drawn(input: Input): (widths: seq<nat>)
    ensures |widths| == Count(input) == |Widths(input)|
    ensures forall k | 0 <= k < |widths| ::
      TabAtPosition(input, k) < |Widths(input)| && widths[k] == Widths(input)[TabAtPosition(input, k)]
  {
    forall k: nat | k < Count(input) ensures TabAtPosition(input, k) < Count(input) {
      EveryTabDrawn(input, k);
    }
    seq(Count(input), k requires 0 <= k < Count(input) => Widths(input)[TabAtPosition(input, k)])
  }

  function Content(input: Input): nat { Sum(Widths(input)) }

  function View(input: Input): Viewport {
    ViewportOf(Content(input), AvailableWidth(input), input.buttonWidth)
  }

  /** The left edge of the k-th drawn tab, before scrolling. */
  function LeftOf(input: Input, k: nat): nat
    requires k <= |Drawn(input)|
  {
    Sum(Drawn(input)[..k])
  }

  predicate HasActive(input: Input) {
    input.active.Some? && input.active.value < |input.preferred|
  }

  /** The scroll offset asked for, moved so that the active tab comes into view. */
  function WishedOffset(input: Input): int {
    if !HasActive(input) then input.requestedOffset
    else
      EveryTabDrawn(input, input.active.value);
      var k := PositionOf(input, input.active.value);
      var left, right := LeftOf(input, k), LeftOf(input, k) + Drawn(input)[k];
      if left < input.requestedOffset then left
      else if right > input.requestedOffset + View(input).width then right - View(input).width
      else input.requestedOffset
  }

  function Offset(input: Input): int {
    ClampOffset(WishedOffset(input), Content(input), View(input).width)
  }

  /** The rectangle of the k-th drawn tab. */
  function RectAt(input: Input, k: nat): Rect
    requires k < |Drawn(input)|
  {
    Rect(LeftOf(input, k) - Offset(input), 0, LeftOf(input, k) + Drawn(input)[k] - Offset(input),
         Max(0, input.clientHeight))
  }

  /** The tab being dragged is drawn as a placeholder. */
  predicate IsPlaceholder(input: Input, tab: nat) {
    tab == |input.preferred| || (IsLocalDrag(input) && tab == input.drag.value.source)
  }

  function ButtonsOf(input: Input): (Rect, Rect) {
    var view, h := View(input), Max(0, input.clientHeight);
    if view.overflow && view.buttonWidth > 0 then
      var middle := view.width + view.buttonWidth;
      ButtonRects(
        ButtonVisual(Rect(view.width, 0, middle, h), input.visualWidth, input.visualHeight,
                     input.visualX, input.visualY, false),
        ButtonVisual(Rect(middle, 0, AvailableWidth(input), h), input.visualWidth, input.visualHeight,
                     input.visualX, input.visualY, true),
        AvailableWidth(input))
    else (NOWHERE, NOWHERE)
  }

  /** What layout_tab_strip() returns: every tab where it is drawn, but for the one that is dragged. */
  ghost predicate IsLayout(input: Input, g: Geometry) {
    && |g.tabs| == |g.closes| == |input.preferred|
    && g.offset == Offset(input) && g.maxOffset == Max(0, Content(input) - View(input).width)
    && g.viewport == Rect(0, 0, View(input).width, Max(0, input.clientHeight))
    && g.add == Rect(AvailableWidth(input) + input.addInsetX, input.addInsetY,
                     Max(0, input.clientWidth) - input.addInsetX, Max(0, input.clientHeight) - input.addInsetY)
    && g.buttons == ButtonsOf(input)
    && (forall k | 0 <= k < |Drawn(input)| && !IsPlaceholder(input, TabAtPosition(input, k)) ::
          TabAtPosition(input, k) < |g.tabs| && g.tabs[TabAtPosition(input, k)] == RectAt(input, k))
    && (forall k | 0 <= k < |Drawn(input)| && IsPlaceholder(input, TabAtPosition(input, k)) ::
          && g.placeholder == Some(RectAt(input, k)) && g.placeholderIndex == input.drag.value.target
          && (TabAtPosition(input, k) < |g.tabs| ==> g.tabs[TabAtPosition(input, k)] == NOWHERE))
    && (!IsLocalDrag(input) && !HasForeign(input) ==> g.placeholder == None && g.placeholderIndex == None)
    && (forall i | 0 <= i < |g.tabs| :: g.closes[i] == CloseRect(g.tabs[i], Max(0, input.closeSize), input.closeInset))
  }

  // ----- The rectangles are side by side and fill the content

  lemma {:induction false} SumJoined(a: seq<nat>, b: seq<nat>)
    ensures Sum(a + b) == Sum(a) + Sum(b)
    decreases |b|
  {
    if b == [] {
      assert a + b == a;
    } else {
      assert (a + b)[..|a + b| - 1] == a + b[..|b| - 1];
      SumJoined(a, b[..|b| - 1]);
    }
  }

  /** Taking an element out and putting it in elsewhere leaves the sum. */
  lemma SumMoved(widths: seq<nat>, s: nat, t: nat)
    requires s < |widths| && t < |widths|
    ensures Sum(Rearranged(widths, s, t)) == Sum(widths)
  {
    hide Sum;
    var rest, x := widths[..s] + widths[s + 1..], [widths[s]];
    Rejoined(rest, t);
    Rejoined(widths, s);
    SumJoined(rest[..t] + x, rest[t..]);
    SumJoined(rest[..t], x);
    SumJoined(rest[..t], rest[t..]);
    SumJoined(widths[..s], widths[s + 1..]);
    SumJoined(widths[..s] + x, widths[s + 1..]);
    SumJoined(widths[..s], x);
  }

  lemma Rejoined(widths: seq<nat>, i: nat)
    requires i <= |widths|
    ensures widths[..i] + widths[i..] == widths
    ensures i < |widths| ==> widths[..i] + [widths[i]] + widths[i + 1..] == widths
  {
  }

  /** erase() and insert(), as the order of the tabs is made. */
  function Rearranged<T>(s: seq<T>, source: nat, target: nat): seq<T>
    requires source < |s| && target < |s|
  {
    var rest := s[..source] + s[source + 1..];
    rest[..target] + [s[source]] + rest[target..]
  }

  lemma RearrangedAt<T>(s: seq<T>, source: nat, target: nat, k: nat)
    requires source < |s| && target < |s| && k < |s|
    ensures |Rearranged(s, source, target)| == |s| && MovedFrom(source, target, k) < |s|
    ensures Rearranged(s, source, target)[k] == s[MovedFrom(source, target, k)]
  {
  }

  lemma RearrangedLength<T>(s: seq<T>, source: nat, target: nat)
    requires source < |s| && target < |s|
    ensures |Rearranged(s, source, target)| == |s|
  {
  }

  /** Whatever is dragged where, the drawn widths add up to the content width. */
  lemma DrawnFillsContent(input: Input)
    ensures Sum(Drawn(input)) == Content(input)
  {
    hide Sum, Widths, Rearranged;
    var widths, drawn := Widths(input), Drawn(input);
    if Count(input) > 0 {
      var s, t := MoveOf(input).0, MoveOf(input).1;
      RearrangedLength(widths, s, t);
      forall k | 0 <= k < |drawn| ensures drawn[k] == Rearranged(widths, s, t)[k] {
        RearrangedAt(widths, s, t, k);
      }
      assert drawn == Rearranged(widths, s, t);
      SumMoved(widths, s, t);
    } else {
      assert drawn == widths;
    }
  }

  lemma LeftGrows(input: Input, k: nat)
    requires k < |Drawn(input)|
    ensures LeftOf(input, k + 1) == LeftOf(input, k) + Drawn(input)[k]
  {
    var drawn := Drawn(input);
    assert drawn[..k + 1][..k] == drawn[..k];
  }

  lemma {:induction false} LeftMonotonic(input: Input, j: nat, k: nat)
    requires j <= k <= |Drawn(input)|
    ensures LeftOf(input, j) <= LeftOf(input, k)
    decreases k
  {
    if j < k {
      LeftMonotonic(input, j, k - 1);
      LeftGrows(input, k - 1);
    }
  }

  /** In drawing order each tab starts where the one before it ends; the first starts the content and
      the last ends it. */
  lemma RectsContiguous(input: Input, k: nat)
    requires k < |Drawn(input)|
    ensures k == 0 ==> RectAt(input, k).left == -Offset(input)
    ensures k + 1 < |Drawn(input)| ==> RectAt(input, k).right == RectAt(input, k + 1).left
    ensures k + 1 == |Drawn(input)| ==> RectAt(input, k).right == Content(input) - Offset(input)
    ensures RectAt(input, k).right - RectAt(input, k).left == Drawn(input)[k]
  {
    LeftGrows(input, k);
    if k + 1 == |Drawn(input)| {
      DrawnFillsContent(input);
      assert Drawn(input)[..k + 1] == Drawn(input);
    }
  }

  /** A point is in at most one of them. */
  lemma AtMostOneRect(input: Input, j: nat, k: nat, x: int, y: int)
    requires j < k < |Drawn(input)|
    ensures !(RectAt(input, j).Contains(x, y) && RectAt(input, k).Contains(x, y))
  {
    LeftGrows(input, j);
    LeftMonotonic(input, j + 1, k);
  }

  // ----- layout_tab_strip

  /** The widths of the tabs and of a foreign tab: clamped, added up, and shrunk if need be. */
  method MeasureTabs(input: Input) returns (widths: seq<nat>, placeholder: nat)
    ensures |widths| == |input.preferred|
    ensures Widths(input) == if HasForeign(input) then widths + [placeholder] else widths
  {
    hide Sum;
    var lo, hi := MinWidth(input), MaxWidth(input);
    widths := [];
    for i := 0 to |input.preferred|
      invariant |widths| == i && forall j | 0 <= j < i :: widths[j] == Clamp(input.preferred[j], lo, hi)
    {
      widths := widths + [Clamp(input.preferred[i], lo, hi)];
    }
    placeholder := lo;
    if HasForeign(input) { placeholder := Clamp(input.drag.value.foreignWidth, lo, hi); }
    assert WishedWidths(input) == if HasForeign(input) then widths + [placeholder] else widths;
    ghost var wished := WishedWidths(input);
    var total := Accumulate(widths);
    if HasForeign(input) {
      SumAppended(widths, placeholder);
      total := total + placeholder;
    }
    var available := AvailableWidth(input);
    if total > available {
      widths := Shrink(widths, available, total, lo);
      if HasForeign(input) { placeholder := Max(lo, Proportional(placeholder, available, total)); }
      assert ShrunkWidths(wished, available, total, lo) == if HasForeign(input) then widths + [placeholder] else widths;
    }
  }

  lemma SumAppended(widths: seq<nat>, x: nat)
    ensures Sum(widths + [x]) == Sum(widths) + x
  {
    assert (widths + [x])[..|widths|] == widths;
  }

  method Accumulate(widths: seq<nat>) returns (total: nat)
    ensures total == Sum(widths)
  {
    total := 0;
    for i := 0 to |widths|
      invariant total == Sum(widths[..i])
    {
      assert widths[..i + 1] == widths[..i] + [widths[i]];
      SumAppended(widths[..i], widths[i]);
      total := total + widths[i];
    }
    assert widths[..|widths|] == widths;
  }

  method Shrink(widths: seq<nat>, available: nat, total: nat, lo: nat) returns (shrunk: seq<nat>)
    requires total > 0
    ensures shrunk == ShrunkWidths(widths, available, total, lo)
  {
    shrunk := widths;
    for i := 0 to |widths|
      invariant |shrunk| == |widths|
      invariant forall j | 0 <= j < i :: shrunk[j] == Max(lo, Proportional(widths[j], available, total))
      invariant forall j | i <= j < |widths| :: shrunk[j] == widths[j]
    {
      shrunk := shrunk[i := Max(lo, Proportional(shrunk[i], available, total))];
    }
  }

  function Numbers(n: nat): (s: seq<nat>)
    ensures |s| == n && forall i | 0 <= i < n :: s[i] == i
  {
    seq(n, i => i)
  }

  /** The drawing order: the dragged tab is taken out and put in where it would be dropped. */
  method OrderTabs(input: Input) returns (order: seq<nat>)
    ensures |order| == Count(input) && forall k | 0 <= k < |order| :: order[k] == TabAtPosition(input, k)
  {
    var n := |input.preferred|;
    order := Numbers(n);
    if IsLocalDrag(input) {
      var source, target := input.drag.value.source, input.drag.value.target.value;
      order := order[..source] + order[source + 1..];
      order := order[..target] + [source] + order[target..];
      assert order == Rearranged(Numbers(n), source, target);
      forall k | 0 <= k < n ensures order[k] == MovedFrom(source, target, k) {
        RearrangedAt(Numbers(n), source, target, k);
      }
    } else if HasForeign(input) {
      var target := Min(input.drag.value.target.value, n);
      order := order[..target] + [n] + order[target..];
    }
  }

  /** The left and right edges of the active tab in the content. */
  method ActiveEdges(input: Input, order: seq<nat>, widths: seq<nat>, placeholder: nat) returns (left: nat, right: nat)
    requires HasActive(input) && |order| == Count(input) && |widths| == |input.preferred|
    requires forall k | 0 <= k < |order| :: order[k] == TabAtPosition(input, k)
    requires Widths(input) == if HasForeign(input) then widths + [placeholder] else widths
    ensures var k := PositionOf(input, input.active.value);
      k < |Drawn(input)| && left == LeftOf(input, k) && right == LeftOf(input, k) + Drawn(input)[k]
  {
    hide Sum, Widths;
    EveryTabDrawn(input, input.active.value);
    LeftStarts(input);
    var x := 0;
    for k := 0 to |order|
      invariant x == LeftOf(input, k) && k <= PositionOf(input, input.active.value)
    {
      LeftGrows(input, k);
      EveryTabDrawn(input, k);
      if order[k] == |widths| {
        x := x + placeholder;
      } else if order[k] == input.active.value {
        return x, x + widths[order[k]];
      } else {
        x := x + widths[order[k]];
      }
    }
    assert false;
  }

  lemma LeftStarts(input: Input)
    ensures LeftOf(input, 0) == 0
  {
    assert Drawn(input)[..0] == [];
  }

  /** The offset before it is clamped. */
  method ScrollTo(input: Input, order: seq<nat>, widths: seq<nat>, placeholder: nat, view: int) returns (offset: int)
    requires |order| == Count(input) && |widths| == |input.preferred| && view == View(input).width
    requires forall k | 0 <= k < |order| :: order[k] == TabAtPosition(input, k)
    requires Widths(input) == if HasForeign(input) then widths + [placeholder] else widths
    ensures offset == WishedOffset(input)
  {
    hide Widths, Sum;
    offset := input.requestedOffset;
    if HasActive(input) {
      var left, right := ActiveEdges(input, order, widths, placeholder);
      if left < offset {
        offset := left;
      } else if right > offset + view {
        offset := right - view;
      }
    }
  }

  /** The last loop over the order: a rectangle for each tab, none for the dragged one. */
  method PlaceTabs(input: Input, order: seq<nat>, widths: seq<nat>, placeholder: nat, offset: int)
    returns (tabs: seq<Rect>, shown: Option<Rect>, index: Option<nat>)
    requires |order| == Count(input) && |widths| == |input.preferred| && offset == Offset(input)
    requires forall k | 0 <= k < |order| :: order[k] == TabAtPosition(input, k)
    requires Widths(input) == if HasForeign(input) then widths + [placeholder] else widths
    ensures |tabs| == |widths|
    ensures forall k | 0 <= k < |order| :: PlacedAt(input, tabs, shown, index, k)
    ensures !IsLocalDrag(input) && !HasForeign(input) ==> shown == None && index == None
  {
    hide Sum, Widths;
    tabs, shown, index := seq(|widths|, _ => NOWHERE), None, None;
    LeftStarts(input);
    var x := 0;
    for k := 0 to |order|
      invariant |tabs| == |widths| && x == LeftOf(input, k)
      invariant forall j | 0 <= j < k :: PlacedAt(input, tabs, shown, index, j)
      invariant !IsLocalDrag(input) && !HasForeign(input) ==> shown == None && index == None
    {
      LeftGrows(input, k);
      EveryTabDrawn(input, k);
      OtherPositions(input, k);
      ghost var before := (tabs, shown, index);
      var width := if order[k] == |widths| then placeholder else widths[order[k]];
      var rect := Rect(x - offset, 0, x + width - offset, Max(0, input.clientHeight));
      if order[k] == |widths| {
        shown, index := Some(rect), input.drag.value.target;
      } else if IsLocalDrag(input) && order[k] == input.drag.value.source {
        tabs := tabs[order[k] := NOWHERE];
        shown, index := Some(rect), input.drag.value.target;
      } else {
        tabs := tabs[order[k] := rect];
      }
      x := x + width;
      forall j | 0 <= j < k ensures PlacedAt(input, tabs, shown, index, j) {
        assert PlacedAt(input, before.0, before.1, before.2, j);
        assert TabAtPosition(input, j) != TabAtPosition(input, k);
      }
    }
  }

  /** The rectangle of the k-th drawn tab is where it belongs. */
  predicate PlacedAt(input: Input, tabs: seq<Rect>, shown: Option<Rect>, index: Option<nat>, k: nat)
    requires k < Count(input)
  {
    var tab := TabAtPosition(input, k);
    if IsPlaceholder(input, tab) then
      && shown == Some(RectAt(input, k))
      && (IsLocalDrag(input) || HasForeign(input)) && index == input.drag.value.target
      && (tab < |tabs| ==> tabs[tab] == NOWHERE)
    else tab < |tabs| && tabs[tab] == RectAt(input, k)
  }

  lemma OtherPositions(input: Input, k: nat)
    requires k < Count(input)
    ensures forall j: nat | j < k :: TabAtPosition(input, j) != TabAtPosition(input, k)
    ensures forall j: nat | j < k && IsPlaceholder(input, TabAtPosition(input, j)) ::
      !IsPlaceholder(input, TabAtPosition(input, k))
  {
    EveryTabDrawn(input, k);
    forall j: nat | j < k ensures TabAtPosition(input, j) != TabAtPosition(input, k) {
      EveryTabDrawn(input, j);
    }
  }

  method CloseButtons(tabs: seq<Rect>, size: int, inset: int) returns (closes: seq<Rect>)
    ensures |closes| == |tabs| && forall i | 0 <= i < |tabs| :: closes[i] == CloseRect(tabs[i], size, inset)
  {
    closes := [];
    for i := 0 to |tabs|
      invariant |closes| == i && forall j | 0 <= j < i :: closes[j] == CloseRect(tabs[j], size, inset)
    {
      closes := closes + [CloseRect(tabs[i], size, inset)];
    }
  }

  method LayoutTabStrip(input: Input) returns (g: Geometry)
    ensures IsLayout(input, g)
  {
    hide Sum, Widths, Drawn, WishedOffset, PositionOf, TabAtPosition, ButtonRects, ButtonVisual;
    var widths, placeholder := MeasureTabs(input);
    var content := Accumulate(if HasForeign(input) then widths + [placeholder] else widths);
    var view := ViewportOf(content, AvailableWidth(input), input.buttonWidth);
    var order := OrderTabs(input);
    var wished := ScrollTo(input, order, widths, placeholder, view.width);
    var offset := ClampOffset(wished, content, view.width);
    var tabs, shown, index := PlaceTabs(input, order, widths, placeholder, offset);
    var closes := CloseButtons(tabs, Max(0, input.closeSize), input.closeInset);
    var h := Max(0, input.clientHeight);
    var add := Rect(AvailableWidth(input) + input.addInsetX, input.addInsetY,
                    Max(0, input.clientWidth) - input.addInsetX, h - input.addInsetY);
    g := Geometry(tabs, closes, shown, index, add, Rect(0, 0, view.width, h), ButtonsOf(input), offset,
                  Max(0, content - view.width));
    assert forall k | 0 <= k < |order| :: PlacedAt(input, tabs, shown, index, k);
    forall k | 0 <= k < |Drawn(input)|
      ensures var tab := TabAtPosition(input, k);
        if IsPlaceholder(input, tab) then
          && g.placeholder == Some(RectAt(input, k)) && g.placeholderIndex == input.drag.value.target
          && (tab < |g.tabs| ==> g.tabs[tab] == NOWHERE)
        else tab < |g.tabs| && g.tabs[tab] == RectAt(input, k)
    {
      assert PlacedAt(input, tabs, shown, index, k);
    }
  }

  // ----- Scrolling

  lemma OffsetInRange(input: Input)
    ensures 0 <= Offset(input) <= Max(0, Content(input) - View(input).width)
  {
  }

  /** An active tab that is no wider than the viewport is scrolled fully into it. */
  lemma ActiveInView(input: Input)
    requires HasActive(input)
    ensures PositionOf(input, input.active.value) < |Drawn(input)|
    ensures var k := PositionOf(input, input.active.value);
      Drawn(input)[k] <= View(input).width ==>
        0 <= RectAt(input, k).left && RectAt(input, k).right <= View(input).width
  {
    EveryTabDrawn(input, input.active.value);
    var k := PositionOf(input, input.active.value);
    LeftGrows(input, k);
    LeftMonotonic(input, k + 1, |Drawn(input)|);
    DrawnFillsContent(input);
    assert Drawn(input)[..|Drawn(input)|] == Drawn(input);
  }

  // ----- Hits

  /** tab_strip_hit_test(). */
  method TabAt(g: Geometry, x: int, y: int) returns (hit: Option<nat>)
    ensures !g.viewport.Contains(x, y) ==> hit == None
    ensures g.viewport.Contains(x, y) && g.placeholder.Some? && g.placeholder.value.Contains(x, y) ==>
      hit == g.placeholderIndex
    ensures g.viewport.Contains(x, y) && !(g.placeholder.Some? && g.placeholder.value.Contains(x, y)) ==>
      if hit.Some? then hit.value < |g.tabs| && g.tabs[hit.value].Contains(x, y)
      else forall i | 0 <= i < |g.tabs| :: !g.tabs[i].Contains(x, y)
  {
    if !g.viewport.Contains(x, y) { return None; }
    if g.placeholder.Some? && g.placeholder.value.Contains(x, y) { return g.placeholderIndex; }
    for i := 0 to |g.tabs|
      invariant forall j | 0 <= j < i :: !g.tabs[j].Contains(x, y)
    {
      if g.tabs[i].Contains(x, y) { return Some(i); }
    }
    return None;
  }

  /** A point is in at most one tab or the placeholder, so the order of the test does not matter. */
  lemma AtMostOneHit(input: Input, g: Geometry, x: int, y: int)
    requires IsLayout(input, g)
    ensures forall i, j | 0 <= i < j < |g.tabs| :: !(g.tabs[i].Contains(x, y) && g.tabs[j].Contains(x, y))
    ensures g.placeholder.Some? ==> forall i | 0 <= i < |g.tabs| ::
      !(g.tabs[i].Contains(x, y) && g.placeholder.value.Contains(x, y))
  {
    forall i, j | 0 <= i < j < |g.tabs| ensures !(g.tabs[i].Contains(x, y) && g.tabs[j].Contains(x, y)) {
      TabsApart(input, g, i, j, x, y);
    }
    if g.placeholder.Some? {
      forall i | 0 <= i < |g.tabs| ensures !(g.tabs[i].Contains(x, y) && g.placeholder.value.Contains(x, y)) {
        PlaceholderApart(input, g, i, x, y);
      }
    }
  }

  lemma TabRect(input: Input, g: Geometry, i: nat)
    requires IsLayout(input, g) && i < |g.tabs|
    ensures var k := PositionOf(input, i);
      && k < |Drawn(input)| && TabAtPosition(input, k) == i
      && (g.tabs[i] == NOWHERE || (g.tabs[i] == RectAt(input, k) && !IsPlaceholder(input, i)))
  {
    EveryTabDrawn(input, i);
  }

  lemma TabsApart(input: Input, g: Geometry, i: nat, j: nat, x: int, y: int)
    requires IsLayout(input, g) && i < |g.tabs| && j < |g.tabs| && i != j
    ensures !(g.tabs[i].Contains(x, y) && g.tabs[j].Contains(x, y))
  {
    TabRect(input, g, i);
    TabRect(input, g, j);
    var k, l := PositionOf(input, i), PositionOf(input, j);
    AtMostOneRect(input, if k < l then k else l, if k < l then l else k, x, y);
  }

  /** The tab, local or foreign, that is drawn as a placeholder. */
  function Dragged(input: Input): nat {
    if IsLocalDrag(input) then input.drag.value.source else |input.preferred|
  }

  lemma PlaceholderRect(input: Input, g: Geometry)
    requires IsLayout(input, g) && g.placeholder.Some?
    ensures var k := PositionOf(input, Dragged(input));
      k < |Drawn(input)| && TabAtPosition(input, k) == Dragged(input) && g.placeholder.value == RectAt(input, k)
    ensures Dragged(input) < |g.tabs| ==> g.tabs[Dragged(input)] == NOWHERE
  {
    EveryTabDrawn(input, Dragged(input));
  }

  lemma PlaceholderApart(input: Input, g: Geometry, i: nat, x: int, y: int)
    requires IsLayout(input, g) && i < |g.tabs| && g.placeholder.Some?
    ensures !(g.tabs[i].Contains(x, y) && g.placeholder.value.Contains(x, y))
  {
    TabRect(input, g, i);
    PlaceholderRect(input, g);
    var k, l := PositionOf(input, i), PositionOf(input, Dragged(input));
    if i != Dragged(input) {
      AtMostOneRect(input, if k < l then k else l, if k < l then l else k, x, y);
    }
    hide Drawn, Widths, Sum, RectAt, IsLayout, Dragged, TabAtPosition, PositionOf;
  }

  /** The two scroll buttons never share a point, and neither reaches into the add button's slot. */
  lemma ScrollButtonsApart(input: Input, x: int, y: int)
    ensures var (back, forward) := ButtonsOf(input);
      && !(back.Contains(x, y) && forward.Contains(x, y))
      && forward.right <= AvailableWidth(input)
      && (input.visualWidth >= 0 ==> back.right <= AvailableWidth(input))
  {
  }

  // ----- When the shrunken tabs fit

  /** What rounding leaves over at each tab: the rounded numerator modulo the total. */
  function Remainders(widths: seq<nat>, available: nat, total: nat): (rests: seq<nat>)
    requires total > 0
    ensures |rests| == |widths|
    ensures forall i | 0 <= i < |widths| :: rests[i] == (widths[i] * available + total / 2) % total
  {
    seq(|widths|, i requires 0 <= i < |widths| => (widths[i] * available + total / 2) % total)
  }

  /** By how much each proportional width is below the minimum. */
  function Raises(widths: seq<nat>, available: nat, total: nat, lo: nat): (raises: seq<nat>)
    requires total > 0
    ensures |raises| == |widths|
    ensures forall i | 0 <= i < |widths| :: raises[i] == Max(0, lo - Proportional(widths[i], available, total))
  {
    seq(|widths|, i requires 0 <= i < |widths| => Max(0, lo - Proportional(widths[i], available, total)))
  }

  lemma OneShrunk(width: nat, available: nat, total: nat, lo: nat)
    requires total > 0
    ensures var p := Proportional(width, available, total);
      Balanced(Max(lo, p), (width * available + total / 2) % total, Max(0, lo - p), 1, width * available, total)
  {
    var p := Proportional(width, available, total);
    assert p * total + (width * available + total / 2) % total == width * available + total / 2;
    assert Max(lo, p) == p + Max(0, lo - p);
    assert Max(lo, p) * total == p * total + Max(0, lo - p) * total;
  }

  /** The shrunken widths add up to the room, but for the roundings and what the minimum adds. */
  lemma {:induction false} ShrunkSum(widths: seq<nat>, available: nat, total: nat, lo: nat)
    requires total > 0
    ensures Balanced(Sum(ShrunkWidths(widths, available, total, lo)), Sum(Remainders(widths, available, total)),
                     Sum(Raises(widths, available, total, lo)), |widths|, Sum(widths) * available, total)
  {
    if widths != [] {
      hide Proportional, ShrunkWidths, Remainders, Raises, Balanced, Sum;
      var n := |widths| - 1;
      ShrunkSum(widths[..n], available, total, lo);
      ShrunkSumStep(widths, available, total, lo);
    }
  }

  lemma ShrunkSumStep(widths: seq<nat>, available: nat, total: nat, lo: nat)
    requires total > 0 && widths != []
    requires var rest := widths[..|widths| - 1];
      Balanced(Sum(ShrunkWidths(rest, available, total, lo)), Sum(Remainders(rest, available, total)),
               Sum(Raises(rest, available, total, lo)), |rest|, Sum(rest) * available, total)
    ensures Balanced(Sum(ShrunkWidths(widths, available, total, lo)), Sum(Remainders(widths, available, total)),
                     Sum(Raises(widths, available, total, lo)), |widths|, Sum(widths) * available, total)
  {
    hide Proportional, ShrunkWidths, Remainders, Raises, Balanced, Sum;
    var rest, w := widths[..|widths| - 1], widths[|widths| - 1];
    SumOfLast(widths, available, total, lo);
    OneShrunk(w, available, total, lo);
    SumTimes(Sum(rest), w, available);
    var p := Proportional(w, available, total);
    OneMore(Sum(ShrunkWidths(rest, available, total, lo)), Sum(Remainders(rest, available, total)),
            Sum(Raises(rest, available, total, lo)), |rest|, Sum(rest) * available, total,
            Max(lo, p), (w * available + total / 2) % total, Max(0, lo - p), w * available);
  }

  lemma SumOfLast(widths: seq<nat>, available: nat, total: nat, lo: nat)
    requires total > 0 && widths != []
    ensures var n := |widths| - 1;
      var rest, p := widths[..n], Proportional(widths[n], available, total);
      && Sum(widths) == Sum(rest) + widths[n]
      && Sum(ShrunkWidths(widths, available, total, lo)) == Sum(ShrunkWidths(rest, available, total, lo)) + Max(lo, p)
      && Sum(Raises(widths, available, total, lo)) == Sum(Raises(rest, available, total, lo)) + Max(0, lo - p)
      && Sum(Remainders(widths, available, total))
           == Sum(Remainders(rest, available, total)) + (widths[n] * available + total / 2) % total
  {
    hide Proportional, Sum;
    var n := |widths| - 1;
    var rest := widths[..n];
    SumFromLast(widths, rest);
    SumFromLast(ShrunkWidths(widths, available, total, lo), ShrunkWidths(rest, available, total, lo));
    SumFromLast(Raises(widths, available, total, lo), Raises(rest, available, total, lo));
    SumFromLast(Remainders(widths, available, total), Remainders(rest, available, total));
  }

  lemma SumFromLast(widths: seq<nat>, rest: seq<nat>)
    requires |widths| == |rest| + 1 && forall i | 0 <= i < |rest| :: widths[i] == rest[i]
    ensures Sum(widths) == Sum(rest) + widths[|rest|]
  {
    assert widths[..|rest|] == rest;
  }

  /** Room times total, the halves that rounding adds and what the minimum adds make up the rest. */
  predicate Balanced(shrunk: int, rests: int, raise: int, n: nat, scaled: int, total: nat) {
    shrunk * total + rests == scaled + n * (total / 2) + raise * total
  }

  lemma OneMore(shrunk: int, rests: int, raise: int, n: nat, scaled: int, total: nat, s: int, r: int, d: int, a: int)
    requires Balanced(shrunk, rests, raise, n, scaled, total)
    requires Balanced(s, r, d, 1, a, total)
    ensures Balanced(shrunk + s, rests + r, raise + d, n + 1, scaled + a, total)
  {
    SumTimes(shrunk, s, total);
    SumTimes(raise, d, total);
    SumTimes(n, 1, total / 2);
  }

  /** Tabs that are wider than the room fit once they are shrunk if and only if the roundings take away
      at least what they and the minimum add. */
  lemma ShrunkFits(widths: seq<nat>, available: nat, lo: nat)
    requires Sum(widths) > available
    ensures var total := Sum(widths);
      Sum(ShrunkWidths(widths, available, total, lo)) <= available <==>
        |widths| * (total / 2) + Sum(Raises(widths, available, total, lo)) * total
          <= Sum(Remainders(widths, available, total))
  {
    hide Proportional, ShrunkWidths, Remainders, Raises, Sum, Balanced;
    var total := Sum(widths);
    ShrunkSum(widths, available, total, lo);
    AtMost(Sum(ShrunkWidths(widths, available, total, lo)), Sum(Remainders(widths, available, total)),
           Sum(Raises(widths, available, total, lo)), |widths|, available, total);
  }

  lemma AtMost(shrunk: nat, rests: nat, raise: nat, n: nat, available: nat, total: nat)
    requires total > 0 && Balanced(shrunk, rests, raise, n, total * available, total)
    ensures shrunk <= available <==> n * (total / 2) + raise * total <= rests
  {
    if shrunk <= available {
      ProductMonotonic(shrunk, available, total);
    } else {
      ProductMonotonic(available + 1, shrunk, total);
    }
  }

  lemma {:induction false} RemainderBound(widths: seq<nat>, available: nat, total: nat)
    requires total > 0
    ensures Sum(Remainders(widths, available, total)) <= |widths| * (total - 1)
  {
    if widths != [] {
      var n := |widths| - 1;
      RemainderBound(widths[..n], available, total);
      SumOfLast(widths, available, total, 0);
      SumTimes(n, 1, total - 1);
    }
  }

  /** The shrunken widths miss the room, and what the minimum adds, by at most half a pixel a tab. */
  lemma ShrunkWithinHalves(widths: seq<nat>, available: nat, lo: nat)
    requires Sum(widths) > available
    ensures var total := Sum(widths);
      -(|widths| as int) <= 2 * (Sum(ShrunkWidths(widths, available, total, lo)) - available
                                 - Sum(Raises(widths, available, total, lo))) <= |widths|
  {
    hide Proportional, ShrunkWidths, Remainders, Raises, Sum, Balanced;
    var total := Sum(widths);
    ShrunkSum(widths, available, total, lo);
    RemainderBound(widths, available, total);
    HalfEach(Sum(ShrunkWidths(widths, available, total, lo)), Sum(Remainders(widths, available, total)),
             Sum(Raises(widths, available, total, lo)), |widths|, available, total);
  }

  lemma HalfEach(shrunk: int, rests: nat, raise: int, n: int, available: int, total: nat)
    requires n >= 0 && total > 0 && Balanced(shrunk, rests, raise, n, total * available, total)
    requires rests <= n * (total - 1)
    ensures -n <= 2 * (shrunk - available - raise) <= n
  {
    var off := shrunk - available - raise;
    SumTimes(shrunk - available, -raise, total);
    SumTimes(shrunk, -available, total);
    HalfOff(off, n * (total / 2) - rests, n, total);
  }

  lemma HalfOff(off: int, scaled: int, n: int, total: nat)
    requires n >= 0 && total > 0 && off * total == scaled
    requires n * (total / 2) - n * (total - 1) <= scaled <= n * (total / 2)
    ensures -n <= 2 * off <= n
  {
    HalfTimes(n, total);
    if 2 * off > n {
      ProductMonotonic(n + 1, 2 * off, total);
      SumTimes(n, 1, total);
    } else if 2 * off < -n {
      ProductMonotonic(2 * off, -n - 1, total);
      SumTimes(-n, -1, total);
    }
  }

  lemma HalfTimes(n: int, total: nat)
    requires n >= 0 && total > 0
    ensures 2 * (n * (total / 2)) <= n * total && -n * total <= 2 * (n * (total / 2) - n * (total - 1))
  {
    ProductMonotonic(2 * (total / 2), total, n);
    ProductMonotonic(total - 1, 2 * (total / 2), n);
  }

  /** All tabs are visible without scrolling exactly when they have room as wished, or shrinking and
      rounding make them fit. */
  lemma ContentFits(input: Input)
    ensures var widths, available, total :=
        WishedWidths(input), AvailableWidth(input), Sum(WishedWidths(input));
      Content(input) <= available <==>
        || total <= available
        || |widths| * (total / 2) + Sum(Raises(widths, available, total, MinWidth(input))) * total
             <= Sum(Remainders(widths, available, total))
  {
    var widths, available := WishedWidths(input), AvailableWidth(input);
    if Sum(widths) > available {
      ShrunkFits(widths, available, MinWidth(input));
    }
  }

  /** Shrinking does not always make the tabs fit, although none is at the minimum: three tabs of 101 with
      room for 302 stay as wide as they are. */
  lemma ShrunkMayOverflow(input: Input)
    requires input.preferred == [101, 101, 101] && input.addWidth >= 0 && input.clientWidth == 302 + input.addWidth
    requires input.minWidth == 96 && input.maxWidth >= 101 && input.drag == None
    ensures Content(input) == 303 > AvailableWidth(input) == 302
  {
    var wished, three := WishedWidths(input), [101, 101, 101];
    assert wished == three;
    assert three[..2] == [101, 101] && [101, 101][..1] == [101] && [101][..0] == [];
    assert Sum(wished) == 303;
    assert Widths(input) == three;
  }
}
