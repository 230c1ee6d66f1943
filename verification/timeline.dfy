/** The homepage's "important deadlines" timeline: title formatting, the
    event scrolled to on load, the scrollbar's progress ratio, dragging the
    scrollbar thumb, dragging the content, and the mouse-wheel rule.
    Pixel quantities are exact reals. */
module Timeline {
  import opened Values
  import opened Text

  /** The conjunction the titles are broken after. */
  const Conjunction: char := '及'

  /** What `formatTitle` renders: runs of text and `<br />` elements. */
  datatype Node = Words(text: string) | LineBreak

  /** The text content of rendered nodes; a line break adds no characters. */
  function TextContent(nodes: seq<Node>): string
    decreases |nodes|
  {
    if |nodes| == 0 then ""
    else (match nodes[0] case Words(t) => t case LineBreak => "") + TextContent(nodes[1..])
  }

  /** The number of `<br />` elements among rendered nodes. */
  function BreakCount(nodes: seq<Node>): nat
    decreases |nodes|
  {
    if |nodes| == 0 then 0
    else (if nodes[0].LineBreak? then 1 else 0) + BreakCount(nodes[1..])
  }

  lemma {:induction false} TextContentConcat(a: seq<Node>, b: seq<Node>)
    ensures TextContent(a + b) == TextContent(a) + TextContent(b)
    ensures BreakCount(a + b) == BreakCount(a) + BreakCount(b)
    decreases |a|
  {
    if |a| == 0 {
      assert a + b == b;
    } else {
      assert (a + b)[1..] == a[1..] + b;
      TextContentConcat(a[1..], b);
    }
  }

  /** The fragments of the parts of a split title: each part, followed by the
      conjunction and a line break unless it is the last part. */
  function FormatParts(parts: seq<string>): (r: seq<Node>)
    ensures |parts| >= 1 ==> |r| >= 1 && r[0] == Words(parts[0])
    ensures forall i :: 0 <= i < |r| && r[i].LineBreak? ==> i > 0 && r[i - 1] == Words([Conjunction])
    decreases |parts|
  {
    if |parts| == 0 then []
    else if |parts| == 1 then [Words(parts[0])]
    else
      var rest := FormatParts(parts[1..]);
      var r := [Words(parts[0]), Words([Conjunction]), LineBreak] + rest;
      assert forall i :: 3 <= i < |r| ==> r[i] == rest[i - 3];
      r
  }

  /** The rendered text of the fragments is the parts joined with the conjunction,
      and there is one line break between every two neighbouring parts. */
  lemma {:induction false} FormatPartsContent(parts: seq<string>)
    requires |parts| >= 1
    ensures TextContent(FormatParts(parts)) == Join(parts, Conjunction)
    ensures BreakCount(FormatParts(parts)) == |parts| - 1
    decreases |parts|
  {
    if |parts| == 1 {
      assert TextContent([Words(parts[0])]) == parts[0] + TextContent([]);
    } else {
      var head: seq<Node> := [Words(parts[0]), Words([Conjunction]), LineBreak];
      FormatPartsContent(parts[1..]);
      TextContentConcat(head, FormatParts(parts[1..]));
      var tail: seq<Node> := [LineBreak];
      assert head[1..] == [Words([Conjunction])] + tail;
      assert tail[1..] == [];
      assert TextContent(tail) == "" && BreakCount(tail) == 1;
      assert TextContent(head[1..]) == [Conjunction] && BreakCount(head[1..]) == 1;
      assert TextContent(head) == parts[0] + [Conjunction] && BreakCount(head) == 1;
    }
  }

  /** `formatTitle`: the title split on the conjunction, the conjunction and a
      line break re-inserted after every part but the last. The rendered text
      is the title itself, every line break directly follows a conjunction,
      and there are as many line breaks as conjunctions in the title. */
  function FormatTitle(title: string): (r: seq<Node>)
    ensures TextContent(r) == title
    ensures BreakCount(r) == Occurrences(title, Conjunction)
    ensures forall i :: 0 <= i < |r| && r[i].LineBreak? ==> i > 0 && r[i - 1] == Words([Conjunction])
  {
    var parts := Split(title, Conjunction);
    FormatPartsContent(parts);
    JoinSplit(title, Conjunction);
    SplitCount(title, Conjunction);
    FormatParts(parts)
  }

  /** A title without the conjunction is rendered as itself, on one line. */
  lemma FormatPlainTitle(title: string)
    requires Conjunction !in title
    ensures FormatTitle(title) == [Words(title)]
  {
    SplitFree(title, Conjunction);
  }

  /** One entry of `TIMELINE_DATA`. */
  datatype TimelineEvent = TimelineEvent(date: string, title: string, isPast: bool)

  /** `events.findIndex(event => !event.isPast)`: the first event not yet past,
      or -1 when every event is past. */
  function NearestEventIndex(events: seq<TimelineEvent>): (r: int)
    ensures -1 <= r < |events|
    ensures r == -1 <==> forall i :: 0 <= i < |events| ==> events[i].isPast
    ensures r >= 0 ==> !events[r].isPast && forall i :: 0 <= i < r ==> events[i].isPast
    decreases |events|
  {
    if |events| == 0 then -1
    else if !events[0].isPast then 0
    else
      var k := NearestEventIndex(events[1..]);
      if k == -1 then -1 else k + 1
  }

  /** The geometry of one rendered timeline item: `offsetLeft` and `offsetWidth`. */
  datatype Box = Box(left: real, width: real)

  /** The scroll position that puts the middle of the item in the middle of a
      container `containerWidth` wide. */
  function CenterScroll(item: Box, containerWidth: real): (r: real)
    ensures r + containerWidth / 2.0 == item.left + item.width / 2.0
  {
    item.left - containerWidth / 2.0 + item.width / 2.0
  }

  /** The scroll made on mount: none when no event is upcoming or its item is
      not rendered, otherwise one that centres the nearest upcoming event. */
  function InitialScroll(events: seq<TimelineEvent>, items: seq<Box>, containerWidth: real): (r: Option<real>)
    ensures r.Some? <==> NearestEventIndex(events) != -1 && NearestEventIndex(events) < |items|
    ensures r.Some? ==>
      var item := items[NearestEventIndex(events)];
      r.value + containerWidth / 2.0 == item.left + item.width / 2.0
  {
    var k := NearestEventIndex(events);
    if k == -1 || k >= |items| then None else Some(CenterScroll(items[k], containerWidth))
  }

  /** The built-in timeline shown when the server supplies none. */
  const DefaultTimeline: seq<TimelineEvent> := [
    TimelineEvent("115/03/13", "徵求共同主辦及特別論壇主題截止", false),
    TimelineEvent("115/04/01", "開放早鳥報名", false),
    TimelineEvent("115/05/01", "開放摘要及全文投稿", false),
    TimelineEvent("115/06/15", "早鳥報名截止", false),
    TimelineEvent("115/06/29", "文章摘要投稿截止", false),
    TimelineEvent("115/07/10", "摘要審查結果公告及廠商報名參展截止", false),
    TimelineEvent("115/07/17", "文章全文投稿截止", false),
    TimelineEvent("115/07/24", "論文審查結果及議程安排公告", false),
    TimelineEvent("115/08/11", "線上報名截止", false),
    TimelineEvent("115/08/20-21", "SG44 研討會", false)]

  /** On the built-in timeline no event is past, so the first one is centred. */
  lemma DefaultTimelineStartsAtFirst(items: seq<Box>, containerWidth: real)
    requires |items| >= 1
    ensures NearestEventIndex(DefaultTimeline) == 0
    ensures InitialScroll(DefaultTimeline, items, containerWidth) == Some(CenterScroll(items[0], containerWidth))
  {
  }

  /** `handleScroll`: how far through its scroll range the container is, 0
      when there is nothing to scroll. */
  function Progress(scrollLeft: real, scrollWidth: real, clientWidth: real): (r: real)
    ensures scrollWidth - clientWidth > 0.0 ==> r * (scrollWidth - clientWidth) == scrollLeft
    ensures scrollWidth - clientWidth <= 0.0 ==> r == 0.0
    ensures 0.0 <= scrollLeft <= scrollWidth - clientWidth ==> 0.0 <= r <= 1.0
  {
    var maxScroll := scrollWidth - clientWidth;
    if maxScroll > 0.0 then
      ProportionBounds(scrollLeft, maxScroll);
      scrollLeft / maxScroll
    else 0.0
  }

  lemma ProportionBounds(x: real, m: real)
    requires m > 0.0
    ensures (x / m) * m == x
    ensures 0.0 <= x <= m ==> 0.0 <= x / m <= 1.0
  {
  }

  /** `Math.max(0, Math.min(1, x))`. */
  function Clamp01(x: real): (r: real)
    ensures 0.0 <= r <= 1.0
    ensures r == x <==> 0.0 <= x <= 1.0
    ensures x < 0.0 ==> r == 0.0
    ensures x > 1.0 ==> r == 1.0
  {
    if x < 0.0 then 0.0 else if x > 1.0 then 1.0 else x
  }

  /** Clamping never reverses the order of two values. */
  lemma Clamp01Monotone(x: real, y: real)
    requires x <= y
    ensures Clamp01(x) <= Clamp01(y)
  {
  }

  /** Where the cursor is along the scrollbar track, from 0 at its left edge to
      1 at its right edge, clamped into that range. */
  function DragRatio(clientX: real, trackLeft: real, trackWidth: real): (r: real)
    requires trackWidth > 0.0
    ensures 0.0 <= r <= 1.0
    ensures clientX <= trackLeft ==> r == 0.0
    ensures clientX >= trackLeft + trackWidth ==> r == 1.0
    ensures trackLeft <= clientX <= trackLeft + trackWidth ==> r * trackWidth == clientX - trackLeft
  {
    ProportionBounds(clientX - trackLeft, trackWidth);
    ProportionOutside(clientX - trackLeft, trackWidth);
    Clamp01((clientX - trackLeft) / trackWidth)
  }

  /** The `scrollLeft` set while the thumb is dragged: the same fraction of
      the scroll range as the cursor's clamped fraction of the track. */
  function DragScroll(clientX: real, trackLeft: real, trackWidth: real, scrollWidth: real, clientWidth: real): (r: real)
    requires trackWidth > 0.0
    ensures var maxScroll := scrollWidth - clientWidth;
      && (maxScroll >= 0.0 ==> 0.0 <= r <= maxScroll)
      && (clientX <= trackLeft ==> r == 0.0)
      && (clientX >= trackLeft + trackWidth ==> r == maxScroll)
  {
    var ratio := DragRatio(clientX, trackLeft, trackWidth);
    var maxScroll := scrollWidth - clientWidth;
    assert maxScroll >= 0.0 ==> ratio * maxScroll <= 1.0 * maxScroll;
    ratio * maxScroll
  }

  /** After a thumb drag, the progress the scrollbar shows is the cursor's
      clamped fraction of the track: the thumb follows the cursor. */
  lemma DragThenProgress(clientX: real, trackLeft: real, trackWidth: real, scrollWidth: real, clientWidth: real)
    requires trackWidth > 0.0
    requires scrollWidth - clientWidth > 0.0
    ensures Progress(DragScroll(clientX, trackLeft, trackWidth, scrollWidth, clientWidth), scrollWidth, clientWidth)
         == DragRatio(clientX, trackLeft, trackWidth)
  {
    var m := scrollWidth - clientWidth;
    var ratio := DragRatio(clientX, trackLeft, trackWidth);
    var p := Progress(ratio * m, scrollWidth, clientWidth);
    assert DragScroll(clientX, trackLeft, trackWidth, scrollWidth, clientWidth) == ratio * m;
    assert p * m == ratio * m;
    CancelFactor(p, ratio, m);
  }

  lemma CancelFactor(a: real, b: real, m: real)
    requires m > 0.0 && a * m == b * m
    ensures a == b
  {
    assert (a - b) * m == 0.0;
  }

  /** Moving the cursor further right never scrolls the thumb drag further left. */
  lemma DragScrollMonotone(x: real, y: real, trackLeft: real, trackWidth: real, scrollWidth: real, clientWidth: real)
    requires trackWidth > 0.0 && scrollWidth - clientWidth >= 0.0
    requires x <= y
    ensures DragScroll(x, trackLeft, trackWidth, scrollWidth, clientWidth)
         <= DragScroll(y, trackLeft, trackWidth, scrollWidth, clientWidth)
  {
    var m := scrollWidth - clientWidth;
    var rx := DragRatio(x, trackLeft, trackWidth);
    var ry := DragRatio(y, trackLeft, trackWidth);
    DragRatioMonotone(x, y, trackLeft, trackWidth);
    var dx := DragScroll(x, trackLeft, trackWidth, scrollWidth, clientWidth);
    var dy := DragScroll(y, trackLeft, trackWidth, scrollWidth, clientWidth);
    ScaledMonotone(dx, dy, rx, ry, m);
  }

  lemma DragRatioMonotone(x: real, y: real, trackLeft: real, trackWidth: real)
    requires trackWidth > 0.0 && x <= y
    ensures DragRatio(x, trackLeft, trackWidth) <= DragRatio(y, trackLeft, trackWidth)
  {
    DivMonotone(x - trackLeft, y - trackLeft, trackWidth);
    Clamp01Monotone((x - trackLeft) / trackWidth, (y - trackLeft) / trackWidth);
  }

  /** A share of at least the whole is at least 1; a share of at most nothing
      is at most 0. */
  lemma ProportionOutside(x: real, m: real)
    requires m > 0.0
    ensures x >= m ==> x / m >= 1.0
    ensures x <= 0.0 ==> x / m <= 0.0
  {
    if x >= m {
      DivMonotone(m, x, m);
    }
    if x <= 0.0 {
      DivMonotone(x, 0.0, m);
    }
  }

  lemma DivMonotone(a: real, b: real, m: real)
    requires m > 0.0 && a <= b
    ensures a / m <= b / m
  {
    assert b / m - a / m == (b - a) / m;
  }

  lemma ScaledMonotone(u: real, v: real, a: real, b: real, m: real)
    requires m >= 0.0 && a <= b
    requires u == a * m && v == b * m
    ensures u <= v
  {
    assert v - u == (b - a) * m;
  }

  /** A content drag, by mouse or touch: `scrollLeftStart - (clientX - dragStartX)`. */
  function ContentDrag(scrollLeftStart: real, dragStartX: real, clientX: real): (r: real)
    ensures r - scrollLeftStart == dragStartX - clientX
  {
    scrollLeftStart - (clientX - dragStartX)
  }

  /** The content moves with the cursor: moving the cursor back to where the
      drag started restores the start position, and moving it `d` further to
      the right scrolls `d` less. */
  lemma ContentDragFollowsCursor(scrollLeftStart: real, dragStartX: real, clientX: real, d: real)
    ensures ContentDrag(scrollLeftStart, dragStartX, dragStartX) == scrollLeftStart
    ensures ContentDrag(scrollLeftStart, dragStartX, clientX + d) == ContentDrag(scrollLeftStart, dragStartX, clientX) - d
  {
  }

  /** The effect of one wheel event: the new `scrollLeft` and whether the
      page's own vertical scroll was prevented. */
  datatype WheelEffect = WheelEffect(scrollLeft: real, prevented: bool)

  /** `handleWheel`: a vertical wheel movement without shift scrolls the
      timeline sideways by `deltaY` instead of scrolling the page; anything
      else is left to the browser. */
  function Wheel(scrollLeft: real, deltaY: real, shiftKey: bool): (r: WheelEffect)
    ensures r.prevented <==> deltaY != 0.0 && !shiftKey
    ensures r.prevented ==> r.scrollLeft == scrollLeft + deltaY
    ensures !r.prevented ==> r.scrollLeft == scrollLeft
  {
    if deltaY != 0.0 && !shiftKey then WheelEffect(scrollLeft + deltaY, true)
    else WheelEffect(scrollLeft, false)
  }

  /** Wheel events add up: the position after a sequence of wheel movements
      depends only on the sum of their handled deltas. */
  function WheelAll(scrollLeft: real, deltas: seq<real>, shiftKey: bool): real
    decreases |deltas|
  {
    if |deltas| == 0 then scrollLeft
    else WheelAll(Wheel(scrollLeft, deltas[0], shiftKey).scrollLeft, deltas[1..], shiftKey)
  }

  function Sum(xs: seq<real>): real
    decreases |xs|
  {
    if |xs| == 0 then 0.0 else xs[0] + Sum(xs[1..])
  }

  /** Without shift, a run of wheel events scrolls by the sum of their deltas;
      with shift held, none of them scrolls the timeline. */
  lemma {:induction false} WheelAdds(scrollLeft: real, deltas: seq<real>, shiftKey: bool)
    ensures !shiftKey ==> WheelAll(scrollLeft, deltas, shiftKey) == scrollLeft + Sum(deltas)
    ensures shiftKey ==> WheelAll(scrollLeft, deltas, shiftKey) == scrollLeft
    decreases |deltas|
  {
    if |deltas| > 0 {
      WheelAdds(Wheel(scrollLeft, deltas[0], shiftKey).scrollLeft, deltas[1..], shiftKey);
    }
  }
}
