/** The click handler of w02/w02p03.js. In point mode a click draws a six-vertex square
    marker at the write cursor `index`. In triangle mode the first two clicks draw markers
    and remember the corner; the third click moves the cursor back over the two markers
    and writes the three corners there instead. Changing the mode or pressing clear
    forgets the pending corners. */
module Clicks {
  /** Vertices in one point marker (verts_per_point). */
  const VertsPerPoint: int := 6
  /** The values of the mode selector the handler reacts to. */
  const PointMode: int := 0
  const TriangleMode: int := 1

  /** An entry of the position buffer: one of the six corners of the square marker
      around a clicked point (its coordinates are not modelled), or a clicked point
      itself, written as a triangle corner. */
  datatype Vertex<P> = MarkerVertex(center: P, corner: int) | CornerVertex(at: P)

  /** The handler's closure variables and the two vertex buffers as a value. The buffers
      map a vertex offset to what was last written there; `mode` is the selector. */
  datatype Canvas<P, C> = Canvas(
    mode: int,
    index: int,
    numPoints: int,
    trianglePositions: seq<P>,
    triangleColors: seq<C>,
    positionBuffer: map<int, Vertex<P>>,
    colorBuffer: map<int, C>,
    bgcolor: C)

  /** A writeBuffer call: the entries of `vs` land at offsets `at`, `at` + 1, ... */
  function WriteAt<T>(buffer: map<int, T>, at: int, vs: seq<T>): map<int, T>
    decreases |vs|
  {
    if vs == [] then buffer else WriteAt(buffer[at := vs[0]], at + 1, vs[1..])
  }

  /** After a write, offset `k` holds the written entry if it lies in the written range
      and its old entry otherwise. */
  lemma {:induction false} WrittenAt<T>(buffer: map<int, T>, at: int, vs: seq<T>, k: int)
    requires at <= k < at + |vs| || k in buffer
    ensures k in WriteAt(buffer, at, vs)
    ensures WriteAt(buffer, at, vs)[k] == if at <= k < at + |vs| then vs[k - at] else buffer[k]
    decreases |vs|
  {
    if vs != [] {
      WrittenAt(buffer[at := vs[0]], at + 1, vs[1..], k);
    }
  }

  /** The positions add_point produces for a click at `p`. */
  function AddPoint<P>(p: P): seq<Vertex<P>>
  {
    seq(VertsPerPoint, k => MarkerVertex(p, k))
  }

  /** The marker's colors: `color` repeated once per vertex. */
  function FillColor<C>(color: C): seq<C>
  {
    seq(VertsPerPoint, k => color)
  }

  /** The positions written for the three corners of a triangle. */
  function Corners<P>(ps: seq<P>): seq<Vertex<P>>
  {
    seq(|ps|, k requires 0 <= k < |ps| => CornerVertex(ps[k]))
  }

  /** Position and color entries side by side. */
  function Zip<A, B>(xs: seq<A>, ys: seq<B>): seq<(A, B)>
    requires |xs| == |ys|
  {
    seq(|xs|, k requires 0 <= k < |xs| => (xs[k], ys[k]))
  }

  /** The vertices of a point marker, as drawn. */
  function Marker<P, C>(p: P, color: C): seq<(Vertex<P>, C)>
  {
    Zip(AddPoint(p), FillColor(color))
  }

  /** The vertices of a triangle, as drawn. */
  function Triangle<P, C>(ps: seq<P>, colors: seq<C>): seq<(Vertex<P>, C)>
    requires |ps| == |colors|
  {
    Zip(Corners(ps), colors)
  }

  /** The markers of the pending triangle corners, one after the other. */
  function PendingMarkers<P, C>(ps: seq<P>, colors: seq<C>): seq<(Vertex<P>, C)>
    requires |ps| == |colors|
    decreases |ps|
  {
    if ps == [] then []
    else PendingMarkers(ps[..|ps| - 1], colors[..|colors| - 1]) + Marker(ps[|ps| - 1], colors[|colors| - 1])
  }

  /** Both buffers hold an entry at every offset below `n`. */
  ghost predicate Covered<P, C>(positions: map<int, Vertex<P>>, colors: map<int, C>, n: int)
  {
    forall k :: 0 <= k < n ==> k in positions && k in colors
  }

  /** The first `n` vertices of the buffers, as draw(n) shows them. */
  function Shown<P, C>(positions: map<int, Vertex<P>>, colors: map<int, C>, n: int): seq<(Vertex<P>, C)>
    requires 0 <= n && Covered(positions, colors, n)
  {
    seq(n, k requires 0 <= k < n => (positions[k], colors[k]))
  }

  /** The reachable states: at most two pending corners, kept only in triangle mode, one
      color per corner, and the cursor is at least six vertices per pending corner past
      the start, every vertex below it has been written, and the last vertices drawn are
      the markers of the pending corners. */
  ghost predicate Valid<P, C>(s: Canvas<P, C>)
  {
    && 0 <= s.numPoints <= 2
    && (s.mode != TriangleMode ==> s.numPoints == 0)
    && |s.trianglePositions| == s.numPoints && |s.triangleColors| == s.numPoints
    && VertsPerPoint * s.numPoints <= s.index
    && Covered(s.positionBuffer, s.colorBuffer, s.index)
    && Shown(s.positionBuffer, s.colorBuffer, s.index)[s.index - VertsPerPoint * s.numPoints..]
       == PendingMarkers(s.trianglePositions, s.triangleColors)
  }

  /** What a valid state draws. */
  function Picture<P, C>(s: Canvas<P, C>): seq<(Vertex<P>, C)>
    requires Valid(s)
  {
    Shown(s.positionBuffer, s.colorBuffer, s.index)
  }

  /** The state before any click: cursor at 0, no pending corners, empty buffers. */
  function Initial<P, C>(mode: int, bgcolor: C): Canvas<P, C>
  {
    Canvas(mode, 0, 0, [], [], map[], map[], bgcolor)
  }

  /** resetTriangleMode: forget the pending corners. */
  function Reset<P, C>(s: Canvas<P, C>): (r: Canvas<P, C>)
    ensures r.numPoints == 0 && r.trianglePositions == [] && r.triangleColors == []
    ensures r.mode == s.mode && r.index == s.index && r.bgcolor == s.bgcolor
    ensures r.positionBuffer == s.positionBuffer && r.colorBuffer == s.colorBuffer
    ensures Valid(s) ==> Valid(r) && Picture(r) == Picture(s)
  {
    s.(numPoints := 0, trianglePositions := [], triangleColors := [])
  }

  /** The selector's change handler: the new mode, and the pending corners forgotten. */
  function ModeChanged<P, C>(s: Canvas<P, C>, mode: int): (r: Canvas<P, C>)
    ensures r.mode == mode && r.numPoints == 0 && r.trianglePositions == [] && r.triangleColors == []
    ensures r.index == s.index && r.bgcolor == s.bgcolor
    ensures r.positionBuffer == s.positionBuffer && r.colorBuffer == s.colorBuffer
  {
    Reset(s.(mode := mode))
  }

  /** The clear button: the cursor back to 0, a new background color, and the pending
      corners forgotten. The buffers keep their old entries. */
  function Cleared<P, C>(s: Canvas<P, C>, bgcolor: C): (r: Canvas<P, C>)
    ensures r.index == 0 && r.bgcolor == bgcolor && r.mode == s.mode
    ensures r.numPoints == 0 && r.trianglePositions == [] && r.triangleColors == []
    ensures r.positionBuffer == s.positionBuffer && r.colorBuffer == s.colorBuffer
  {
    Reset(s.(index := 0, bgcolor := bgcolor))
  }

  /** A click at `pos` with the selected color `color`. */
  function Clicked<P, C>(s: Canvas<P, C>, pos: P, color: C): (r: Canvas<P, C>)
    ensures r.mode == s.mode && r.bgcolor == s.bgcolor
    ensures s.mode == PointMode ==>
              && r.index == s.index + VertsPerPoint && r.numPoints == s.numPoints
              && r.trianglePositions == s.trianglePositions && r.triangleColors == s.triangleColors
    ensures s.mode == TriangleMode && s.numPoints + 1 != 3 ==>
              && r.index == s.index + VertsPerPoint && r.numPoints == s.numPoints + 1
              && r.trianglePositions == s.trianglePositions + [pos]
              && r.triangleColors == s.triangleColors + [color]
    ensures s.mode == TriangleMode && s.numPoints + 1 == 3 ==>
              && r.index == s.index - 2 * VertsPerPoint + 3 && r.numPoints == 0
              && r.trianglePositions == [] && r.triangleColors == []
    ensures s.mode != PointMode && s.mode != TriangleMode ==> r == s
  {
    if s.mode == PointMode then
      s.(index := s.index + VertsPerPoint,
         positionBuffer := WriteAt(s.positionBuffer, s.index, AddPoint(pos)),
         colorBuffer := WriteAt(s.colorBuffer, s.index, FillColor(color)))
    else if s.mode == TriangleMode then
      var ps, colors, n := s.trianglePositions + [pos], s.triangleColors + [color], s.numPoints + 1;
      if n == 3 then
        var at := s.index - 2 * VertsPerPoint;
        Reset(s.(index := at + 3,
                 positionBuffer := WriteAt(s.positionBuffer, at, Corners(ps)),
                 colorBuffer := WriteAt(s.colorBuffer, at, colors)))
      else
        s.(index := s.index + VertsPerPoint, numPoints := n,
           trianglePositions := ps, triangleColors := colors,
           positionBuffer := WriteAt(s.positionBuffer, s.index, AddPoint(pos)),
           colorBuffer := WriteAt(s.colorBuffer, s.index, FillColor(color)))
    else s
  }

  /** Writing `vs` and `cs` at the end of the written prefix `at` extends what draw shows
      by exactly those entries. */
  lemma ShownWrite<P, C>(positions: map<int, Vertex<P>>, colors: map<int, C>, at: int,
                         vs: seq<Vertex<P>>, cs: seq<C>)
    requires 0 <= at && Covered(positions, colors, at) && |vs| == |cs|
    ensures Covered(WriteAt(positions, at, vs), WriteAt(colors, at, cs), at + |vs|)
    ensures Shown(WriteAt(positions, at, vs), WriteAt(colors, at, cs), at + |vs|)
            == Shown(positions, colors, at) + Zip(vs, cs)
  {
    var positions', colors' := WriteAt(positions, at, vs), WriteAt(colors, at, cs);
    forall k | 0 <= k < at + |vs|
      ensures k in positions' && k in colors'
      ensures positions'[k] == if k < at then positions[k] else vs[k - at]
      ensures colors'[k] == if k < at then colors[k] else cs[k - at]
    {
      WrittenAt(positions, at, vs, k);
      WrittenAt(colors, at, cs, k);
    }
  }

  /** A point-mode click draws one more marker and moves the cursor on by six. */
  lemma PointClick<P, C>(s: Canvas<P, C>, pos: P, color: C)
    requires Valid(s) && s.mode == PointMode
    ensures Valid(Clicked(s, pos, color))
    ensures Clicked(s, pos, color).index == s.index + VertsPerPoint
    ensures Picture(Clicked(s, pos, color)) == Picture(s) + Marker(pos, color)
  {
    ShownWrite(s.positionBuffer, s.colorBuffer, s.index, AddPoint(pos), FillColor(color));
  }

  /** The first and second triangle-mode clicks remember the corner and its color, draw
      a marker for it and move the cursor on by six. */
  lemma CornerClick<P, C>(s: Canvas<P, C>, pos: P, color: C)
    requires Valid(s) && s.mode == TriangleMode && s.numPoints < 2
    ensures Valid(Clicked(s, pos, color))
    ensures Clicked(s, pos, color).index == s.index + VertsPerPoint
    ensures Clicked(s, pos, color).numPoints == s.numPoints + 1
    ensures Clicked(s, pos, color).trianglePositions == s.trianglePositions + [pos]
    ensures Clicked(s, pos, color).triangleColors == s.triangleColors + [color]
    ensures Picture(Clicked(s, pos, color)) == Picture(s) + Marker(pos, color)
  {
    var r := Clicked(s, pos, color);
    var positions, colors := WriteAt(s.positionBuffer, s.index, AddPoint(pos)), WriteAt(s.colorBuffer, s.index, FillColor(color));
    assert r == s.(index := s.index + VertsPerPoint, numPoints := s.numPoints + 1,
                   trianglePositions := s.trianglePositions + [pos], triangleColors := s.triangleColors + [color],
                   positionBuffer := positions, colorBuffer := colors);
    ShownWrite(s.positionBuffer, s.colorBuffer, s.index, AddPoint(pos), FillColor(color));
    MarkerKeepsValid(s, r, pos, color);
  }

  /** A state that adds one pending corner to a valid state, with the corner's marker
      drawn right after the old picture, is valid. */
  lemma MarkerKeepsValid<P, C>(s: Canvas<P, C>, r: Canvas<P, C>, pos: P, color: C)
    requires Valid(s) && s.mode == TriangleMode && s.numPoints < 2
    requires r.mode == TriangleMode && r.index == s.index + VertsPerPoint && r.numPoints == s.numPoints + 1
    requires r.trianglePositions == s.trianglePositions + [pos] && r.triangleColors == s.triangleColors + [color]
    requires Covered(r.positionBuffer, r.colorBuffer, r.index)
    requires Shown(r.positionBuffer, r.colorBuffer, r.index) == Picture(s) + Marker(pos, color)
    ensures Valid(r)
  {
    var picture, n := Picture(s), VertsPerPoint * s.numPoints;
    assert |picture| == s.index;
    assert r.index - VertsPerPoint * r.numPoints == |picture| - n;
    SuffixAppend(picture, Marker(pos, color), n);
    PendingMarkersAppend(s.trianglePositions, s.triangleColors, pos, color);
  }

  /** Taking the last n + |b| entries of a + b. */
  lemma SuffixAppend<T>(a: seq<T>, b: seq<T>, n: int)
    requires 0 <= n <= |a|
    ensures (a + b)[|a| - n..] == a[|a| - n..] + b
  {
  }

  /** One more pending corner adds its marker at the end. */
  lemma PendingMarkersAppend<P, C>(ps: seq<P>, colors: seq<C>, p: P, c: C)
    requires |ps| == |colors|
    ensures PendingMarkers(ps + [p], colors + [c]) == PendingMarkers(ps, colors) + Marker(p, c)
  {
    assert (ps + [p])[..|ps|] == ps;
    assert (colors + [c])[..|colors|] == colors;
  }

  /** The third triangle-mode click: the last twelve vertices drawn are the markers of
      the two pending corners; the cursor moves back over them, the triangle's three
      corners are written in their place, and the pending corners are forgotten. */
  lemma ThirdCornerClick<P, C>(s: Canvas<P, C>, pos: P, color: C)
    requires Valid(s) && s.mode == TriangleMode && s.numPoints == 2
    ensures Picture(s)[s.index - 2 * VertsPerPoint..]
            == Marker(s.trianglePositions[0], s.triangleColors[0]) + Marker(s.trianglePositions[1], s.triangleColors[1])
    ensures Valid(Clicked(s, pos, color))
    ensures Clicked(s, pos, color).index == s.index - 2 * VertsPerPoint + 3
    ensures Clicked(s, pos, color).numPoints == 0
    ensures Clicked(s, pos, color).trianglePositions == [] && Clicked(s, pos, color).triangleColors == []
    ensures Picture(Clicked(s, pos, color))
            == Picture(s)[..s.index - 2 * VertsPerPoint]
               + Triangle(s.trianglePositions + [pos], s.triangleColors + [color])
  {
    var ps, colors := s.trianglePositions, s.triangleColors;
    assert ps[..1][..0] == [] && colors[..1][..0] == [];
    assert PendingMarkers(ps, colors) == Marker(ps[0], colors[0]) + Marker(ps[1], colors[1]);
    var at := s.index - 2 * VertsPerPoint;
    var before := Shown(s.positionBuffer, s.colorBuffer, s.index);
    assert Shown(s.positionBuffer, s.colorBuffer, at) == before[..at];
    ShownWrite(s.positionBuffer, s.colorBuffer, at, Corners(ps + [pos]), colors + [color]);
  }

  /** Three triangle-mode clicks from a state with no pending corner leave none pending,
      move the cursor on by three, and add exactly the triangle to what is drawn. */
  lemma TriangleFromThreeClicks<P, C>(s: Canvas<P, C>, p0: P, c0: C, p1: P, c1: C, p2: P, c2: C)
    requires Valid(s) && s.mode == TriangleMode && s.numPoints == 0
    ensures var r := Clicked(Clicked(Clicked(s, p0, c0), p1, c1), p2, c2);
            && Valid(r) && r.index == s.index + 3 && r.numPoints == 0
            && Picture(r) == Picture(s) + Triangle([p0, p1, p2], [c0, c1, c2])
  {
    var s1 := Clicked(s, p0, c0);
    CornerClick(s, p0, c0);
    var s2 := Clicked(s1, p1, c1);
    CornerClick(s1, p1, c1);
    ThirdCornerClick(s2, p2, c2);
    assert Picture(s2)[..s.index] == Picture(s);
    assert s2.trianglePositions + [p2] == [p0, p1, p2];
    assert s2.triangleColors + [c2] == [c0, c1, c2];
  }

  /** Every click keeps the state reachable; the cursor never moves back past the
      vertices of the pending corners, so it never becomes negative; a click under any
      other mode value changes nothing. */
  lemma ClickKeepsValid<P, C>(s: Canvas<P, C>, pos: P, color: C)
    requires Valid(s)
    ensures Valid(Clicked(s, pos, color))
    ensures Clicked(s, pos, color).index >= 0
    ensures s.mode != PointMode && s.mode != TriangleMode ==> Clicked(s, pos, color) == s
  {
    if s.mode == PointMode {
      PointClick(s, pos, color);
    } else if s.mode == TriangleMode {
      if s.numPoints < 2 {
        CornerClick(s, pos, color);
      } else {
        ThirdCornerClick(s, pos, color);
      }
    }
  }

  /** A mode change forgets the pending corners and leaves the cursor and the picture as
      they are: the markers of forgotten corners stay on screen. */
  lemma ModeChangeKeepsPicture<P, C>(s: Canvas<P, C>, mode: int)
    requires Valid(s)
    ensures Valid(ModeChanged(s, mode))
    ensures ModeChanged(s, mode).mode == mode && ModeChanged(s, mode).index == s.index
    ensures ModeChanged(s, mode).numPoints == 0
    ensures ModeChanged(s, mode).trianglePositions == [] && ModeChanged(s, mode).triangleColors == []
    ensures Picture(ModeChanged(s, mode)) == Picture(s)
  {
  }

  /** Clear empties the picture and forgets the pending corners, from any state. */
  lemma ClearEmpties<P, C>(s: Canvas<P, C>, bgcolor: C)
    ensures Valid(Cleared(s, bgcolor))
    ensures Picture(Cleared(s, bgcolor)) == []
    ensures Cleared(s, bgcolor).numPoints == 0 && Cleared(s, bgcolor).bgcolor == bgcolor
  {
  }

  /** The user's actions on the page. */
  datatype Event<P, C> = Click(pos: P, color: C) | ModeChange(mode: int) | Clear(bgcolor: C)

  /** The state after one event. */
  function Handled<P, C>(s: Canvas<P, C>, event: Event<P, C>): Canvas<P, C>
  {
    match event
    case Click(pos, color) => Clicked(s, pos, color)
    case ModeChange(mode) => ModeChanged(s, mode)
    case Clear(bgcolor) => Cleared(s, bgcolor)
  }

  /** The state after handling `events` in order. */
  function Run<P, C>(s: Canvas<P, C>, events: seq<Event<P, C>>): Canvas<P, C>
    decreases |events|
  {
    if events == [] then s else Run(Handled(s, events[0]), events[1..])
  }

  /** Every sequence of events from a reachable state leaves a reachable state: at most
      two pending corners, and a cursor at least six vertices past each of them. */
  lemma {:induction false} RunKeepsValid<P, C>(s: Canvas<P, C>, events: seq<Event<P, C>>)
    requires Valid(s)
    ensures Valid(Run(s, events))
    ensures 0 <= Run(s, events).numPoints <= 2
    ensures VertsPerPoint * Run(s, events).numPoints <= Run(s, events).index
    decreases |events|
  {
    if events != [] {
      match events[0] {
        case Click(pos, color) => ClickKeepsValid(s, pos, color);
        case ModeChange(mode) => ModeChangeKeepsPicture(s, mode);
        case Clear(bgcolor) => ClearEmpties(s, bgcolor);
      }
      RunKeepsValid(Handled(s, events[0]), events[1..]);
    }
  }

  /** Every state the page reaches from its start is valid. */
  lemma ReachableValid<P, C>(mode: int, bgcolor: C, events: seq<Event<P, C>>)
    ensures Valid(Run(Initial(mode, bgcolor), events))
  {
    RunKeepsValid(Initial(mode, bgcolor), events);
  }

  /** The page's state, updated in place by its event handlers. */
  class ClickHandler<P, C> {
    var mode: int
    var index: int
    var numPoints: int
    var trianglePositions: seq<P>
    var triangleColors: seq<C>
    var positionBuffer: map<int, Vertex<P>>
    var colorBuffer: map<int, C>
    var bgcolor: C

    function State(): Canvas<P, C>
      reads this
    {
      Canvas(mode, index, numPoints, trianglePositions, triangleColors, positionBuffer, colorBuffer, bgcolor)
    }

    constructor (mode: int, bgcolor: C)
      ensures State() == Initial(mode, bgcolor) && Valid(State())
    {
      this.mode := mode;
      index := 0;
      numPoints := 0;
      trianglePositions := [];
      triangleColors := [];
      positionBuffer := map[];
      colorBuffer := map[];
      this.bgcolor := bgcolor;
    }

    method ResetTriangleMode()
      modifies this
      ensures State() == Reset(old(State()))
    {
      numPoints := 0;
      trianglePositions := [];
      triangleColors := [];
    }

    method ChangeMode(mode: int)
      modifies this
      ensures State() == ModeChanged(old(State()), mode)
    {
      this.mode := mode;
      ResetTriangleMode();
    }

    method ClearCanvas(bgcolor: C)
      modifies this
      ensures State() == Cleared(old(State()), bgcolor)
    {
      index := 0;
      this.bgcolor := bgcolor;
      ResetTriangleMode();
    }

    method Click(pos: P, color: C)
      modifies this
      ensures State() == Clicked(old(State()), pos, color)
    {
      if mode == PointMode {
        positionBuffer := WriteAt(positionBuffer, index, AddPoint(pos));
        colorBuffer := WriteAt(colorBuffer, index, FillColor(color));
        index := index + VertsPerPoint;
      } else if mode == TriangleMode {
        trianglePositions := trianglePositions + [pos];
        triangleColors := triangleColors + [color];
        numPoints := numPoints + 1;
        if numPoints == 3 {
          var positions, colors := Corners(trianglePositions), triangleColors;
          index := index - 2 * VertsPerPoint;
          positionBuffer := WriteAt(positionBuffer, index, positions);
          colorBuffer := WriteAt(colorBuffer, index, colors);
          index := index + 3;
          ResetTriangleMode();
        } else {
          positionBuffer := WriteAt(positionBuffer, index, AddPoint(pos));
          colorBuffer := WriteAt(colorBuffer, index, FillColor(color));
          index := index + VertsPerPoint;
        }
      }
    }
  }
}
