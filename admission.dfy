/** Point admission and the collector's session state, as values.

    A click in the axes is mapped back to the original image frame; if the
    original position is inside the circle, one record with the coordinates
    rounded to two decimals and the currently selected colour and size is
    appended to the list of points.  Nothing is validated: the colour and
    the size are whatever the widgets hold. */
module Admission {
  import opened Geometry

  /** The colours offered by the colour selector, in order. */
  const Palette: seq<string> := ["Red", "Green", "Blue", "Orange", "Yellow"]

  /** One stored record: the `Color`, `X`, `Y` and `Size` entries. */
  datatype Point = Point(color: string, x: real, y: real, size: int)

  /** A mouse press as the program sees it: outside the axes, or inside them
      at a display position in data coordinates. */
  datatype ClickEvent = OutsideAxes | InAxes(xdata: real, ydata: real)

  /** The record stored for an admitted click at original position `o`: the
      selected colour and size as given, and coordinates on the 1/100 grid
      within 1/200 of the original position; a coordinate halfway between two
      grid points goes to the even one. */
  function Record(o: Vec, color: string, size: int): (r: Point)
    ensures r.color == color && r.size == size
    ensures -0.005 <= r.x - o.x <= 0.005 && -0.005 <= r.y - o.y <= 0.005
    ensures (r.x * 100.0).Floor as real == r.x * 100.0 && (r.y * 100.0).Floor as real == r.y * 100.0
    ensures (o.x * 100.0).Floor as real + 0.5 == o.x * 100.0 ==> (r.x * 100.0).Floor % 2 == 0
    ensures (o.y * 100.0).Floor as real + 0.5 == o.y * 100.0 ==> (r.y * 100.0).Floor % 2 == 0
  {
    Point(color, Round2(o.x), Round2(o.y), size)
  }

  /** The list of points after a click with the given rotation and widget
      values: it is extended by one record exactly when the click is in the
      axes and its original-frame position is inside the circle. */
  function AfterClick(t: Trig, rotation: real, points: seq<Point>, ev: ClickEvent,
                      color: string, size: int): (r: seq<Point>)
    ensures |points| <= |r| <= |points| + 1
    ensures r[..|points|] == points
    ensures |r| == |points| + 1 <==>
              ev.InAxes? && InsideCircle(ToOriginal(t, rotation, Vec(ev.xdata, ev.ydata)))
    ensures |r| == |points| + 1 ==>
              r[|points|] == Record(ToOriginal(t, rotation, Vec(ev.xdata, ev.ydata)), color, size)
  {
    match ev
    case OutsideAxes => points
    case InAxes(x, y) =>
      var o := ToOriginal(t, rotation, Vec(x, y));
      if InsideCircle(o) then points + [Record(o, color, size)] else points
  }

  /** With lawful trigonometry, a click is admitted exactly when its display
      position is inside the circle, whatever the rotation. */
  lemma AdmittedIffDisplayInside(t: Trig, rotation: real, points: seq<Point>, x: real, y: real,
                                 color: string, size: int)
    requires Pythagorean(t)
    ensures |AfterClick(t, rotation, points, InAxes(x, y), color, size)| == |points| + 1
            <==> x * x + y * y <= 1600.0
  {
  }

  /** The boundary is inside: a click at distance exactly 40 is stored, and a
      click beyond it leaves the list as it was. */
  lemma BoundaryInclusive(t: Trig, rotation: real, points: seq<Point>, x: real, y: real,
                          color: string, size: int)
    requires Pythagorean(t)
    ensures x * x + y * y == 1600.0 ==>
              AfterClick(t, rotation, points, InAxes(x, y), color, size) != points
    ensures x * x + y * y > 1600.0 ==>
              AfterClick(t, rotation, points, InAxes(x, y), color, size) == points
  {
  }

  /** The unrounded position passes the test but the stored, rounded one
      need not: (39.996, 0.565) is inside the circle and is stored as
      (40.00, 0.56), which is not. */
  lemma RoundedRecordMayLeaveCircle()
    ensures InsideCircle(Vec(39.996, 0.565))
    ensures !InsideCircle(Vec(Record(Vec(39.996, 0.565), "Red", 1).x,
                              Record(Vec(39.996, 0.565), "Red", 1).y))
  {
  }

  /** What stored coordinates do keep: rounding is monotone and 40 is on
      the 1/100 grid, so each stored coordinate lies in [-40, 40], the axis
      limits of the exported plot. */
  lemma StoredCoordinatesWithinAxes(o: Vec, color: string, size: int)
    requires InsideCircle(o)
    ensures -40.0 <= Record(o, color, size).x <= 40.0
    ensures -40.0 <= Record(o, color, size).y <= 40.0
  {
  }

  /** The collector's state: the rotation in degrees and the stored points. */
  datatype Session = Session(rotation: real, points: seq<Point>)

  /** The events that reach the collector: a slider move, a press on the
      canvas with the colour and size the widgets hold, and the export
      button (which changes nothing). */
  datatype Input =
    | SetRotation(angle: real)
    | Press(ev: ClickEvent, color: string, size: int)
    | ExportRequest

  /** A fresh collector: no rotation and no points. */
  function Initial(): Session
  {
    Session(0.0, [])
  }

  /** One event: the slider sets the rotation and nothing else; a press
      leaves the rotation and updates the points as `AfterClick` says, with
      the rotation in force; an export changes nothing. */
  function Step(t: Trig, s: Session, i: Input): (r: Session)
    ensures i.SetRotation? ==> r.rotation == i.angle && r.points == s.points
    ensures !i.SetRotation? ==> r.rotation == s.rotation
    ensures i.Press? ==> r.points == AfterClick(t, s.rotation, s.points, i.ev, i.color, i.size)
    ensures i.ExportRequest? ==> r == s
    ensures s.points <= r.points
    ensures |r.points| <= |s.points| + (if i.Press? then 1 else 0)
  {
    match i
    case SetRotation(angle) => Session(angle, s.points)
    case Press(ev, color, size) => Session(s.rotation, AfterClick(t, s.rotation, s.points, ev, color, size))
    case ExportRequest => s
  }

  /** The state after handling the inputs in order.  Its rotation is the
      angle of the last slider move, unclamped and unwrapped, or the old
      rotation when the slider did not move. */
  function Run(t: Trig, s: Session, inputs: seq<Input>): (r: Session)
    ensures (forall k :: 0 <= k < |inputs| ==> !inputs[k].SetRotation?) ==> r.rotation == s.rotation
    ensures forall k :: 0 <= k < |inputs| && inputs[k].SetRotation? &&
                        (forall j :: k < j < |inputs| ==> !inputs[j].SetRotation?) ==>
                          r.rotation == inputs[k].angle
    decreases |inputs|
  {
    if inputs == [] then s
    else
      var r := Run(t, Step(t, s, inputs[0]), inputs[1..]);
      assert forall j :: 0 <= j < |inputs| - 1 ==> inputs[1..][j] == inputs[j + 1];
      r
  }

  function CountPresses(inputs: seq<Input>): nat
  {
    if inputs == [] then 0 else (if inputs[0].Press? then 1 else 0) + CountPresses(inputs[1..])
  }

  /** Points are only ever appended: whatever the inputs, the old list is a
      prefix of the new one. */
  lemma {:induction false} RunOnlyAppends(t: Trig, s: Session, inputs: seq<Input>)
    ensures |s.points| <= |Run(t, s, inputs).points|
    ensures Run(t, s, inputs).points[..|s.points|] == s.points
    decreases |inputs|
  {
    if inputs != [] {
      var s' := Step(t, s, inputs[0]);
      RunOnlyAppends(t, s', inputs[1..]);
      assert s'.points[..|s.points|] == s.points;
    }
  }

  /** Each input adds at most one point, and only presses add any. */
  lemma {:induction false} RunGrowthBoundedByPresses(t: Trig, s: Session, inputs: seq<Input>)
    ensures |Run(t, s, inputs).points| <= |s.points| + CountPresses(inputs)
    decreases |inputs|
  {
    if inputs != [] {
      RunGrowthBoundedByPresses(t, Step(t, s, inputs[0]), inputs[1..]);
    }
  }

  /** Two presses that are both admitted store their records after the
      existing points, in press order. */
  lemma AdmittedPressesKeepOrder(t: Trig, s: Session, a: Input, b: Input)
    requires a.Press? && b.Press?
    ensures var n, s1, s2 := |s.points|, Step(t, s, a), Run(t, s, [a, b]);
            |s1.points| == n + 1 && |s2.points| == n + 2 ==>
              && a.ev.InAxes? && b.ev.InAxes?
              && s2.points == s.points
                 + [Record(ToOriginal(t, s.rotation, Vec(a.ev.xdata, a.ev.ydata)), a.color, a.size),
                    Record(ToOriginal(t, s.rotation, Vec(b.ev.xdata, b.ev.ydata)), b.color, b.size)]
  {
    var s1 := Step(t, s, a);
    assert Run(t, s, [a, b]) == Run(t, s1, [b]) by { assert [a, b][1..] == [b]; }
    assert Run(t, s1, [b]) == Step(t, s1, b) by { assert [b][1..] == []; }
  }
}
