/** The collector object: the rotation and the stored points are fields that
    the slider and click handlers update in place; the export handler only
    reads them. */
module Collector {
  import opened Geometry
  import opened Admission
  import opened Plotting

  class PointCollector {
    /** The cosine and sine the click handler calls. */
    const trig: Trig
    /** The colours of the colour selector. */
    const colors: seq<string> := Palette
    /** The rotation of the image in degrees, as the slider last set it. */
    var currentRotation: real
    /** The stored records, in the order they were admitted. */
    var points: seq<Point>

    /** A new collector: no rotation and no points.  Loading the image and
        building the window are not part of this model. */
    constructor (trig: Trig)
      ensures this.trig == trig
      ensures State() == Initial()
    {
      this.trig := trig;
      currentRotation := 0.0;
      points := [];
    }

    /** The collector's state as a value. */
    function State(): Session
      reads this
    {
      Session(currentRotation, points)
    }

    /** The slider handler: the angle is stored as given, with no clamping
        or wrapping, and the points stay as they are. */
    method UpdateRotation(angle: real)
      modifies this
      ensures currentRotation == angle
      ensures points == old(points)
      ensures State() == Step(trig, old(State()), SetRotation(angle))
    {
      currentRotation := angle;
    }

    /** The click handler.  A press outside the axes changes nothing; one
        inside them is rotated back to the original frame and, if that
        position is inside the circle, one record is appended. */
    method OnClick(ev: ClickEvent, color: string, size: int)
      modifies this
      ensures currentRotation == old(currentRotation)
      ensures points == AfterClick(trig, currentRotation, old(points), ev, color, size)
      ensures State() == Step(trig, old(State()), Press(ev, color, size))
    {
      if ev.OutsideAxes? {
        return;
      }
      var theta := Radians(-currentRotation);
      var xOrig := ev.xdata * trig.cos(theta) - ev.ydata * trig.sin(theta);
      var yOrig := ev.xdata * trig.sin(theta) + ev.ydata * trig.cos(theta);
      assert Vec(xOrig, yOrig) == ToOriginal(trig, currentRotation, Vec(ev.xdata, ev.ydata));
      if xOrig * xOrig + yOrig * yOrig <= 40.0 * 40.0 {
        points := points + [Point(color, Round2(xOrig), Round2(yOrig), size)];
      }
    }

    /** The export handler: nothing for an empty list; otherwise the rows in
        stored order and, walking the palette in order, one series for each
        colour that has at least one point. */
    method ExportPoints() returns (out: Export)
      ensures out.NothingExported? <==> points == []
      ensures out.Exported? ==> out.rows == points
      ensures out == ExportOf(points)
    {
      if points == [] {
        return NothingExported;
      }
      var series: seq<Series> := [];
      for i := 0 to |colors|
        invariant series == PlotSeries(colors[..i], points)
      {
        var color := colors[i];
        var subset := Subset(points, color);
        if subset != [] {
          series := series + [Series(color, subset)];
        }
        assert colors[..i + 1][..i] == colors[..i];
      }
      assert colors[..|colors|] == colors;
      out := Exported(points, series);
    }
  }
}
