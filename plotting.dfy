/** The part of the export that is logic rather than file output: nothing is
    exported for an empty list; otherwise the rows are the points in the
    order they were stored, and the scatter plot has one series per palette
    colour, in palette order, for the colours that have at least one point. */
module Plotting {
  import opened Admission

  /** One scatter series: a palette colour and the points of that colour. */
  datatype Series = Series(color: string, points: seq<Point>)

  /** What the export button produces. */
  datatype Export = NothingExported | Exported(rows: seq<Point>, series: seq<Series>)

  /** The rows of the table whose colour is `color`, in table order. */
  function Subset(points: seq<Point>, color: string): (r: seq<Point>)
    ensures |r| <= |points|
    ensures forall p :: p in r <==> p in points && p.color == color
  {
    if points == [] then []
    else
      (if points[0].color == color then [points[0]] else []) + Subset(points[1..], color)
  }

  /** The selection keeps every copy of a matching row: each point occurs in
      it as often as in the table if it has the colour, and not at all
      otherwise. */
  lemma {:induction false} SubsetKeepsEveryCopy(points: seq<Point>, color: string)
    ensures forall p :: multiset(Subset(points, color))[p]
                        == if p.color == color then multiset(points)[p] else 0
  {
    if points != [] {
      SubsetKeepsEveryCopy(points[1..], color);
      assert points == [points[0]] + points[1..];
    }
  }

  /** Selecting by colour commutes with appending, so a point added later
      comes later in its colour's series. */
  lemma {:induction false} SubsetOfAppend(a: seq<Point>, b: seq<Point>, color: string)
    ensures Subset(a + b, color) == Subset(a, color) + Subset(b, color)
  {
    if a != [] {
      assert (a + b)[1..] == a[1..] + b;
      SubsetOfAppend(a[1..], b, color);
    } else {
      assert a + b == b;
    }
  }

  /** The series for the colours of `palette`, in palette order, skipping the
      colours no point has.  Every series holds exactly the points of its
      colour and is never empty. */
  function PlotSeries(palette: seq<string>, points: seq<Point>): (r: seq<Series>)
    ensures |r| <= |palette|
    ensures forall k :: 0 <= k < |r| ==>
              r[k].color in palette && r[k].points != [] && r[k].points == Subset(points, r[k].color)
    decreases |palette|
  {
    if palette == [] then []
    else
      var c := palette[|palette| - 1];
      var sub := Subset(points, c);
      PlotSeries(palette[..|palette| - 1], points) + (if sub != [] then [Series(c, sub)] else [])
  }

  /** A colour has a series exactly when it is in the palette and some point
      has it (the points of that colour are not none). */
  lemma {:induction false} SeriesForColour(palette: seq<string>, points: seq<Point>, c: string)
    ensures (exists k :: 0 <= k < |PlotSeries(palette, points)| && PlotSeries(palette, points)[k].color == c)
            <==> c in palette && Subset(points, c) != []
    decreases |palette|
  {
    if palette != [] {
      var init, last := palette[..|palette| - 1], palette[|palette| - 1];
      SeriesForColour(init, points, c);
      assert palette == init + [last];
      var s0, s := PlotSeries(init, points), PlotSeries(palette, points);
      var sub := Subset(points, last);
      assert s[..|s0|] == s0;
      if c in palette && Subset(points, c) != [] {
        if c != last {
          assert c in init;
          var k :| 0 <= k < |s0| && s0[k].color == c;
          assert s[k].color == c;
        } else {
          assert s == s0 + [Series(last, sub)];
          assert s[|s0|].color == c;
        }
      }
    }
  }

  /** A stored point is plotted exactly when its colour is in the palette,
      and then only in the series of its own colour. */
  lemma PointPlacement(palette: seq<string>, points: seq<Point>, p: Point)
    requires p in points
    ensures (exists k :: 0 <= k < |PlotSeries(palette, points)| && p in PlotSeries(palette, points)[k].points)
            <==> p.color in palette
    ensures forall k :: 0 <= k < |PlotSeries(palette, points)| ==>
              (p in PlotSeries(palette, points)[k].points <==> PlotSeries(palette, points)[k].color == p.color)
  {
    var s := PlotSeries(palette, points);
    SeriesForColour(palette, points, p.color);
    assert p in Subset(points, p.color);
    if p.color in palette {
      var k :| 0 <= k < |s| && s[k].color == p.color;
      assert p in s[k].points;
    }
  }

  predicate Distinct(s: seq<string>)
  {
    forall i, j :: 0 <= i < j < |s| ==> s[i] != s[j]
  }

  /** The position of `c` in `s`. */
  function IndexOf(s: seq<string>, c: string): (i: nat)
    requires c in s
    ensures i < |s| && s[i] == c
    ensures forall j :: 0 <= j < i ==> s[j] != c
  {
    if s[0] == c then 0 else 1 + IndexOf(s[1..], c)
  }

  lemma IndexInPrefix(s: seq<string>, n: nat, c: string)
    requires n <= |s| && c in s[..n]
    ensures IndexOf(s[..n], c) == IndexOf(s, c)
  {
  }

  /** For a palette without repetitions, the series come in palette order. */
  lemma {:induction false} SeriesInPaletteOrder(palette: seq<string>, points: seq<Point>)
    requires Distinct(palette)
    ensures forall i, j :: 0 <= i < j < |PlotSeries(palette, points)| ==>
              IndexOf(palette, PlotSeries(palette, points)[i].color)
              < IndexOf(palette, PlotSeries(palette, points)[j].color)
    decreases |palette|
  {
    if palette != [] {
      var n := |palette| - 1;
      var init := palette[..n];
      SeriesInPaletteOrder(init, points);
      var s0 := PlotSeries(init, points);
      var s := PlotSeries(palette, points);
      assert s[..|s0|] == s0;
      forall k | 0 <= k < |s0|
        ensures IndexOf(palette, s[k].color) == IndexOf(init, s[k].color) < n
      {
        IndexInPrefix(palette, n, s[k].color);
      }
      if |s| > |s0| {
        assert s[|s0|].color == palette[n];
        assert IndexOf(palette, palette[n]) == n;
      }
    }
  }

  /** Some stored point has colour `c`. */
  predicate HasColour(points: seq<Point>, c: string)
  {
    exists p :: p in points && p.color == c
  }

  /** Some series is for colour `c`. */
  predicate HasSeries(series: seq<Series>, c: string)
  {
    exists k :: 0 <= k < |series| && series[k].color == c
  }

  /** The facts about the palette's series that an export promises. */
  lemma PaletteSeriesFacts(points: seq<Point>)
    ensures forall c :: HasSeries(PlotSeries(Palette, points), c) <==> c in Palette && HasColour(points, c)
    ensures forall i, j :: 0 <= i < j < |PlotSeries(Palette, points)| ==>
              IndexOf(Palette, PlotSeries(Palette, points)[i].color)
              < IndexOf(Palette, PlotSeries(Palette, points)[j].color)
    ensures forall p, k :: p in points && p.color !in Palette && 0 <= k < |PlotSeries(Palette, points)| ==>
              p !in PlotSeries(Palette, points)[k].points
  {
    forall c ensures HasSeries(PlotSeries(Palette, points), c) <==> c in Palette && HasColour(points, c) {
      SeriesForColour(Palette, points, c);
      if HasColour(points, c) {
        var p :| p in points && p.color == c;
        assert p in Subset(points, c);
      }
      if Subset(points, c) != [] {
        assert Subset(points, c)[0] in Subset(points, c);
      }
    }
    assert Distinct(Palette);
    SeriesInPaletteOrder(Palette, points);
    forall p | p in points && p.color !in Palette {
      PointPlacement(Palette, points, p);
    }
  }

  /** What the export button produces.  Nothing for an empty list.
      Otherwise the rows are the stored points in order, and there is one
      series for each palette colour that some point has, in palette order,
      holding exactly the points of that colour; a point whose colour is not
      in the palette is in no series. */
  function ExportOf(points: seq<Point>): (e: Export)
    ensures e.NothingExported? <==> points == []
    ensures e.Exported? ==> e.rows == points
    ensures e.Exported? ==> forall c :: HasSeries(e.series, c) <==> c in Palette && HasColour(points, c)
    ensures e.Exported? ==> forall k :: 0 <= k < |e.series| ==>
              e.series[k].color in Palette && e.series[k].points == Subset(points, e.series[k].color)
    ensures e.Exported? ==> forall i, j :: 0 <= i < j < |e.series| ==>
              IndexOf(Palette, e.series[i].color) < IndexOf(Palette, e.series[j].color)
    ensures e.Exported? ==> forall p, k :: p in points && p.color !in Palette && 0 <= k < |e.series| ==>
              p !in e.series[k].points
  {
    if points == [] then NothingExported
    else
      PaletteSeriesFacts(points);
      Exported(points, PlotSeries(Palette, points))
  }
}
