# Point collector core, in Dafny

A model of the logic inside `PointCollectorApp` (image_to_points.py), the
annotation tool that shows an image centred on the origin, lets the user
rotate it with a slider, and records clicks that fall inside a circle of
radius 40 around the centre as `{Color, X, Y, Size}` records.

- `geometry.dfy` (module `Geometry`): the rotation between the display frame
  and the original image frame, its inverse, the circle test and numpy's
  two-decimal rounding of the stored coordinates. numpy's cosine and sine
  cannot be defined in Dafny. They are carried as a `Trig` value of two
  `real -> real` functions. The
  lemmas that need them assume only three laws, stated as predicates:
  sin²+cos² = 1, cos is even and sin is odd. Degrees become radians with
  3.141592653589793, numpy's pi as printed, taken as an exact decimal.
- `admission.dfy` (module `Admission`): the record type, the click event,
  the list of points after one click (`AfterClick`), and the collector's state
  as a value. A `Step`/`Run` model over sequences of inputs (slider moves,
  presses, export requests) states what holds across many events.
- `plotting.dfy` (module `Plotting`): the logic part of the export. An empty
  list exports nothing. Otherwise the rows are the points in stored order,
  and the scatter plot has one series per palette colour, in palette order,
  for the colours that have at least one point.
- `collector.dfy` (module `Collector`): the `PointCollector` class with the
  fields `currentRotation` and `points` and the handlers `UpdateRotation`,
  `OnClick` and `ExportPoints`. Each handler is proved against the functions
  above.

The code does not validate colour, size or the angle. It accepts any colour
string and any integer size exactly as the widgets hand them over, and any
angle the slider sets. A colour outside the palette is stored and exported as
a row, but it is in no series.

The circle test is on the unrounded position and the stored one is rounded,
so a stored record can lie outside the circle.
`Admission.RoundedRecordMayLeaveCircle` gives such a position.
`Admission.StoredCoordinatesWithinAxes` proves what does hold: each stored
coordinate lies in [-40, 40], the axis limits of the exported plot.

## Model

| member | source | states |
|---|---|---|
| `Geometry.Forward` | image_to_points.py:90 | the renderer's rotation by `angle` degrees keeps every position's squared distance from the origin (given sin²+cos² = 1) |
| `Geometry.ToOriginal` | image_to_points.py:99-101 | the original position computed for a click is the one the renderer shows at the clicked display position, for every rotation and position (given the three trig laws) |
| `Geometry.InsideCircle` | image_to_points.py:104 | a position that passes x²+y² ≤ 40² has both coordinates in [-40, 40] |
| `Geometry.RotationPreservesNorm` | image_to_points.py:99-101 | rotating any position by any angle keeps its squared distance from the origin (given sin²+cos² = 1) |
| `Geometry.RotateThenUnrotate` | image_to_points.py:99-101 | rotating by θ and then by −θ returns the original position |
| `Geometry.ToOriginalUndoesForward` | image_to_points.py:87-101 | a pixel the renderer draws at `rotate_deg(angle)` of p is mapped back to p by the click transform at the same rotation |
| `Geometry.AdmissionIgnoresRotation` | image_to_points.py:99-104 | the original-frame position is inside the circle exactly when the display position is, whatever the rotation |
| `Geometry.Round2` | image_to_points.py:111-112 | the rounded value is within 1/200 of the input and is a whole multiple of 1/100; when the input lies halfway between two multiples, the even one is chosen |
| `Geometry.Round2Idempotent` | image_to_points.py:111-112 | rounding an already rounded value changes nothing |
| `Geometry.Round2Monotone` | image_to_points.py:111-112 | rounding keeps the order of its inputs |
| `Geometry.Round2TiesToEven` | image_to_points.py:111-112 | 0.125 rounds to 0.12, 0.135 to 0.14 and -0.125 to -0.12 |
| `Admission.Record` | image_to_points.py:109-114 | the stored record has the selected colour and size unchanged, and coordinates on the 1/100 grid within 1/200 of the original position; a coordinate exactly halfway between two grid points is stored as the even one |
| `Admission.AfterClick` | image_to_points.py:94-114 | the list grows by at most one and keeps its old entries as a prefix. It grows exactly when the click is in the axes and its original position satisfies x²+y² ≤ 40². The new last record then has the selected colour and size and the rounded original coordinates |
| `Admission.AdmittedIffDisplayInside` | image_to_points.py:99-104 | a click in the axes is admitted exactly when its display position satisfies x²+y² ≤ 1600, for every rotation |
| `Admission.BoundaryInclusive` | image_to_points.py:104 | a click at distance exactly 40 is stored, and a click farther out leaves the list unchanged |
| `Admission.RoundedRecordMayLeaveCircle` | image_to_points.py:104-112 | the original position (39.996, 0.565) is admitted, but its stored record (40.00, 0.56) is outside the circle |
| `Admission.StoredCoordinatesWithinAxes` | image_to_points.py:104-112 | every coordinate stored for an admitted position lies in [-40, 40] |
| `Admission.Step` | image_to_points.py:87-114 | one event: a slider move sets the rotation to its angle and keeps the points; a press keeps the rotation and its points are `AfterClick` of the old points at the current rotation (admitted iff in the axes and inside the circle, appending its record); an export changes nothing; the old points stay a prefix and grow by at most one, and only on a press |
| `Admission.Run` | image_to_points.py:87-88 | after any sequence of inputs the rotation is the angle of the last slider move, unclamped and unwrapped, or the starting rotation if the slider never moved |
| `Admission.RunOnlyAppends` | image_to_points.py:109-114 | across any sequence of slider moves, presses and exports, the old list of points stays a prefix of the new one, so the length never decreases and the order is kept |
| `Admission.RunGrowthBoundedByPresses` | image_to_points.py:94-114 | the list grows by at most the number of presses |
| `Admission.AdmittedPressesKeepOrder` | image_to_points.py:109-114 | when two presses are both admitted, both were in the axes, and the list becomes the old points followed by press a's record and then press b's record, each built from its own click, colour and size |
| `Plotting.Subset` | image_to_points.py:134 | the rows selected for a colour are exactly the points of that colour, and there are no more of them than points |
| `Plotting.SubsetKeepsEveryCopy` | image_to_points.py:134 | every point of the colour occurs in the selection as often as in the table, and no other point occurs |
| `Plotting.SubsetOfAppend` | image_to_points.py:128-134 | selecting by colour distributes over concatenation, so the selection keeps table order |
| `Plotting.PlotSeries` | image_to_points.py:133-137 | each series has a palette colour, is not empty and holds exactly the points of its colour. There are at most as many series as colours |
| `Plotting.SeriesForColour` | image_to_points.py:133-137 | a colour gets a series exactly when it is in the palette and at least one point has it |
| `Plotting.PointPlacement` | image_to_points.py:133-137 | a stored point is plotted exactly when its colour is in the palette, and then only in the series of its own colour |
| `Plotting.SeriesInPaletteOrder` | image_to_points.py:133-137 | for a palette without repeated colours, the series come in palette order |
| `Plotting.PaletteSeriesFacts` | image_to_points.py:133-137 | for the program's palette: a colour has a series exactly when some point has it, the series follow palette order, and a point whose colour is not in the palette is in no series |
| `Plotting.ExportOf` | image_to_points.py:123-137 | nothing is exported exactly when the list is empty. Otherwise the rows are the stored points in order; a colour has a series exactly when it is in the palette and some point has it; each series holds exactly the points of its colour; the series follow Red, Green, Blue, Orange, Yellow; a point whose colour is not in the palette is in no series |
| `Collector.PointCollector.constructor` | image_to_points.py:12-17 | a new collector has rotation 0 and no points (`Initial()`) |
| `Collector.PointCollector.UpdateRotation` | image_to_points.py:87-88 | the rotation becomes the given angle, with no clamping or wrapping, and the points are unchanged |
| `Collector.PointCollector.OnClick` | image_to_points.py:94-114 | the rotation is unchanged, and the points become `AfterClick` of the old points for this click, rotation, colour and size |
| `Collector.PointCollector.ExportPoints` | image_to_points.py:123-137 | the loop over the palette builds exactly `ExportOf` of the points, so it exports nothing exactly when the list is empty and otherwise has every property stated for `ExportOf` |

## Left out

- Window, widgets, toolbar, table and event wiring (image_to_points.py:28-85): user interface, not logic. The selected colour and size are parameters of `OnClick`.
- Rendering: applying the affine transform to the image artist, `draw_idle`, the marker drawn for a new point and the table row (image_to_points.py:90-92, 116-121). These are library calls. The transform's data-space part is modelled as `Geometry.Forward`.
- Image loading and its extent (image_to_points.py:22-23, 35-36): file I/O.
- Writing the CSV and PNG files, axis limits, legend, title, the marker area `size*20`, the lower-cased colour name and the final message of `export_points` (image_to_points.py:128-129, 136-148). The model keeps only the empty-list guard, the rows and the grouping into series.
- The command-line entry point and the Tk main loop (image_to_points.py:150-158).
- Floating point: coordinates and angles are exact reals. `np.cos` and `np.sin` are supplied as functions with the three laws above. `Geometry.Round2` is `round(x_orig, 2)` on exact reals. `x_orig` is a numpy float64, so the call is numpy's rounding, rint(x·100)/100. On exact reals that is the nearest multiple of 1/100 with ties to even. The rounding of x·100 and of the quotient to doubles is not modelled. `Radians` is exact multiplication by 3.141592653589793/180.
- `IntVar.get` failing on non-numeric spinbox text is not modelled; the size is taken as an integer.
