/**
  The contract rows a box must satisfy, the objective of the search over exact reals, and what residuals, tolerances
  and rounded residuals mean for them.
 */
module BoxFeasibility {
  import opened Common

  /** One contract row: an operator over one reading of one frame. */
  datatype Row = Row(
    id: string, kind: string, op: string, lo: Option<real>, hi: Option<real>, value: Option<real>, tol: Option<real>,
    frame: int)

  /** The projector's record of a box at a frame: width, height, centre and image bounding box. */
  datatype Projection = Projection(width: Option<real>, height: Option<real>, centre: Option<(real, real)>,
                                   bbox: Option<(real, real, real, real)>)

  type Point = seq<real>

  const OFF_FRUSTUM_RESIDUAL := 1.0

  const FEASIBILITY_TOLERANCE := 0.001

  const METRIC_KINDS: set<string> :=
    {"bbox_width", "bbox_height", "bbox_center_x", "bbox_center_y", "bbox_top_y", "bbox_bottom_y"}

  datatype Window = Window(lo: Option<real>, hi: Option<real>)

  /** The accepted window of a row; `None` where the source raises. */
  function RowBounds(row: Row): Option<Window> {
    if row.op == "band" && row.lo.Some? && row.hi.Some? then Some(Window(row.lo, row.hi))
    else if row.op == "min" && row.lo.Some? then Some(Window(row.lo, None))
    else if row.op == "max" && row.hi.Some? then Some(Window(None, row.hi))
    else if row.op == "eq" && row.value.Some? then
      var tol := if row.tol.Some? then row.tol.value else 0.0;
      Some(Window(Some(row.value.value - tol), Some(row.value.value + tol)))
    else None
  }

  function ReadingValue(record: Option<Projection>, kind: string): Option<real> {
    match record
    case None => None
    case Some(p) =>
      if kind == "bbox_width" then p.width
      else if kind == "bbox_height" then p.height
      else if kind == "bbox_center_x" then (if p.centre.Some? then Some(p.centre.value.0) else None)
      else if kind == "bbox_center_y" then (if p.centre.Some? then Some(p.centre.value.1) else None)
      else if kind == "bbox_top_y" then (if p.bbox.Some? then Some(p.bbox.value.1) else None)
      else if p.bbox.Some? then Some(p.bbox.value.3)
      else None
  }

  function Max(a: real, b: real): real {
    if a >= b then a else b
  }

  function Min(a: real, b: real): real {
    if a <= b then a else b
  }

  function Residual(value: Option<real>, w: Window): real {
    if value.None? then OFF_FRUSTUM_RESIDUAL
    else
      var v := value.value;
      var below := if w.lo.Some? && v < w.lo.value then w.lo.value - v else 0.0;
      if w.hi.Some? && v > w.hi.value then Max(below, v - w.hi.value) else below
  }

  /** A zero residual is what the row's operator asks of its reading; every bounded row has one of the four. */
  lemma WindowMeaning(row: Row, v: real)
    requires RowBounds(row).Some?
    ensures row.op in {"band", "min", "max", "eq"}
    ensures Residual(Some(v), RowBounds(row).value) == 0.0 <==>
              && (row.op == "band" ==> row.lo.value <= v <= row.hi.value)
              && (row.op == "min" ==> row.lo.value <= v)
              && (row.op == "max" ==> v <= row.hi.value)
              && (row.op == "eq" ==>
                    var tol := if row.tol.Some? then row.tol.value else 0.0;
                    -tol <= v - row.value.value <= tol)
  {
  }

  /** A reading that exists and lies in its window widened by the tolerance. */
  predicate InWidenedWindow(value: Option<real>, w: Window, tolerance: real) {
    && value.Some?
    && (w.lo.Some? ==> value.value >= w.lo.value - tolerance)
    && (w.hi.Some? ==> value.value <= w.hi.value + tolerance)
  }

  // ---- a search problem ----------------------------------------------------------------------

  type Projector = (Point, int) -> Option<Projection>

  datatype Problem = Problem(rows: seq<Row>, project: Projector, lo: Point, hi: Point, evaluations: int,
                             tolerance: real, starts: seq<Point>)

  datatype Invalid = NoRows | UndecidableKind | UnboundedRow | BadBounds | EmptySize

  /** The first row that cannot be decided. */
  function RowsInvalid(rows: seq<Row>): Option<Invalid> {
    if rows == [] then None
    else if rows[0].kind !in METRIC_KINDS then Some(UndecidableKind)
    else if RowBounds(rows[0]).None? then Some(UnboundedRow)
    else RowsInvalid(rows[1..])
  }

  function Validation(p: Problem): Option<Invalid> {
    if p.rows == [] then Some(NoRows)
    else if RowsInvalid(p.rows).Some? then RowsInvalid(p.rows)
    else if |p.lo| != 6 || |p.hi| != 6 || exists k | 0 <= k < 6 :: p.hi[k] < p.lo[k] then Some(BadBounds)
    else if exists k | 3 <= k < 6 :: p.lo[k] <= 0.0 then Some(EmptySize)
    else None
  }

  function RowValue(p: Problem, row: Row, at: Point): Option<real> {
    ReadingValue(p.project(at, row.frame), row.kind)
  }

  function RowGap(p: Problem, row: Row, at: Point): real {
    if RowBounds(row).None? then 0.0 else Residual(RowValue(p, row, at), RowBounds(row).value)
  }

  /** The largest residual over the rows. */
  function Worst(p: Problem, rows: seq<Row>, at: Point): real {
    if rows == [] then 0.0 else Max(RowGap(p, rows[0], at), Worst(p, rows[1..], at))
  }

  function Objective(p: Problem, at: Point): real {
    Worst(p, p.rows, at)
  }

  ghost predicate Satisfies(p: Problem, at: Point) {
    forall row | row in p.rows ::
      RowBounds(row).Some? ==> InWidenedWindow(RowValue(p, row, at), RowBounds(row).value, p.tolerance)
  }

  // ---- what the objective means ------------------------------------------------------------------

  lemma ResidualMeaning(value: Option<real>, w: Window, tolerance: real)
    requires 0.0 <= tolerance < OFF_FRUSTUM_RESIDUAL
    ensures Residual(value, w) <= tolerance <==> InWidenedWindow(value, w, tolerance)
  {
  }

  lemma {:induction false} WorstBounds(p: Problem, rows: seq<Row>, at: Point, tolerance: real)
    ensures Worst(p, rows, at) >= 0.0
    ensures tolerance >= 0.0 ==>
              (Worst(p, rows, at) <= tolerance <==> forall row | row in rows :: RowGap(p, row, at) <= tolerance)
  {
    if rows != [] {
      WorstBounds(p, rows[1..], at, tolerance);
      assert rows == [rows[0]] + rows[1..];
    }
  }

  lemma ObjectiveMeaning(p: Problem, at: Point)
    requires 0.0 <= p.tolerance < OFF_FRUSTUM_RESIDUAL
    ensures Objective(p, at) <= p.tolerance <==> Satisfies(p, at)
  {
    WorstBounds(p, p.rows, at, p.tolerance);
    forall row | row in p.rows && RowBounds(row).Some?
      ensures RowGap(p, row, at) <= p.tolerance
              <==> InWidenedWindow(RowValue(p, row, at), RowBounds(row).value, p.tolerance)
    {
      ResidualMeaning(RowValue(p, row, at), RowBounds(row).value, p.tolerance);
    }
  }

  /** Exactly when the residual test means "present and in the widened window" for every reading and
      every window: a tolerance of one or more accepts a missing reading, a negative one rejects
      readings inside a wide window. */
  lemma ResidualTestIsExactIff(tolerance: real)
    ensures (forall value, w :: Residual(value, w) <= tolerance <==> InWidenedWindow(value, w, tolerance))
            <==> 0.0 <= tolerance < OFF_FRUSTUM_RESIDUAL
  {
    if 0.0 <= tolerance < OFF_FRUSTUM_RESIDUAL {
      forall value, w
        ensures Residual(value, w) <= tolerance <==> InWidenedWindow(value, w, tolerance)
      {
        ResidualMeaning(value, w, tolerance);
      }
    } else if tolerance >= OFF_FRUSTUM_RESIDUAL {
      assert Residual(None, Window(None, None)) <= tolerance;
      assert !InWidenedWindow(None, Window(None, None), tolerance);
    } else {
      assert InWidenedWindow(Some(0.0), Window(None, None), tolerance);
      assert Residual(Some(0.0), Window(None, None)) > tolerance;
    }
  }

  // ---- in image coordinates ------------------------------------------------------------------------

  /** What the projector sees of a box: the rectangle it covers in the image, its origin at the top left. */
  datatype Rectangle = Rectangle(x0: real, y0: real, x1: real, y1: real) {
    function Moved(dx0: real, dy0: real, dx1: real, dy1: real): Rectangle {
      Rectangle(x0 + dx0, y0 + dy0, x1 + dx1, y1 + dy1)
    }
  }

  /** The record of a rectangle, and none of a box outside the frustum. */
  function Recorded(image: Option<Rectangle>): Option<Projection> {
    match image
    case None => None
    case Some(r) =>
      Some(Projection(Some(r.x1 - r.x0), Some(r.y1 - r.y0), Some(((r.x0 + r.x1) / 2.0, (r.y0 + r.y1) / 2.0)),
                      Some((r.x0, r.y0, r.x1, r.y1))))
  }

  function ReadOff(r: Rectangle, kind: string): (v: real)
    ensures ReadingValue(Recorded(Some(r)), kind) == Some(v)
  {
    ReadingValue(Recorded(Some(r)), kind).value
  }

  lemma KindsDiffer()
    ensures |"bbox_width"| == 10 && |"bbox_height"| == 11 && |"bbox_center_x"| == |"bbox_center_y"| == 13
    ensures |"bbox_top_y"| == 10 && |"bbox_bottom_y"| == 13 && "bbox_center_x"[12] != "bbox_center_y"[12]
    ensures "bbox_width"[5] != "bbox_top_y"[5] && "bbox_center_x"[5] != "bbox_bottom_y"[5]
  {
  }

  /** How the readings of one rectangle hang together: the vertical centre is half way between top and bottom, which
      are the height apart. */
  lemma ReadingsAgree(r: Rectangle)
    ensures ReadOff(r, "bbox_top_y") + ReadOff(r, "bbox_bottom_y") == 2.0 * ReadOff(r, "bbox_center_y")
    ensures ReadOff(r, "bbox_bottom_y") - ReadOff(r, "bbox_top_y") == ReadOff(r, "bbox_height")
    ensures r.y0 <= r.y1 ==> ReadOff(r, "bbox_top_y") <= ReadOff(r, "bbox_center_y") <= ReadOff(r, "bbox_bottom_y")
    ensures r.x0 <= r.x1 <==> 0.0 <= ReadOff(r, "bbox_width")
  {
    KindsDiffer();
  }

  /** Moving the edges of a rectangle moves its readings: a shift moves the centre with it and keeps the extents,
      pulling the right or bottom edge widens or heightens by as much and moves the centre by half of it. */
  lemma ReadingsMove(r: Rectangle, dx: real, dy: real, wider: real, taller: real)
    ensures var s := r.Moved(dx, dy, dx + wider, dy + taller);
            && ReadOff(s, "bbox_width") == ReadOff(r, "bbox_width") + wider
            && ReadOff(s, "bbox_height") == ReadOff(r, "bbox_height") + taller
            && ReadOff(s, "bbox_center_x") == ReadOff(r, "bbox_center_x") + dx + wider / 2.0
            && ReadOff(s, "bbox_center_y") == ReadOff(r, "bbox_center_y") + dy + taller / 2.0
            && ReadOff(s, "bbox_top_y") == ReadOff(r, "bbox_top_y") + dy
            && ReadOff(s, "bbox_bottom_y") == ReadOff(r, "bbox_bottom_y") + dy + taller
  {
    KindsDiffer();
  }

  /** What a row asks of a number, up to a tolerance. */
  predicate Asks(row: Row, v: real, tolerance: real) {
    var slack := (if row.tol.Some? then row.tol.value else 0.0) + tolerance;
    || (row.op == "band" && row.lo.Some? && row.hi.Some?
        && row.lo.value <= v + tolerance && v - tolerance <= row.hi.value)
    || (row.op == "min" && row.lo.Some? && row.lo.value <= v + tolerance)
    || (row.op == "max" && row.hi.Some? && v - tolerance <= row.hi.value)
    || (row.op == "eq" && row.value.Some? && -slack <= v - row.value.value <= slack)
  }

  /** The row's operator comes with the numbers it needs. */
  predicate Decidable(row: Row) {
    && (row.op == "band" || row.op == "min" || row.op == "max" || row.op == "eq")
    && (row.op == "band" || row.op == "min" ==> row.lo.Some?)
    && (row.op == "band" || row.op == "max" ==> row.hi.Some?)
    && (row.op == "eq" ==> row.value.Some?)
  }

  lemma OperatorsDiffer()
    ensures |"band"| == 4 && |"min"| == |"max"| == 3 && |"eq"| == 2 && "min"[1] != "max"[1]
  {
  }

  lemma BoundedIff(row: Row)
    ensures RowBounds(row).Some? <==> Decidable(row)
  {
    OperatorsDiffer();
  }

  lemma {:induction false} RowsValidIff(rows: seq<Row>)
    ensures RowsInvalid(rows).None? <==> forall row | row in rows :: row.kind in METRIC_KINDS && Decidable(row)
  {
    if rows != [] {
      BoundedIff(rows[0]);
      RowsValidIff(rows[1..]);
      assert rows == [rows[0]] + rows[1..];
    }
  }

  /** A problem the search accepts: rows it can decide, over a box of positive sizes. */
  ghost predicate WellPosed(p: Problem) {
    && p.rows != [] && (forall row | row in p.rows :: row.kind in METRIC_KINDS && Decidable(row))
    && |p.lo| == |p.hi| == 6 && (forall k | 0 <= k < 6 :: p.lo[k] <= p.hi[k])
    && forall k | 3 <= k < 6 :: 0.0 < p.lo[k]
  }

  lemma ValidIff(p: Problem)
    ensures Validation(p).None? <==> WellPosed(p)
  {
    RowsValidIff(p.rows);
  }

  /** The row holds of the rectangle: its number, read off the image, is what the row asks for. */
  predicate Fits(row: Row, r: Rectangle, tolerance: real) {
    && (row.kind == "bbox_width" ==> Asks(row, r.x1 - r.x0, tolerance))
    && (row.kind == "bbox_height" ==> Asks(row, r.y1 - r.y0, tolerance))
    && (row.kind == "bbox_center_x" ==> Asks(row, (r.x0 + r.x1) / 2.0, tolerance))
    && (row.kind == "bbox_center_y" ==> Asks(row, (r.y0 + r.y1) / 2.0, tolerance))
    && (row.kind == "bbox_top_y" ==> Asks(row, r.y0, tolerance))
    && (row.kind == "bbox_bottom_y" ==> Asks(row, r.y1, tolerance))
  }

  lemma WindowAsks(row: Row, v: real, tolerance: real)
    requires RowBounds(row).Some? && tolerance >= 0.0
    ensures InWidenedWindow(Some(v), RowBounds(row).value, tolerance) <==> Asks(row, v, tolerance)
  {
    OperatorsDiffer();
  }

  lemma RowFitsIff(row: Row, image: Option<Rectangle>, tolerance: real)
    requires RowBounds(row).Some? && row.kind in METRIC_KINDS && tolerance >= 0.0
    ensures InWidenedWindow(ReadingValue(Recorded(image), row.kind), RowBounds(row).value, tolerance)
            <==> image.Some? && Fits(row, image.value, tolerance)
  {
    KindsDiffer();
    if image.Some? { WindowAsks(row, ReadOff(image.value, row.kind), tolerance); }
  }

  type Camera = (Point, int) -> Option<Rectangle>

  /** The projector records what the camera sees. */
  ghost predicate Projects(p: Problem, camera: Camera) {
    forall at, frame :: p.project(at, frame) == Recorded(camera(at, frame))
  }

  /** The box is in view at the frame of every row, where its rectangle fits the row. */
  ghost predicate FitsAll(p: Problem, camera: Camera, at: Point) {
    forall row | row in p.rows ::
      camera(at, row.frame).Some? && Fits(row, camera(at, row.frame).value, p.tolerance)
  }

  /** The rows are satisfied exactly when the box fits them in the image. */
  lemma SatisfiesIff(p: Problem, camera: Camera, at: Point)
    requires WellPosed(p) && Projects(p, camera) && p.tolerance >= 0.0
    ensures Satisfies(p, at) <==> FitsAll(p, camera, at)
  {
    forall row | row in p.rows
      ensures RowBounds(row).Some?
      ensures InWidenedWindow(RowValue(p, row, at), RowBounds(row).value, p.tolerance)
              <==> camera(at, row.frame).Some? && Fits(row, camera(at, row.frame).value, p.tolerance)
    {
      BoundedIff(row);
      RowFitsIff(row, camera(at, row.frame), p.tolerance);
    }
  }

  // ---- rounding ------------------------------------------------------------------------------------

  /** To four decimals, halves to the even neighbour. */
  function Round4(x: real): real {
    RoundedUnits(x * 10000.0) as real * 0.0001
  }

  function RoundedUnits(y: real): int {
    var below := y.Floor;
    var rest := y - below as real;
    if rest < 0.5 || (rest == 0.5 && below % 2 == 0) then below else below + 1
  }

  /** Rounded residuals stay within a tolerance of `k` units exactly up to half a unit more. */
  lemma RoundedUnitsWithin(y: real, k: int)
    ensures RoundedUnits(y) <= k <==> y < k as real + 0.5 || (y == k as real + 0.5 && k % 2 == 0)
  {
    var below := y.Floor;
    assert below as real <= y < below as real + 1.0;
    if below < k {
      assert below + 1 <= k;
      assert y < k as real;
    } else if below > k {
      assert y >= k as real + 1.0;
    }
  }

  lemma RoundedUnitsMonotone(x: real, y: real)
    requires x <= y
    ensures RoundedUnits(x) <= RoundedUnits(y)
  {
    RoundedUnitsWithin(y, RoundedUnits(y));
    RoundedUnitsWithin(x, RoundedUnits(y));
  }

  lemma RoundMonotone(x: real, y: real)
    requires x <= y
    ensures Round4(x) <= Round4(y)
  {
    RoundedUnitsMonotone(x * 10000.0, y * 10000.0);
  }

  /** The rows whose rounded residual exceeds the tolerance. */
  function Binding(p: Problem, rows: seq<Row>, at: Point): seq<Row> {
    if rows == [] then []
    else (if Round4(RowGap(p, rows[0], at)) > p.tolerance then [rows[0]] else []) + Binding(p, rows[1..], at)
  }

  lemma {:induction false} BindingRows(p: Problem, rows: seq<Row>, at: Point)
    ensures forall row :: row in Binding(p, rows, at) <==> row in rows && Round4(RowGap(p, row, at)) > p.tolerance
  {
    if rows != [] {
      BindingRows(p, rows[1..], at);
      assert rows == [rows[0]] + rows[1..];
    }
  }

  lemma {:induction false} WorstRow(p: Problem, rows: seq<Row>, at: Point) returns (row: Row)
    requires rows != []
    ensures row in rows && RowGap(p, row, at) == Worst(p, rows, at)
    ensures forall other | other in rows :: RowGap(p, other, at) <= Worst(p, rows, at)
  {
    assert rows == [rows[0]] + rows[1..];
    if |rows| == 1 {
      row := rows[0];
    } else {
      var rest := WorstRow(p, rows[1..], at);
      row := if RowGap(p, rows[0], at) >= Worst(p, rows[1..], at) then rows[0] else rest;
    }
  }

  /** No row is binding exactly when the rounded objective is within the tolerance. */
  lemma NothingBindsIff(p: Problem, at: Point)
    requires p.rows != []
    ensures Binding(p, p.rows, at) == [] <==> Round4(Objective(p, at)) <= p.tolerance
  {
    BindingRows(p, p.rows, at);
    var row := WorstRow(p, p.rows, at);
    forall other | other in p.rows
      ensures Round4(RowGap(p, other, at)) <= Round4(Objective(p, at))
    {
      RoundMonotone(RowGap(p, other, at), Objective(p, at));
    }
    var binding := Binding(p, p.rows, at);
    if binding != [] {
      var first := binding[0];
      assert first in binding;
    }
  }

  /** For a tolerance of whole units: an infeasible answer binds no row exactly in the half unit above the tolerance. */
  lemma BindingAgreesIff(p: Problem, at: Point, units: int)
    requires p.rows != [] && p.tolerance == units as real * 0.0001
    ensures var worst := Objective(p, at);
            (worst <= p.tolerance <==> Binding(p, p.rows, at) == [])
            <==> !(p.tolerance < worst
                   && (worst < p.tolerance + 0.00005 || (worst == p.tolerance + 0.00005 && units % 2 == 0)))
  {
    var worst := Objective(p, at);
    NothingBindsIff(p, at);
    RoundedUnitsWithin(worst * 10000.0, units);
    assert Round4(worst) <= p.tolerance <==> RoundedUnits(worst * 10000.0) <= units;
  }

  /** At the default tolerance a worst residual of 0.00104 is infeasible and binds no row. */
  lemma RoundingHidesBindingRow(p: Problem, at: Point)
    requires p.rows != [] && p.tolerance == FEASIBILITY_TOLERANCE && Objective(p, at) == 0.00104
    ensures !(Objective(p, at) <= p.tolerance) && Binding(p, p.rows, at) == []
  {
    BindingAgreesIff(p, at, 10);
  }

  /** Such a problem: one row whose reading is 0.00104 too wide everywhere. */
  lemma HiddenBindingRowExists(lo: Point, hi: Point, at: Point)
    ensures var row := Row("width", "bbox_width", "max", None, Some(0.5), None, None, 1);
            var wide: Option<Projection> := Some(Projection(Some(0.50104), None, None, None));
            var p := Problem([row], (at: Point, frame: int) => wide, lo, hi, 1, FEASIBILITY_TOLERANCE, []);
            !(Objective(p, at) <= p.tolerance) && Binding(p, p.rows, at) == []
  {
    var row := Row("width", "bbox_width", "max", None, Some(0.5), None, None, 1);
    var wide: Option<Projection> := Some(Projection(Some(0.50104), None, None, None));
    var p := Problem([row], (at: Point, frame: int) => wide, lo, hi, 1, FEASIBILITY_TOLERANCE, []);
    assert |"max"| != |"band"| && "max"[1] != "min"[1];
    assert RowBounds(row) == Some(Window(None, Some(0.5)));
    assert RowGap(p, row, at) == 0.00104;
    assert p.rows == [row] && p.rows[1..] == [];
    assert Worst(p, p.rows[1..], at) == 0.0;
    RoundingHidesBindingRow(p, at);
  }
}
