/**
 * The model-usage heatmap (app.js:276-303).
 *
 * The catalogue `ORDERED_MODELS` lists each manufacturer's models in the
 * order their rows are drawn. A model gets a row when some year on the axis
 * has a positive count for it; the heatmap then holds one point per row and
 * year with a positive count, coloured by the model's manufacturer.
 */
module ModelUsage {
  import opened Wrappers
  import opened Brands
  import opened Records
  import opened Blocks

  /** One manufacturer and its models, in row order. */
  datatype MakeModels = MakeModels(make: string, models: seq<string>)

  /** `ORDERED_MODELS`, in the order of its entries. */
  const OrderedModels: seq<MakeModels> := [
    MakeModels("Holden", ["VL", "VP", "VR", "VS", "VT", "VX", "VY", "VZ", "VE", "VF", "ZB"]),
    MakeModels("Chevrolet", ["Mk6", "ZL1"]),
    MakeModels("Ford", ["EB", "EF", "EL", "AU", "BA", "BF", "FG", "FG X", "GT", "S550", "S650"]),
    MakeModels("Nissan", ["L33"]),
    MakeModels("Mercedes", ["E63"]),
    MakeModels("Volvo", ["S60"])
  ]

  /** A heatmap row: a model and its manufacturer (`{ make, model }`). */
  datatype ModelRow = ModelRow(make: string, model: string)

  /** `byYear[y] ? (byYear[y][model] || 0) : 0`: a model's count in a year. */
  function ModelCount(byYear: map<string, Record>, y: string, model: string): int {
    CountField(Lookup(byYear, y), model)
  }

  /** `years.some(...)` over the first `n` years: whether some year has a positive count for the model. */
  function UsedIn(years: seq<string>, byYear: map<string, Record>, model: string, n: nat): (used: bool)
    requires n <= |years|
    ensures used <==> exists i :: 0 <= i < n && ModelCount(byYear, years[i], model) > 0
  {
    n > 0 && (UsedIn(years, byYear, model, n - 1) || ModelCount(byYear, years[n - 1], model) > 0)
  }

  /** The number of the first `n` years with a positive count for the model. */
  function YearsUsing(years: seq<string>, byYear: map<string, Record>, model: string, n: nat): nat
    requires n <= |years|
  {
    if n == 0 then 0
    else YearsUsing(years, byYear, model, n - 1) + (if ModelCount(byYear, years[n - 1], model) > 0 then 1 else 0)
  }

  /** A model is used exactly when some year counts it: `YearsUsing` agrees with `UsedIn`. */
  lemma {:induction false} YearsUsingPositive(years: seq<string>, byYear: map<string, Record>, model: string, n: nat)
    requires n <= |years|
    ensures YearsUsing(years, byYear, model, n) > 0 <==> UsedIn(years, byYear, model, n)
    ensures YearsUsing(years, byYear, model, n) <= n
  {
    if n > 0 {
      YearsUsingPositive(years, byYear, model, n - 1);
    }
  }

  // ------------------------------------------------------------ presentModels

  /** One manufacturer's rows, in the order of its models. */
  function Rows(make: string, models: seq<string>): seq<ModelRow> {
    seq(|models|, j requires 0 <= j < |models| => ModelRow(make, models[j]))
  }

  /** Every row of a catalogue, manufacturer by manufacturer. */
  function Flatten(catalogue: seq<MakeModels>): seq<ModelRow> {
    if catalogue == [] then []
    else
      var last := catalogue[|catalogue| - 1];
      Flatten(catalogue[..|catalogue| - 1]) + Rows(last.make, last.models)
  }

  /** The rows of a catalogue are exactly its (manufacturer, model) pairs. */
  lemma {:induction false} FlattenMembers(catalogue: seq<MakeModels>)
    ensures forall r :: r in Flatten(catalogue) <==>
      exists b, j :: 0 <= b < |catalogue| && 0 <= j < |catalogue[b].models|
        && r == ModelRow(catalogue[b].make, catalogue[b].models[j])
  {
    if catalogue != [] {
      var front := catalogue[..|catalogue| - 1];
      var last := catalogue[|catalogue| - 1];
      FlattenMembers(front);
      var rows := Rows(last.make, last.models);
      assert Flatten(catalogue) == Flatten(front) + rows;
      forall r
        ensures r in Flatten(catalogue) <==>
          exists b, j :: 0 <= b < |catalogue| && 0 <= j < |catalogue[b].models|
            && r == ModelRow(catalogue[b].make, catalogue[b].models[j])
      {
        if r in Flatten(front) {
          var b, j :| 0 <= b < |front| && 0 <= j < |front[b].models| && r == ModelRow(front[b].make, front[b].models[j]);
          assert catalogue[b] == front[b];
        } else if r in rows {
          var j :| 0 <= j < |rows| && rows[j] == r;
          assert r == ModelRow(catalogue[|catalogue| - 1].make, catalogue[|catalogue| - 1].models[j]);
        } else {
          forall b, j | 0 <= b < |catalogue| && 0 <= j < |catalogue[b].models|
            ensures r != ModelRow(catalogue[b].make, catalogue[b].models[j])
          {
            if b < |front| {
              assert catalogue[b] == front[b];
            } else {
              assert rows[j] == ModelRow(catalogue[b].make, catalogue[b].models[j]);
            }
          }
        }
      }
    }
  }

  /** The rows that some year uses, in their catalogue order. */
  function UsedRows(years: seq<string>, byYear: map<string, Record>, rows: seq<ModelRow>): seq<ModelRow> {
    if rows == [] then []
    else
      var last := rows[|rows| - 1];
      UsedRows(years, byYear, rows[..|rows| - 1]) + (if UsedIn(years, byYear, last.model, |years|) then [last] else [])
  }

  /** The positions in `rows` of the rows that some year uses, in increasing order. */
  function UsedIndices(years: seq<string>, byYear: map<string, Record>, rows: seq<ModelRow>): seq<nat> {
    if rows == [] then []
    else
      var last := rows[|rows| - 1];
      UsedIndices(years, byYear, rows[..|rows| - 1]) + (if UsedIn(years, byYear, last.model, |years|) then [|rows| - 1] else [])
  }

  /** Filtering one more row keeps it exactly when it is used. */
  lemma UsedRowsSnoc(years: seq<string>, byYear: map<string, Record>, rows: seq<ModelRow>, r: ModelRow)
    ensures UsedRows(years, byYear, rows + [r])
      == UsedRows(years, byYear, rows) + (if UsedIn(years, byYear, r.model, |years|) then [r] else [])
  {
    assert (rows + [r])[..|rows|] == rows;
  }

  /**
   * The used rows are the rows at the used positions, in order, and a
   * position is among them exactly when its row's model is used in some year:
   * `presentModels` keeps the catalogue order and drops exactly the unused
   * models.
   */
  lemma {:induction false} UsedRowsSelect(years: seq<string>, byYear: map<string, Record>, rows: seq<ModelRow>)
    ensures |UsedIndices(years, byYear, rows)| == |UsedRows(years, byYear, rows)|
    ensures forall i :: 0 <= i < |UsedIndices(years, byYear, rows)| ==>
      && UsedIndices(years, byYear, rows)[i] < |rows|
      && UsedRows(years, byYear, rows)[i] == rows[UsedIndices(years, byYear, rows)[i]]
    ensures forall i, j :: 0 <= i < j < |UsedIndices(years, byYear, rows)| ==>
      UsedIndices(years, byYear, rows)[i] < UsedIndices(years, byYear, rows)[j]
    ensures forall k :: 0 <= k < |rows| ==>
      (k in UsedIndices(years, byYear, rows) <==> UsedIn(years, byYear, rows[k].model, |years|))
  {
    if rows != [] {
      var front := rows[..|rows| - 1];
      var last := rows[|rows| - 1];
      UsedRowsSelect(years, byYear, front);
      var idx := UsedIndices(years, byYear, rows);
      var out := UsedRows(years, byYear, rows);
      var idx0 := UsedIndices(years, byYear, front);
      var out0 := UsedRows(years, byYear, front);
      var used := UsedIn(years, byYear, last.model, |years|);
      assert idx == idx0 + (if used then [|rows| - 1] else []);
      assert out == out0 + (if used then [last] else []);
      forall i | 0 <= i < |idx|
        ensures idx[i] < |rows| && out[i] == rows[idx[i]]
      {
        if i < |idx0| {
          assert idx[i] == idx0[i] && out[i] == out0[i] && front[idx0[i]] == rows[idx0[i]];
        }
      }
      forall k | 0 <= k < |rows|
        ensures k in idx <==> UsedIn(years, byYear, rows[k].model, |years|)
      {
        if k < |front| {
          assert front[k] == rows[k];
          assert k in idx <==> k in idx0;
        }
      }
    }
  }

  /** A row is present exactly when it is a row of the catalogue that some year uses. */
  lemma {:induction false} UsedRowsMembers(years: seq<string>, byYear: map<string, Record>, rows: seq<ModelRow>)
    ensures forall r :: r in UsedRows(years, byYear, rows) <==> r in rows && UsedIn(years, byYear, r.model, |years|)
  {
    if rows != [] {
      var front := rows[..|rows| - 1];
      UsedRowsMembers(years, byYear, front);
      assert rows == front + [rows[|rows| - 1]];
    }
  }

  /** Going on to a manufacturer's next model: the filter keeps that row exactly when it is used. */
  lemma UsedRowsStep(years: seq<string>, byYear: map<string, Record>, done: seq<ModelRow>, make: string, list: seq<string>, j: nat)
    requires j < |list|
    ensures UsedRows(years, byYear, done + Rows(make, list[..j + 1]))
      == UsedRows(years, byYear, done + Rows(make, list[..j]))
         + (if UsedIn(years, byYear, list[j], |years|) then [ModelRow(make, list[j])] else [])
  {
    assert Rows(make, list[..j + 1]) == Rows(make, list[..j]) + [ModelRow(make, list[j])];
    assert done + Rows(make, list[..j + 1]) == (done + Rows(make, list[..j])) + [ModelRow(make, list[j])];
    UsedRowsSnoc(years, byYear, done + Rows(make, list[..j]), ModelRow(make, list[j]));
  }

  /** Going on to the next manufacturer: its rows follow the earlier ones. */
  lemma FlattenStep(catalogue: seq<MakeModels>, b: nat)
    requires b < |catalogue|
    ensures Flatten(catalogue[..b + 1]) == Flatten(catalogue[..b]) + Rows(catalogue[b].make, catalogue[b].models[..|catalogue[b].models|])
    ensures Flatten(catalogue[..b]) + Rows(catalogue[b].make, catalogue[b].models[..0]) == Flatten(catalogue[..b])
  {
    assert catalogue[b].models[..|catalogue[b].models|] == catalogue[b].models;
    assert catalogue[..b + 1][..b] == catalogue[..b];
  }

  /**
   * `presentModels`: the rows of `catalogue` that some year on the axis uses,
   * in catalogue order. The page passes `OrderedModels`.
   */
  method PresentModels(catalogue: seq<MakeModels>, years: seq<string>, byYear: map<string, Record>) returns (present: seq<ModelRow>)
    ensures present == UsedRows(years, byYear, Flatten(catalogue))
  {
    present := [];
    for b := 0 to |catalogue|
      invariant present == UsedRows(years, byYear, Flatten(catalogue[..b]))
    {
      var make := catalogue[b].make;
      var list := catalogue[b].models;
      ghost var done := Flatten(catalogue[..b]);
      FlattenStep(catalogue, b);
      for j := 0 to |list|
        invariant present == UsedRows(years, byYear, done + Rows(make, list[..j]))
      {
        var model := list[j];
        var used := UsedIn(years, byYear, model, |years|);
        UsedRowsStep(years, byYear, done, make, list, j);
        if used {
          present := present + [ModelRow(make, model)];
        }
      }
    }
    assert catalogue[..|catalogue|] == catalogue;
  }

  /**
   * The rows of `presentModels` are exactly the catalogue's (manufacturer,
   * model) pairs whose model has a positive count in some year.
   */
  lemma PresentModelsExact(years: seq<string>, byYear: map<string, Record>)
    ensures forall r :: r in UsedRows(years, byYear, Flatten(OrderedModels)) <==>
      && (exists b, j :: 0 <= b < |OrderedModels| && 0 <= j < |OrderedModels[b].models|
            && r == ModelRow(OrderedModels[b].make, OrderedModels[b].models[j]))
      && (exists i :: 0 <= i < |years| && ModelCount(byYear, years[i], r.model) > 0)
  {
    FlattenMembers(OrderedModels);
    UsedRowsMembers(years, byYear, Flatten(OrderedModels));
  }

  // ----------------------------------------------------------- heatmapPoints

  /** One heatmap point: its grid position, value, colour and the `custom` facts. */
  datatype Point = Point(
    x: nat, y: nat, value: int, color: Option<string>,
    make: string, model: string, year: string, count: int)

  /** A point's row, the model it counts. */
  function PointRow(p: Point): nat {
    p.y
  }

  /** A point's year position. */
  function PointColumn(p: Point): int {
    p.x
  }

  /** The point of row `row` (model `m`) at year position `x`, when the count there is positive. */
  function PointAt(row: nat, m: ModelRow, x: nat, year: string, byYear: map<string, Record>): Option<Point> {
    var count := ModelCount(byYear, year, m.model);
    if count > 0 then Some(Point(x, row, count, ColourOf(m.make), m.make, m.model, year, count)) else None
  }

  /** The points of one row over the first `k` years. */
  function RowPoints(row: nat, m: ModelRow, years: seq<string>, byYear: map<string, Record>, k: nat): seq<Point>
    requires k <= |years|
  {
    if k == 0 then [] else RowPoints(row, m, years, byYear, k - 1) + PointAt(row, m, k - 1, years[k - 1], byYear).ToSeq()
  }

  /** One more year adds that year's point exactly when its count is positive. */
  lemma RowPointsNext(row: nat, m: ModelRow, years: seq<string>, byYear: map<string, Record>, x: nat)
    requires x < |years|
    ensures ModelCount(byYear, years[x], m.model) > 0 ==>
      RowPoints(row, m, years, byYear, x + 1) == RowPoints(row, m, years, byYear, x)
        + [Point(x, row, ModelCount(byYear, years[x], m.model), ColourOf(m.make), m.make, m.model, years[x], ModelCount(byYear, years[x], m.model))]
    ensures ModelCount(byYear, years[x], m.model) <= 0 ==>
      RowPoints(row, m, years, byYear, x + 1) == RowPoints(row, m, years, byYear, x)
  {
  }

  /** The points of each row, block `r` holding row `r`'s points in year order. */
  function RowBlocks(years: seq<string>, byYear: map<string, Record>, present: seq<ModelRow>): (blocks: seq<seq<Point>>)
    ensures |blocks| == |present|
  {
    seq(|present|, r requires 0 <= r < |present| => RowPoints(r, present[r], years, byYear, |years|))
  }

  /** `heatmapPoints`. */
  function ModelPoints(years: seq<string>, byYear: map<string, Record>, present: seq<ModelRow>): seq<Point> {
    Concat(RowBlocks(years, byYear, present), |present|)
  }

  /** Builds `heatmapPoints`: for each row in order, for each year in axis order, one point per positive count. */
  method HeatmapPoints(years: seq<string>, byYear: map<string, Record>, present: seq<ModelRow>) returns (points: seq<Point>)
    ensures points == ModelPoints(years, byYear, present)
  {
    ghost var blocks := RowBlocks(years, byYear, present);
    points := [];
    for r := 0 to |present|
      invariant points == Concat(blocks, r)
    {
      var m := present[r];
      ghost var front := points;
      for x := 0 to |years|
        invariant points == front + RowPoints(r, m, years, byYear, x)
      {
        var y := years[x];
        var count := ModelCount(byYear, y, m.model);
        RowPointsNext(r, m, years, byYear, x);
        if count > 0 {
          points := points + [Point(x, r, count, ColourOf(m.make), m.make, m.model, y, count)];
        }
      }
      assert Concat(blocks, r + 1) == front + RowPoints(r, m, years, byYear, |years|);
    }
  }

  /**
   * A point as the source draws it: in the row of a present model and the
   * column of a year that has a record, its value the model's positive count
   * that year, its colour its manufacturer's.
   */
  ghost predicate WellFormed(p: Point, years: seq<string>, byYear: map<string, Record>, present: seq<ModelRow>) {
    && p.y < |present|
    && p.x < |years|
    && years[p.x] in byYear
    && p.make == present[p.y].make
    && p.model == present[p.y].model
    && p.year == years[p.x]
    && p.count == ModelCount(byYear, years[p.x], p.model)
    && p.count > 0
    && p.value == p.count
    && p.color == ColourOf(p.make)
  }

  /** Points are ordered by row, then by year position. */
  predicate PointBefore(a: Point, b: Point) {
    a.y < b.y || (a.y == b.y && a.x < b.x)
  }

  /** The points of one row lie in that row, one per year with a positive count, in year order. */
  lemma {:induction false} RowPointsShape(row: nat, m: ModelRow, years: seq<string>, byYear: map<string, Record>, k: nat)
    requires k <= |years|
    ensures |RowPoints(row, m, years, byYear, k)| == YearsUsing(years, byYear, m.model, k)
    ensures forall i :: 0 <= i < |RowPoints(row, m, years, byYear, k)| ==>
      && RowPoints(row, m, years, byYear, k)[i].y == row
      && RowPoints(row, m, years, byYear, k)[i].x < k
      && RowPoints(row, m, years, byYear, k)[i].make == m.make
      && RowPoints(row, m, years, byYear, k)[i].model == m.model
      && RowPoints(row, m, years, byYear, k)[i].year == years[RowPoints(row, m, years, byYear, k)[i].x]
      && RowPoints(row, m, years, byYear, k)[i].count == ModelCount(byYear, years[RowPoints(row, m, years, byYear, k)[i].x], m.model)
      && RowPoints(row, m, years, byYear, k)[i].count > 0
      && RowPoints(row, m, years, byYear, k)[i].value == RowPoints(row, m, years, byYear, k)[i].count
      && RowPoints(row, m, years, byYear, k)[i].color == ColourOf(m.make)
    ensures forall i, j :: 0 <= i < j < |RowPoints(row, m, years, byYear, k)| ==>
      RowPoints(row, m, years, byYear, k)[i].x < RowPoints(row, m, years, byYear, k)[j].x
  {
    if k > 0 {
      RowPointsShape(row, m, years, byYear, k - 1);
      var front := RowPoints(row, m, years, byYear, k - 1);
      var ps := RowPoints(row, m, years, byYear, k);
      var last := PointAt(row, m, k - 1, years[k - 1], byYear).ToSeq();
      assert ps == front + last;
      forall i | 0 <= i < |front|
        ensures ps[i] == front[i]
      {
      }
    }
  }

  /** Within one row, every year position below `k` with a positive count has its point. */
  lemma {:induction false} RowPointComplete(row: nat, m: ModelRow, years: seq<string>, byYear: map<string, Record>, x: nat, k: nat)
    requires x < k <= |years| && ModelCount(byYear, years[x], m.model) > 0
    ensures exists i :: 0 <= i < |RowPoints(row, m, years, byYear, k)| && RowPoints(row, m, years, byYear, k)[i].x == x
  {
    var ps := RowPoints(row, m, years, byYear, k);
    var front := RowPoints(row, m, years, byYear, k - 1);
    var last := PointAt(row, m, k - 1, years[k - 1], byYear).ToSeq();
    assert ps == front + last;
    if x < k - 1 {
      RowPointComplete(row, m, years, byYear, x, k - 1);
      var i :| 0 <= i < |front| && front[i].x == x;
      assert ps[i] == front[i];
    } else {
      assert ps[|front|] == last[0];
    }
  }

  /** The row blocks are columned by row, go along the years, and hold well-formed points. */
  lemma RowBlocksShape(years: seq<string>, byYear: map<string, Record>, present: seq<ModelRow>)
    ensures Columned(RowBlocks(years, byYear, present), PointRow)
    ensures Increasing(RowBlocks(years, byYear, present), PointColumn)
    ensures forall r, i :: 0 <= r < |present| && 0 <= i < |RowBlocks(years, byYear, present)[r]| ==>
      WellFormed(RowBlocks(years, byYear, present)[r][i], years, byYear, present)
    ensures forall r :: 0 <= r < |present| ==>
      |RowBlocks(years, byYear, present)[r]| == YearsUsing(years, byYear, present[r].model, |years|)
  {
    var blocks: seq<seq<Point>> := RowBlocks(years, byYear, present);
    forall r: nat | r < |present|
      ensures forall i :: 0 <= i < |blocks[r]| ==> blocks[r][i].y == r && WellFormed(blocks[r][i], years, byYear, present)
      ensures forall i, j :: 0 <= i < j < |blocks[r]| ==> blocks[r][i].x < blocks[r][j].x
      ensures |blocks[r]| == YearsUsing(years, byYear, present[r].model, |years|)
    {
      RowPointsShape(r, present[r], years, byYear, |years|);
    }
  }

  /** Every point of `heatmapPoints` is well formed: a year without a record, or a zero count, gets no point. */
  lemma ModelPointsSound(years: seq<string>, byYear: map<string, Record>, present: seq<ModelRow>)
    ensures forall i :: 0 <= i < |ModelPoints(years, byYear, present)| ==>
      WellFormed(ModelPoints(years, byYear, present)[i], years, byYear, present)
  {
    var blocks: seq<seq<Point>> := RowBlocks(years, byYear, present);
    RowBlocksShape(years, byYear, present);
    ConcatFrom(blocks, |present|, PointRow);
    var points := ModelPoints(years, byYear, present);
    forall i | 0 <= i < |points|
      ensures WellFormed(points[i], years, byYear, present)
    {
      var p := points[i];
      var j: nat :| j < |blocks[p.y]| && blocks[p.y][j] == p;
    }
  }

  /** `heatmapPoints` is ordered by row, then by year; so no (row, year) pair has two points. */
  lemma ModelPointsOrdered(years: seq<string>, byYear: map<string, Record>, present: seq<ModelRow>)
    ensures forall i, j :: 0 <= i < j < |ModelPoints(years, byYear, present)| ==>
      PointBefore(ModelPoints(years, byYear, present)[i], ModelPoints(years, byYear, present)[j])
  {
    RowBlocksShape(years, byYear, present);
    ConcatOrdered(RowBlocks(years, byYear, present), |present|, PointRow, PointColumn);
  }

  /** Every present row and year with a positive count has its point. */
  lemma ModelPointsComplete(years: seq<string>, byYear: map<string, Record>, present: seq<ModelRow>, r: nat, x: nat)
    requires r < |present| && x < |years|
    requires ModelCount(byYear, years[x], present[r].model) > 0
    ensures exists i ::
      && 0 <= i < |ModelPoints(years, byYear, present)|
      && ModelPoints(years, byYear, present)[i].y == r
      && ModelPoints(years, byYear, present)[i].x == x
  {
    var blocks: seq<seq<Point>> := RowBlocks(years, byYear, present);
    RowPointComplete(r, present[r], years, byYear, x, |years|);
    RowPointsShape(r, present[r], years, byYear, |years|);
    var j: nat :| j < |blocks[r]| && blocks[r][j].x == x;
    ConcatHas(blocks, |present|, r, j);
    var points := ModelPoints(years, byYear, present);
    var i :| 0 <= i < |points| && points[i] == blocks[r][j];
    assert points[i].y == r && points[i].x == x;
  }

  /** Row `r` holds one point per year on the axis that has a positive count for its model. */
  lemma ModelPointsRowCount(years: seq<string>, byYear: map<string, Record>, present: seq<ModelRow>, r: nat)
    requires r < |present|
    ensures CountIn(ModelPoints(years, byYear, present), PointRow, r) == YearsUsing(years, byYear, present[r].model, |years|)
  {
    RowBlocksShape(years, byYear, present);
    ConcatCount(RowBlocks(years, byYear, present), |present|, PointRow, r);
  }

  /**
   * Drawn from `presentModels`, the heatmap has no empty row: every present
   * model has at least one point.
   */
  lemma PresentRowsFilled(years: seq<string>, byYear: map<string, Record>, r: nat)
    requires r < |UsedRows(years, byYear, Flatten(OrderedModels))|
    ensures CountIn(ModelPoints(years, byYear, UsedRows(years, byYear, Flatten(OrderedModels))), PointRow, r) > 0
  {
    var present := UsedRows(years, byYear, Flatten(OrderedModels));
    UsedRowsMembers(years, byYear, Flatten(OrderedModels));
    assert present[r] in present;
    YearsUsingPositive(years, byYear, present[r].model, |years|);
    ModelPointsRowCount(years, byYear, present, r);
  }
}
