/**
 * The hand-written entrant tables (app.js:35-72), the per-year totals derived
 * from them (app.js:77-83) and `pin` (app.js:74), which turns a series into
 * the `{x, y}` points of the split chart.
 *
 * Ford-side series hold negative counts (they are drawn to the left); the GM
 * series and the Holden extras hold positive ones.
 */
module Entrants {
  import opened YearAxis

  /** `Math.abs`. */
  function Abs(v: int): (r: nat)
    ensures r == v || r == -v
  {
    if v < 0 then -v else v
  }

  /** Base Ford entrants per year, negative. */
  const FordVals: seq<int> := [
    -8, -12, -6, -11, -12, -23, -21, -21, -19, -16, -16, -15, -16, -13, -13, -11, -11, -11, -6, -7,
    -6, -6, -6, -7, -6, -8, -8, -9, -13, -10, -11
  ]

  /** Base GM (Holden, then Chevrolet) entrants per year. */
  const GmVals: seq<int> := [
    24, 24, 9, 16, 16, 33, 20, 19, 21, 19, 18, 16, 15, 16, 19, 20, 18, 18, 16, 11,
    13, 14, 16, 15, 16, 17, 17, 19, 15, 16, 16
  ]

  /**
   * One overwrite of a zero-filled series: `count` is written at the position
   * of `year`. The source pairs a list of years with a list of counts by
   * position; a placement is one such pair.
   */
  datatype Placement = Placement(year: int, count: int)

  /** Nissan 2013-2019. */
  const NissanPlacements: seq<Placement> := [
    Placement(2013, -4), Placement(2014, -4), Placement(2015, -4), Placement(2016, -5),
    Placement(2017, -4), Placement(2018, -4), Placement(2019, -4)
  ]
  /** Mercedes 2013-2015. */
  const MercedesPlacements: seq<Placement> := [Placement(2013, -3), Placement(2014, -2), Placement(2015, -2)]
  /** Volvo 2014-2016. */
  const VolvoPlacements: seq<Placement> := [Placement(2014, -2), Placement(2015, -2), Placement(2016, -2)]
  /** Ford and Holden privateers, 1998-1999. */
  const FordPrivateerPlacements: seq<Placement> := [Placement(1998, -4), Placement(1999, -8)]
  const HoldenPrivateerPlacements: seq<Placement> := [Placement(1998, 14), Placement(1999, 21)]
  /** The 1997 special classes; Ford's Special Level 1 count is written as 0. */
  const FordSL1Placements: seq<Placement> := [Placement(1997, 0)]
  const FordL2Placements: seq<Placement> := [Placement(1997, -3)]
  const HoldenSL1Placements: seq<Placement> := [Placement(1997, 6)]
  const HoldenL2Placements: seq<Placement> := [Placement(1997, 17)]

  /** `Array(n).fill(0)`. */
  function Zeros(n: nat): (r: seq<int>)
    ensures |r| == n && forall i :: 0 <= i < n ==> r[i] == 0
  {
    seq(n, _ => 0)
  }

  /**
   * `base` after the overwrites `arr[idxOf(p.year)] = p.count`, done in order.
   * A year off the axis has index -1, and writing `arr[-1]` changes no element.
   */
  function Placed(base: seq<int>, ps: seq<Placement>): (r: seq<int>)
    ensures |r| == |base|
  {
    if ps == [] then base
    else
      var prev := Placed(base, ps[..|ps| - 1]);
      var i := IdxOf(ps[|ps| - 1].year);
      if 0 <= i < |prev| then prev[i := ps[|ps| - 1].count] else prev
  }

  /** A position no placement names keeps its value. */
  lemma {:induction false} PlacedUntouched(base: seq<int>, ps: seq<Placement>, k: int)
    requires 0 <= k < |base|
    requires forall j :: 0 <= j < |ps| ==> IdxOf(ps[j].year) != k
    ensures Placed(base, ps)[k] == base[k]
  {
    if ps != [] {
      PlacedUntouched(base, ps[..|ps| - 1], k);
    }
  }

  /** A position holds the count of the last placement that names it. */
  lemma {:induction false} PlacedLastWrite(base: seq<int>, ps: seq<Placement>, j: int)
    requires 0 <= j < |ps| && 0 <= IdxOf(ps[j].year) < |base|
    requires forall j' :: j < j' < |ps| ==> IdxOf(ps[j'].year) != IdxOf(ps[j].year)
    ensures Placed(base, ps)[IdxOf(ps[j].year)] == ps[j].count
  {
    var front := ps[..|ps| - 1];
    if j < |ps| - 1 {
      assert front[j] == ps[j];
      forall j' | j < j' < |front| ensures IdxOf(front[j'].year) != IdxOf(front[j].year) {
        assert front[j'] == ps[j'];
      }
      PlacedLastWrite(base, front, j);
      assert IdxOf(ps[|ps| - 1].year) != IdxOf(ps[j].year);
    }
  }

  /** A zero-filled series of axis length with the placements written in. */
  function Sparse(ps: seq<Placement>): (r: seq<int>)
    ensures |r| == |Categories|
  {
    Placed(Zeros(|Categories|), ps)
  }

  /** Placements for the consecutive years `from`, `from + 1`, ..., all on the axis. */
  ghost predicate ConsecutiveOnAxis(ps: seq<Placement>) {
    && ps != []
    && FirstYear <= ps[0].year
    && ps[0].year + |ps| - 1 <= LastYear
    && forall j :: 0 <= j < |ps| ==> ps[j].year == ps[0].year + j
  }

  /**
   * A sparse series over consecutive years holds each year's count at that
   * year's position and 0 everywhere else.
   */
  lemma SparseConsecutive(ps: seq<Placement>, k: int)
    requires ConsecutiveOnAxis(ps)
    requires 0 <= k < |Categories|
    ensures Sparse(ps)[k] ==
      if ps[0].year <= FirstYear + k < ps[0].year + |ps| then ps[FirstYear + k - ps[0].year].count else 0
  {
    if ps[0].year <= FirstYear + k < ps[0].year + |ps| {
      PlacedLastWrite(Zeros(|Categories|), ps, FirstYear + k - ps[0].year);
    } else {
      PlacedUntouched(Zeros(|Categories|), ps, k);
    }
  }

  /**
   * Lines 45-72 as the source runs them: zero-filled arrays whose entries at
   * the listed years are overwritten.
   */
  method Overwrite(a: array<int>, ps: seq<Placement>)
    requires a.Length == |Categories|
    modifies a
    ensures a[..] == Placed(old(a[..]), ps)
  {
    for j := 0 to |ps|
      invariant a[..] == Placed(old(a[..]), ps[..j])
    {
      assert ps[..j + 1][..j] == ps[..j];
      var i := IdxOf(ps[j].year);
      if i >= 0 {
        a[i] := ps[j].count;
      }
    }
    assert ps[..|ps|] == ps;
  }

  /**
   * The eleven series of the split chart: base Ford and GM, the three extra
   * makes on the Ford side, the two privateer series and the four 1997
   * special-class series.
   */
  datatype EntrantTables = EntrantTables(
    ford: seq<int>, gm: seq<int>,
    nissan: seq<int>, mercedes: seq<int>, volvo: seq<int>,
    fordPrivateer: seq<int>, holdenPrivateer: seq<int>,
    fordSL1: seq<int>, fordL2: seq<int>, holdenSL1: seq<int>, holdenL2: seq<int>)

  /** The tables as lines 36-72 leave them. */
  const StaticTables: EntrantTables := EntrantTables(
    FordVals, GmVals,
    Sparse(NissanPlacements), Sparse(MercedesPlacements), Sparse(VolvoPlacements),
    Sparse(FordPrivateerPlacements), Sparse(HoldenPrivateerPlacements),
    Sparse(FordSL1Placements), Sparse(FordL2Placements), Sparse(HoldenSL1Placements), Sparse(HoldenL2Placements))

  /** Lines 36-72: the base series and the filled-in extra series. */
  method BuildTables() returns (t: EntrantTables)
    ensures t == StaticTables
  {
    var nissan, mercedes, volvo := FillExtraMakes();
    var fordPrivateer, holdenPrivateer := FillPrivateers();
    var fordSL1, fordL2, holdenSL1, holdenL2 := FillSpecialClasses();
    t := EntrantTables(
      FordVals, GmVals, nissan, mercedes, volvo, fordPrivateer, holdenPrivateer,
      fordSL1, fordL2, holdenSL1, holdenL2);
  }

  /** Lines 45-47 and 51-56: three zero-filled arrays, each given its make's year list. */
  method FillExtraMakes() returns (nissan: seq<int>, mercedes: seq<int>, volvo: seq<int>)
    ensures nissan == Sparse(NissanPlacements)
    ensures mercedes == Sparse(MercedesPlacements)
    ensures volvo == Sparse(VolvoPlacements)
  {
    var n := |Categories|;
    var nissanArr := new int[n](_ => 0);
    var mercedesArr := new int[n](_ => 0);
    var volvoArr := new int[n](_ => 0);
    assert nissanArr[..] == Zeros(n);
    assert mercedesArr[..] == Zeros(n);
    assert volvoArr[..] == Zeros(n);

    Overwrite(nissanArr, NissanPlacements);
    Overwrite(mercedesArr, MercedesPlacements);
    Overwrite(volvoArr, VolvoPlacements);

    nissan, mercedes, volvo := nissanArr[..], mercedesArr[..], volvoArr[..];
  }

  /** Lines 48-49 and 58-62: two zero-filled arrays, given the privateer entries one by one. */
  method FillPrivateers() returns (fordPrivateer: seq<int>, holdenPrivateer: seq<int>)
    ensures fordPrivateer == Sparse(FordPrivateerPlacements)
    ensures holdenPrivateer == Sparse(HoldenPrivateerPlacements)
  {
    var n := |Categories|;
    var fordPrivateerArr := new int[n](_ => 0);
    var holdenPrivateerArr := new int[n](_ => 0);
    fordPrivateerArr[IdxOf(1998)] := -4;
    fordPrivateerArr[IdxOf(1999)] := -8;
    holdenPrivateerArr[IdxOf(1998)] := 14;
    holdenPrivateerArr[IdxOf(1999)] := 21;
    fordPrivateer, holdenPrivateer := fordPrivateerArr[..], holdenPrivateerArr[..];
    TwoPlacements(FordPrivateerPlacements, fordPrivateer);
    TwoPlacements(HoldenPrivateerPlacements, holdenPrivateer);
  }

  /** Lines 65-72: four zero-filled arrays, each given its 1997 entry. */
  method FillSpecialClasses() returns (fordSL1: seq<int>, fordL2: seq<int>, holdenSL1: seq<int>, holdenL2: seq<int>)
    ensures fordSL1 == Sparse(FordSL1Placements)
    ensures fordL2 == Sparse(FordL2Placements)
    ensures holdenSL1 == Sparse(HoldenSL1Placements)
    ensures holdenL2 == Sparse(HoldenL2Placements)
  {
    var n := |Categories|;
    var fordSL1Arr := new int[n](_ => 0);
    var fordL2Arr := new int[n](_ => 0);
    var holdenSL1Arr := new int[n](_ => 0);
    var holdenL2Arr := new int[n](_ => 0);
    fordSL1Arr[IdxOf(1997)] := 0;
    fordL2Arr[IdxOf(1997)] := -3;
    holdenSL1Arr[IdxOf(1997)] := 6;
    holdenL2Arr[IdxOf(1997)] := 17;
    fordSL1, fordL2, holdenSL1, holdenL2 := fordSL1Arr[..], fordL2Arr[..], holdenSL1Arr[..], holdenL2Arr[..];
    OnePlacement(FordSL1Placements, fordSL1);
    OnePlacement(FordL2Placements, fordL2);
    OnePlacement(HoldenSL1Placements, holdenSL1);
    OnePlacement(HoldenL2Placements, holdenL2);
  }

  /** A single placement on the axis, written into zeros. */
  lemma OnePlacement(ps: seq<Placement>, s: seq<int>)
    requires |ps| == 1 && 0 <= IdxOf(ps[0].year) < |Categories|
    requires s == Zeros(|Categories|)[IdxOf(ps[0].year) := ps[0].count]
    ensures s == Sparse(ps)
  {
    assert ps[..|ps| - 1] == [];
    assert Placed(Zeros(|Categories|), ps[..|ps| - 1]) == Zeros(|Categories|);
  }

  /** Two placements on the axis, written into zeros one after the other. */
  lemma TwoPlacements(ps: seq<Placement>, s: seq<int>)
    requires |ps| == 2 && 0 <= IdxOf(ps[0].year) < |Categories| && 0 <= IdxOf(ps[1].year) < |Categories|
    requires s == Zeros(|Categories|)[IdxOf(ps[0].year) := ps[0].count][IdxOf(ps[1].year) := ps[1].count]
    ensures s == Sparse(ps)
  {
    assert ps[..1][0] == ps[0];
    OnePlacement(ps[..1], Zeros(|Categories|)[IdxOf(ps[0].year) := ps[0].count]);
    var first := Zeros(|Categories|)[IdxOf(ps[0].year) := ps[0].count];
    assert Sparse(ps[..1]) == first;
    assert ps[..|ps| - 1] == ps[..1] && ps[|ps| - 1] == ps[1];
    assert Placed(Zeros(|Categories|), ps) == Placed(Zeros(|Categories|), ps[..1])[IdxOf(ps[1].year) := ps[1].count];
  }

  /** Every series is as long as the axis. */
  ghost predicate Aligned(t: EntrantTables) {
    var n := |t.ford|;
    && |t.gm| == n && |t.nissan| == n && |t.mercedes| == n && |t.volvo| == n
    && |t.fordPrivateer| == n && |t.holdenPrivateer| == n
    && |t.fordSL1| == n && |t.fordL2| == n && |t.holdenSL1| == n && |t.holdenL2| == n
  }

  /** Every entrant array has one entry per year of the axis. */
  lemma StaticTablesAligned()
    ensures Aligned(StaticTables) && |StaticTables.ford| == |Categories| == 31
  {
  }

  /** The extra series name consecutive years on the axis. */
  lemma ExtraPlacementsConsecutive()
    ensures ConsecutiveOnAxis(NissanPlacements) && ConsecutiveOnAxis(MercedesPlacements)
    ensures ConsecutiveOnAxis(VolvoPlacements)
    ensures ConsecutiveOnAxis(FordPrivateerPlacements) && ConsecutiveOnAxis(HoldenPrivateerPlacements)
    ensures ConsecutiveOnAxis(FordSL1Placements) && ConsecutiveOnAxis(FordL2Placements)
    ensures ConsecutiveOnAxis(HoldenSL1Placements) && ConsecutiveOnAxis(HoldenL2Placements)
  {
  }

  /**
   * The extra series are 0 except in the years their make or class raced:
   * Nissan 2013-2019, Mercedes 2013-2015, Volvo 2014-2016, the privateers
   * 1998-1999, and the 1997 classes in 1997 only. Ford's Special Level 1 entry
   * is written as 0, so that series is 0 in every year.
   */
  lemma ExtraMakeYears(i: int)
    requires 0 <= i < |Categories|
    ensures StaticTables.nissan[i] != 0 <==> 2013 <= FirstYear + i <= 2019
    ensures StaticTables.mercedes[i] != 0 <==> 2013 <= FirstYear + i <= 2015
    ensures StaticTables.volvo[i] != 0 <==> 2014 <= FirstYear + i <= 2016
    ensures StaticTables.fordPrivateer[i] != 0 <==> 1998 <= FirstYear + i <= 1999
    ensures StaticTables.holdenPrivateer[i] != 0 <==> 1998 <= FirstYear + i <= 1999
    ensures StaticTables.fordSL1[i] == 0
    ensures StaticTables.fordL2[i] != 0 <==> FirstYear + i == 1997
    ensures StaticTables.holdenSL1[i] != 0 <==> FirstYear + i == 1997
    ensures StaticTables.holdenL2[i] != 0 <==> FirstYear + i == 1997
  {
    ExtraPlacementsConsecutive();
    SparseConsecutive(NissanPlacements, i);
    SparseConsecutive(MercedesPlacements, i);
    SparseConsecutive(VolvoPlacements, i);
    SparseConsecutive(FordPrivateerPlacements, i);
    SparseConsecutive(HoldenPrivateerPlacements, i);
    SparseConsecutive(FordSL1Placements, i);
    SparseConsecutive(FordL2Placements, i);
    SparseConsecutive(HoldenSL1Placements, i);
    SparseConsecutive(HoldenL2Placements, i);
  }

  /**
   * Sign convention of the split chart: base Ford entrants are negative and
   * base GM entrants positive in every year.
   */
  lemma BaseSigns()
    ensures forall i :: 0 <= i < |FordVals| ==> FordVals[i] < 0
    ensures forall i :: 0 <= i < |GmVals| ==> GmVals[i] > 0
  {
  }

  /**
   * The extra series follow the same convention: Ford-side makes and classes
   * are never positive, the Holden extras never negative.
   */
  lemma ExtraSigns(i: int)
    requires 0 <= i < |Categories|
    ensures StaticTables.nissan[i] <= 0 && StaticTables.mercedes[i] <= 0 && StaticTables.volvo[i] <= 0
    ensures StaticTables.fordPrivateer[i] <= 0 && StaticTables.fordSL1[i] <= 0 && StaticTables.fordL2[i] <= 0
    ensures StaticTables.holdenPrivateer[i] >= 0 && StaticTables.holdenSL1[i] >= 0 && StaticTables.holdenL2[i] >= 0
  {
    ExtraPlacementsConsecutive();
    SparseConsecutive(NissanPlacements, i);
    SparseConsecutive(MercedesPlacements, i);
    SparseConsecutive(VolvoPlacements, i);
    SparseConsecutive(FordPrivateerPlacements, i);
    SparseConsecutive(HoldenPrivateerPlacements, i);
    SparseConsecutive(FordSL1Placements, i);
    SparseConsecutive(FordL2Placements, i);
    SparseConsecutive(HoldenSL1Placements, i);
    SparseConsecutive(HoldenL2Placements, i);
  }

  /** `leftExtrasAbsAt(i)`: the Ford-side extras at position `i`, as magnitudes. */
  function LeftExtrasAbsAt(t: EntrantTables, i: int): (r: nat)
    requires Aligned(t) && 0 <= i < |t.ford|
  {
    Abs(t.nissan[i]) + Abs(t.mercedes[i]) + Abs(t.volvo[i]) +
    Abs(t.fordPrivateer[i]) + Abs(t.fordSL1[i]) + Abs(t.fordL2[i])
  }

  /** `rightExtrasAt(i)`: the Holden extras at position `i`, added as stored. */
  function RightExtrasAt(t: EntrantTables, i: int): int
    requires Aligned(t) && 0 <= i < |t.ford|
  {
    t.holdenPrivateer[i] + t.holdenSL1[i] + t.holdenL2[i]
  }

  /**
   * `totals`: per year, the magnitude of the base Ford count, plus the GM
   * count, the Ford-side extras as magnitudes and the Holden extras as stored.
   * A total is never below its non-Ford-extra part, since the Ford-side extras
   * only add magnitudes.
   */
  function Totals(t: EntrantTables): (r: seq<int>)
    requires Aligned(t)
    ensures |r| == |t.ford|
    ensures forall i :: 0 <= i < |r| ==> r[i] >= Abs(t.ford[i]) + t.gm[i] + RightExtrasAt(t, i)
  {
    seq(|t.ford|, i requires 0 <= i < |t.ford| =>
      Abs(t.ford[i]) + t.gm[i] + LeftExtrasAbsAt(t, i) + RightExtrasAt(t, i))
  }

  /** The series of the split chart in the order it lists them (app.js:130-148). */
  function SplitSeries(t: EntrantTables): (r: seq<seq<int>>)
    ensures |r| == 11
  {
    [t.ford, t.fordSL1, t.fordL2, t.fordPrivateer, t.nissan, t.mercedes, t.volvo,
     t.gm, t.holdenSL1, t.holdenL2, t.holdenPrivateer]
  }

  /**
   * The combined length of the bars the first `n` series draw at position `i`:
   * the sum of their magnitudes.
   */
  function BarLength(series: seq<seq<int>>, i: int, n: nat): nat
    requires n <= |series| && 0 <= i && forall k :: 0 <= k < n ==> i < |series[k]|
  {
    if n == 0 then 0 else BarLength(series, i, n - 1) + Abs(series[n - 1][i])
  }

  /** The Ford-side bars of a year together are as long as the Ford-side magnitudes. */
  lemma FordSideBarLength(t: EntrantTables, i: int)
    requires Aligned(t) && 0 <= i < |t.ford|
    ensures BarLength(SplitSeries(t), i, 7) == Abs(t.ford[i]) + LeftExtrasAbsAt(t, i)
  {
    var ss := SplitSeries(t);
    assert BarLength(ss, i, 7) == BarLength(ss, i, 6) + Abs(ss[6][i]);
    assert BarLength(ss, i, 6) == BarLength(ss, i, 5) + Abs(ss[5][i]);
    assert BarLength(ss, i, 5) == BarLength(ss, i, 4) + Abs(ss[4][i]);
    assert BarLength(ss, i, 4) == BarLength(ss, i, 3) + Abs(ss[3][i]);
    assert BarLength(ss, i, 3) == BarLength(ss, i, 2) + Abs(ss[2][i]);
    assert BarLength(ss, i, 2) == BarLength(ss, i, 1) + Abs(ss[1][i]);
    assert BarLength(ss, i, 1) == BarLength(ss, i, 0) + Abs(ss[0][i]);
  }

  /**
   * Where the GM-side values are not negative, as the sign convention has
   * them, a year's total is the combined length of its bars in the split chart.
   */
  lemma TotalIsBarLength(t: EntrantTables, i: int)
    requires Aligned(t) && 0 <= i < |t.ford|
    requires t.gm[i] >= 0 && t.holdenPrivateer[i] >= 0 && t.holdenSL1[i] >= 0 && t.holdenL2[i] >= 0
    ensures Totals(t)[i] == BarLength(SplitSeries(t), i, 11)
  {
    var ss := SplitSeries(t);
    FordSideBarLength(t, i);
    assert BarLength(ss, i, 11) == BarLength(ss, i, 10) + Abs(ss[10][i]);
    assert BarLength(ss, i, 10) == BarLength(ss, i, 9) + Abs(ss[9][i]);
    assert BarLength(ss, i, 9) == BarLength(ss, i, 8) + Abs(ss[8][i]);
    assert BarLength(ss, i, 8) == BarLength(ss, i, 7) + Abs(ss[7][i]);
  }

  /**
   * For the tables as written, every year's total is the combined length of
   * its bars, and so at least the base Ford magnitude plus the GM count.
   */
  lemma StaticTotals(i: int)
    requires 0 <= i < |Categories|
    ensures Totals(StaticTables)[i] == BarLength(SplitSeries(StaticTables), i, 11)
    ensures Totals(StaticTables)[i] >= Abs(FordVals[i]) + GmVals[i]
  {
    StaticTablesAligned();
    BaseSigns();
    ExtraSigns(i);
    TotalIsBarLength(StaticTables, i);
  }

  /** A point of the split chart. */
  datatype XY = XY(x: int, y: int)

  /** `pin(arr)`: the points `{x: i, y: arr[i]}`, in the order of `arr`. */
  function Pin(arr: seq<int>): (r: seq<XY>)
    ensures |r| == |arr|
    ensures forall i :: 0 <= i < |arr| ==> r[i].x == i && r[i].y == arr[i]
  {
    seq(|arr|, i requires 0 <= i < |arr| => XY(i, arr[i]))
  }

  /** The values a chart reads back from its points. */
  function Ys(points: seq<XY>): (r: seq<int>)
    ensures |r| == |points|
  {
    if points == [] then [] else Ys(points[..|points| - 1]) + [points[|points| - 1].y]
  }

  /** Pinning loses nothing: the chart reads back the series it was given. */
  lemma {:induction false} PinRoundTrip(arr: seq<int>)
    ensures Ys(Pin(arr)) == arr
  {
    if arr != [] {
      var front := arr[..|arr| - 1];
      assert Pin(arr)[..|arr| - 1] == Pin(front);
      PinRoundTrip(front);
      assert arr == front + [arr[|arr| - 1]];
    }
  }
}
