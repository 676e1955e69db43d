/**
 * The podium heatmap (app.js:200-224) and its sweep markers (app.js:225-233).
 *
 * For every year on the axis and every podium position 1, 2 and 3, a cell is
 * drawn when the year's record holds a non-blank letter at that position; the
 * cell is coloured by the manufacturer the letter stands for. A year whose
 * three podium fields are one and the same truthy value gets a star.
 */
module Podium {
  import opened Wrappers
  import opened Strings
  import opened Brands
  import opened Records
  import opened Blocks

  /** One heatmap cell: its grid position, value, colour and the `custom` facts. */
  datatype Cell = Cell(
    x: nat, y: nat, value: int, color: string,
    year: string, pos: nat, letter: string, make: Option<string>,
    yellow: bool)

  /** `String(p)`: the field a podium position is stored under. */
  function PositionKey(p: nat): (key: string)
    ensures 1 <= p <= 3 ==> key == IntString(p)
  {
    if p == 1 then "1" else if p == 2 then "2" else if p == 3 then "3" else IntString(p)
  }

  /**
   * `String(r[String(p)] || '').trim()`: the podium letter at position `p`.
   * A truthy field reads as its trimmed text; a year without a record, or a
   * missing or falsy field, reads as "" (`String('')`).
   */
  function Letter(rec: Option<Record>, p: nat): (letter: string)
    ensures rec.None? ==> letter == ""
    ensures rec.Some? && PositionKey(p) in rec.value.fields && Truthy(rec.value.fields[PositionKey(p)])
      ==> letter == Trim(Str(rec.value.fields[PositionKey(p)]))
    ensures !(rec.Some? && PositionKey(p) in rec.value.fields && Truthy(rec.value.fields[PositionKey(p)]))
      ==> letter == ""
  {
    var key := PositionKey(p);
    if rec.Some? && key in rec.value.fields && Truthy(rec.value.fields[key])
    then Trim(Str(rec.value.fields[key]))
    else ""
  }

  /** A podium letter never starts or ends with whitespace. */
  lemma LetterTrimmed(rec: Option<Record>, p: nat)
    ensures var letter := Letter(rec, p);
      letter == "" || (!IsWhitespace(letter[0]) && !IsWhitespace(letter[|letter| - 1]))
  {
    var key := PositionKey(p);
    if rec.Some? && key in rec.value.fields && Truthy(rec.value.fields[key]) {
      TrimSpec(Str(rec.value.fields[key]));
    }
  }

  /** A make whose light colour calls for dark label text: one of the known manufacturers. */
  predicate IsYellow(make: Option<string>)
    ensures IsYellow(make) ==> make.Some? && make.value in BrandColours
  {
    make == Some("Chevrolet") || make == Some("Nissan")
  }

  /** The colour of a cell: the make's colour, or the neutral grey without a make. */
  function CellColour(make: Option<string>): (c: string)
    ensures c == NeutralColour <==> make.None? || make.value !in BrandColours
  {
    if make.Some? && make.value in BrandColours then BrandColours[make.value] else NeutralColour
  }

  /** The three podium letters of a year, first place first. */
  function YearLetters(rec: Option<Record>): (ls: seq<string>)
    ensures |ls| == 3
    ensures forall i :: 0 <= i < 3 ==> ls[i] == Letter(rec, i + 1)
  {
    seq(3, i requires 0 <= i < 3 => Letter(rec, i + 1))
  }

  /** The podium letters of every year on the axis. */
  function LetterGrid(years: seq<string>, byYear: map<string, Record>): (grid: seq<seq<string>>)
    ensures |grid| == |years| && IsGrid(grid)
  {
    seq(|years|, x requires 0 <= x < |years| => YearLetters(Lookup(byYear, years[x])))
  }

  /** The grid holds each year's letter at each position. */
  lemma GridLetter(years: seq<string>, byYear: map<string, Record>, x: nat, p: nat)
    requires x < |years| && 1 <= p <= 3
    ensures LetterGrid(years, byYear)[x][p - 1] == Letter(Lookup(byYear, years[x]), p)
  {
    assert LetterGrid(years, byYear)[x] == YearLetters(Lookup(byYear, years[x]));
  }

  /** Three letters for every year. */
  predicate IsGrid(grid: seq<seq<string>>) {
    forall x :: 0 <= x < |grid| ==> |grid[x]| == 3
  }

  /** The cell for year position `x` and podium position `p`, when its letter is not blank. */
  function CellAt(x: nat, year: string, letter: string, p: nat): Option<Cell>
    requires 1 <= p
  {
    if letter == "" then None
    else
      var make := BrandOfLetter(letter);
      Some(Cell(x, p - 1, 1, CellColour(make), year, p, letter, make, IsYellow(make)))
  }

  /** The cells of year position `x` for podium positions 1 to `k`. */
  function PositionCells(x: nat, year: string, letters: seq<string>, k: nat): seq<Cell>
    requires k <= |letters|
  {
    if k == 0 then [] else PositionCells(x, year, letters, k - 1) + CellAt(x, year, letters[k - 1], k).ToSeq()
  }

  /** The cells of each year, block `x` holding year position `x`'s cells in position order. */
  function YearBlocks(years: seq<string>, grid: seq<seq<string>>): (blocks: seq<seq<Cell>>)
    requires |years| == |grid| && IsGrid(grid)
    ensures |blocks| == |years|
  {
    seq(|years|, x requires 0 <= x < |years| => PositionCells(x, years[x], grid[x], |grid[x]|))
  }

  /** A cell's year position, the column it is drawn in. */
  function CellColumn(c: Cell): nat {
    c.x
  }

  /** A cell's row. */
  function CellRow(c: Cell): int {
    c.y
  }

  /** `heatData`. */
  function PodiumCells(years: seq<string>, byYear: map<string, Record>): seq<Cell> {
    Concat(YearBlocks(years, LetterGrid(years, byYear)), |years|)
  }

  /** Builds `heatData`: for each year in axis order, for each podium position, one cell per non-blank letter. */
  method HeatData(years: seq<string>, byYear: map<string, Record>) returns (cells: seq<Cell>)
    ensures cells == PodiumCells(years, byYear)
  {
    ghost var grid := LetterGrid(years, byYear);
    ghost var blocks := YearBlocks(years, grid);
    cells := [];
    for x := 0 to |years|
      invariant cells == Concat(blocks, x)
    {
      var r := Lookup(byYear, years[x]);
      for p := 1 to 4
        invariant cells == Concat(blocks, x) + PositionCells(x, years[x], grid[x], p - 1)
      {
        var letter := Letter(r, p);
        GridLetter(years, byYear, x, p);
        ghost var before := cells;
        if letter != "" {
          var make := BrandOfLetter(letter);
          cells := cells + [Cell(x, p - 1, 1, CellColour(make), years[x], p, letter, make, IsYellow(make))];
        }
        assert cells == before + CellAt(x, years[x], grid[x][p - 1], p).ToSeq();
        assert PositionCells(x, years[x], grid[x], p)
          == PositionCells(x, years[x], grid[x], p - 1) + CellAt(x, years[x], grid[x][p - 1], p).ToSeq();
      }
      assert |grid[x]| == 3;
      assert blocks[x] == PositionCells(x, years[x], grid[x], 3);
    }
  }

  /**
   * A cell as the source draws it: the non-blank letter of its year and
   * position, placed in row `pos - 1` with value 1, its make the letter's
   * manufacturer (none for an unmapped letter) and its colour that make's
   * colour, or the neutral grey without one.
   */
  ghost predicate WellFormed(c: Cell, years: seq<string>, grid: seq<seq<string>>)
    requires |years| == |grid| && IsGrid(grid)
  {
    && c.x < |years|
    && 1 <= c.pos <= 3 && c.y == c.pos - 1 && c.value == 1
    && c.year == years[c.x]
    && c.letter == grid[c.x][c.pos - 1] && c.letter != ""
    && c.make == BrandOfLetter(c.letter)
    && (c.make.None? ==> c.color == NeutralColour)
    && (c.make.Some? ==> c.make.value in BrandColours && c.color == BrandColours[c.make.value])
    && (c.yellow <==> c.make == Some("Chevrolet") || c.make == Some("Nissan"))
  }

  /** Cells are ordered by year position, then by row. */
  predicate CellBefore(a: Cell, b: Cell) {
    a.x < b.x || (a.x == b.x && a.y < b.y)
  }

  /** The cells of one year lie in that year's column, one row per position, ordered by position. */
  lemma {:induction false} PositionCellsShape(x: nat, year: string, letters: seq<string>, k: nat)
    requires k <= |letters|
    ensures var cs := PositionCells(x, year, letters, k);
      && |cs| <= k
      && (forall i :: 0 <= i < |cs| ==> cs[i].x == x && 1 <= cs[i].pos <= k && cs[i].y == cs[i].pos - 1)
      && (forall i, j :: 0 <= i < j < |cs| ==> cs[i].pos < cs[j].pos)
  {
    if k > 0 {
      PositionCellsShape(x, year, letters, k - 1);
    }
  }

  /** The cells of one year are well formed. */
  lemma {:induction false} PositionCellsWellFormed(years: seq<string>, grid: seq<seq<string>>, x: nat, k: nat)
    requires |years| == |grid| && IsGrid(grid) && x < |years| && k <= 3
    ensures forall i :: 0 <= i < |PositionCells(x, years[x], grid[x], k)| ==>
      WellFormed(PositionCells(x, years[x], grid[x], k)[i], years, grid)
  {
    if k > 0 {
      PositionCellsWellFormed(years, grid, x, k - 1);
      var cs := PositionCells(x, years[x], grid[x], k);
      var front := PositionCells(x, years[x], grid[x], k - 1);
      forall i | 0 <= i < |front|
        ensures WellFormed(cs[i], years, grid)
      {
        assert cs[i] == front[i];
      }
    }
  }


  /** A year whose letters are all blank has no cells. */
  lemma {:induction false} PositionCellsBlank(x: nat, year: string, letters: seq<string>, k: nat)
    requires k <= |letters|
    requires forall i :: 0 <= i < k ==> letters[i] == ""
    ensures PositionCells(x, year, letters, k) == []
  {
    if k > 0 {
      PositionCellsBlank(x, year, letters, k - 1);
    }
  }

  /** Within one year, every non-blank letter up to position `k` has its cell. */
  lemma {:induction false} PositionCellComplete(x: nat, year: string, letters: seq<string>, p: nat, k: nat)
    requires 1 <= p <= k <= |letters| && letters[p - 1] != ""
    ensures exists i ::
      && 0 <= i < |PositionCells(x, year, letters, k)|
      && PositionCells(x, year, letters, k)[i].x == x
      && PositionCells(x, year, letters, k)[i].pos == p
  {
    var cs := PositionCells(x, year, letters, k);
    var front := PositionCells(x, year, letters, k - 1);
    var last := CellAt(x, year, letters[k - 1], k).ToSeq();
    assert cs == front + last;
    if p < k {
      PositionCellComplete(x, year, letters, p, k - 1);
      var i :| 0 <= i < |front| && front[i].x == x && front[i].pos == p;
      assert cs[i] == front[i];
    } else {
      assert last == [CellAt(x, year, letters[k - 1], k).value];
      assert cs[|front|] == last[0];
    }
  }


  /** The blocks built from a letter grid are columned, go down the rows, and hold well-formed cells. */
  lemma YearBlocksShape(years: seq<string>, grid: seq<seq<string>>)
    requires |years| == |grid| && IsGrid(grid)
    ensures Columned(YearBlocks(years, grid), CellColumn) && Increasing(YearBlocks(years, grid), CellRow)
    ensures forall k, i :: 0 <= k < |years| && 0 <= i < |YearBlocks(years, grid)[k]| ==>
      WellFormed(YearBlocks(years, grid)[k][i], years, grid)
    ensures forall k :: 0 <= k < |years| ==> |YearBlocks(years, grid)[k]| <= 3
  {
    var blocks: seq<seq<Cell>> := YearBlocks(years, grid);
    forall k: nat | k < |years|
      ensures forall i :: 0 <= i < |blocks[k]| ==> blocks[k][i].x == k && WellFormed(blocks[k][i], years, grid)
      ensures forall i, j :: 0 <= i < j < |blocks[k]| ==> blocks[k][i].y < blocks[k][j].y
      ensures |blocks[k]| <= 3
    {
      PositionCellsShape(k, years[k], grid[k], |grid[k]|);
      PositionCellsWellFormed(years, grid, k, |grid[k]|);
    }
  }

  /**
   * Every cell of `heatData` is well formed and belongs to a year that has a
   * record: a year without one gets no cell.
   */
  lemma PodiumCellsSound(years: seq<string>, byYear: map<string, Record>)
    ensures forall i :: 0 <= i < |PodiumCells(years, byYear)| ==>
      && WellFormed(PodiumCells(years, byYear)[i], years, LetterGrid(years, byYear))
      && PodiumCells(years, byYear)[i].letter == Letter(Lookup(byYear, years[PodiumCells(years, byYear)[i].x]), PodiumCells(years, byYear)[i].pos)
      && years[PodiumCells(years, byYear)[i].x] in byYear
  {
    var grid := LetterGrid(years, byYear);
    var blocks: seq<seq<Cell>> := YearBlocks(years, grid);
    YearBlocksShape(years, grid);
    ConcatFrom(blocks, |years|, CellColumn);
    var cells := PodiumCells(years, byYear);
    forall i | 0 <= i < |cells|
      ensures WellFormed(cells[i], years, grid)
      ensures cells[i].letter == Letter(Lookup(byYear, years[cells[i].x]), cells[i].pos)
      ensures years[cells[i].x] in byYear
    {
      var c := cells[i];
      var j: nat :| j < |blocks[c.x]| && blocks[c.x][j] == c;
      assert WellFormed(c, years, grid);
      GridLetter(years, byYear, c.x, c.pos);
    }
  }

  /** `heatData` is ordered by year, then by position; so no (year, position) pair has two cells. */
  lemma PodiumCellsOrdered(years: seq<string>, byYear: map<string, Record>)
    ensures forall i, j :: 0 <= i < j < |PodiumCells(years, byYear)| ==>
      CellBefore(PodiumCells(years, byYear)[i], PodiumCells(years, byYear)[j])
  {
    var grid := LetterGrid(years, byYear);
    YearBlocksShape(years, grid);
    ConcatOrdered(YearBlocks(years, grid), |years|, CellColumn, CellRow);
  }

  /** Every non-blank podium letter of every year has its cell. */
  lemma PodiumCellsComplete(years: seq<string>, byYear: map<string, Record>, x: nat, p: nat)
    requires x < |years| && 1 <= p <= 3
    requires Letter(Lookup(byYear, years[x]), p) != ""
    ensures exists i ::
      && 0 <= i < |PodiumCells(years, byYear)|
      && PodiumCells(years, byYear)[i].x == x
      && PodiumCells(years, byYear)[i].pos == p
  {
    var grid := LetterGrid(years, byYear);
    var blocks: seq<seq<Cell>> := YearBlocks(years, grid);
    GridLetter(years, byYear, x, p);
    PositionCellComplete(x, years[x], grid[x], p, |grid[x]|);
    var j: nat :| j < |blocks[x]| && blocks[x][j].x == x && blocks[x][j].pos == p;
    ConcatHas(blocks, |years|, x, j);
    var cells := PodiumCells(years, byYear);
    var i :| 0 <= i < |cells| && cells[i] == blocks[x][j];
    assert cells[i].x == x && cells[i].pos == p;
  }

  /** At most three cells per year, and none for a year without a record. */
  lemma PodiumColumnCount(years: seq<string>, byYear: map<string, Record>, x: nat)
    requires x < |years|
    ensures CountIn(PodiumCells(years, byYear), CellColumn, x) <= 3
    ensures years[x] !in byYear ==> CountIn(PodiumCells(years, byYear), CellColumn, x) == 0
  {
    var grid := LetterGrid(years, byYear);
    var blocks: seq<seq<Cell>> := YearBlocks(years, grid);
    YearBlocksShape(years, grid);
    ConcatCount(blocks, |years|, CellColumn, x);
    if years[x] !in byYear {
      assert grid[x] == YearLetters(None);
      PositionCellsBlank(x, years[x], grid[x], |grid[x]|);
    }
  }

  // ---------------------------------------------------------------- sweeps

  /** A sweep marker: drawn in the middle row of its year's column. */
  datatype Star = Star(x: nat, y: nat, color: Option<string>, year: string, make: Option<string>)

  /**
   * `a && a === b && b === c` over the raw fields "1", "2" and "3": the first
   * is truthy and the other two are the very same value.
   */
  predicate IsSweep(rec: Option<Record>) {
    && rec.Some?
    && "1" in rec.value.fields && Truthy(rec.value.fields["1"])
    && "2" in rec.value.fields && rec.value.fields["2"] == rec.value.fields["1"]
    && "3" in rec.value.fields && rec.value.fields["3"] == rec.value.fields["2"]
  }

  /**
   * The star of year position `x`, when its podium is a sweep: in the middle
   * row, for the manufacturer the raw first-place value names, in that
   * manufacturer's colour (none when the value names no manufacturer).
   */
  function StarAt(x: nat, year: string, rec: Option<Record>): (s: Option<Star>)
    ensures s.Some? <==> IsSweep(rec)
    ensures s.Some? ==>
      && s.value.x == x && s.value.y == 1 && s.value.year == year
      && s.value.make == BrandOfLetter(Str(rec.value.fields["1"]))
      && (s.value.make.Some? ==> s.value.color == ColourOf(s.value.make.value) && s.value.color.Some?)
      && (s.value.make.None? ==> s.value.color.None?)
  {
    if IsSweep(rec) then
      var make := BrandOfLetter(Str(rec.value.fields["1"]));
      var colour := if make.Some? then Some(BrandColours[make.value]) else None;
      Some(Star(x, 1, colour, year, make))
    else None
  }

  /** `sweepStars` over the first `n` years. */
  function SweepStars(years: seq<string>, byYear: map<string, Record>, n: nat): seq<Star>
    requires n <= |years|
  {
    if n == 0 then []
    else SweepStars(years, byYear, n - 1) + StarAt(n - 1, years[n - 1], Lookup(byYear, years[n - 1])).ToSeq()
  }

  /**
   * Every star sits in the middle row of a visited year whose podium is a
   * sweep, carries that year's label, and is the swept manufacturer's, in its
   * colour; stars follow year order, so there is at most one per year.
   */
  lemma {:induction false} SweepStarsSound(years: seq<string>, byYear: map<string, Record>, n: nat)
    requires n <= |years|
    ensures forall i :: 0 <= i < |SweepStars(years, byYear, n)| ==>
      var s := SweepStars(years, byYear, n)[i];
      && s.x < n && s.y == 1 && s.year == years[s.x] && IsSweep(Lookup(byYear, years[s.x]))
      && s.make == BrandOfLetter(Str(byYear[years[s.x]].fields["1"]))
      && (s.make.Some? ==> s.color == ColourOf(s.make.value) && s.color.Some?)
      && (s.make.None? ==> s.color.None?)
    ensures forall i, j :: 0 <= i < j < |SweepStars(years, byYear, n)| ==>
      SweepStars(years, byYear, n)[i].x < SweepStars(years, byYear, n)[j].x
  {
    if n > 0 {
      SweepStarsSound(years, byYear, n - 1);
    }
  }

  /** Every visited year whose podium is a sweep has its star. */
  lemma {:induction false} SweepStarsComplete(years: seq<string>, byYear: map<string, Record>, n: nat, x: nat)
    requires x < n <= |years|
    requires IsSweep(Lookup(byYear, years[x]))
    ensures exists i :: 0 <= i < |SweepStars(years, byYear, n)| && SweepStars(years, byYear, n)[i].x == x
  {
    var stars := SweepStars(years, byYear, n);
    var front := SweepStars(years, byYear, n - 1);
    var last := StarAt(n - 1, years[n - 1], Lookup(byYear, years[n - 1]));
    assert stars == front + last.ToSeq();
    if x < n - 1 {
      SweepStarsComplete(years, byYear, n - 1, x);
      var i :| 0 <= i < |front| && front[i].x == x;
      assert stars[i] == front[i];
    } else {
      assert last.Some? && last.value.x == x;
      assert stars[|front|] == last.value;
    }
  }

  /** A podium of H, H, H is a Holden sweep with a Holden-red star; H, F, H is none. */
  lemma SweepExamples(y: int)
    ensures var hhh := Record(y, map["1" := Text("H"), "2" := Text("H"), "3" := Text("H")]);
      StarAt(0, IntString(y), Some(hhh)) == Some(Star(0, 1, Some("#C8102E"), IntString(y), Some("Holden")))
    ensures var hfh := Record(y, map["1" := Text("H"), "2" := Text("F"), "3" := Text("H")]);
      StarAt(0, IntString(y), Some(hfh)).None?
  {
    var hfh := Record(y, map["1" := Text("H"), "2" := Text("F"), "3" := Text("H")]);
    assert hfh.fields["2"] != hfh.fields["1"];
  }
}
