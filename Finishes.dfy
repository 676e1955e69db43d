/**
 * The result-types-per-year series (app.js:159-168): one stacked column
 * series per kind of result, each holding that result's count for every year
 * on the axis.
 */
module Finishes {
  import opened Wrappers
  import opened Records

  /** `finishKeys`, in the order the series are stacked. */
  const FinishKeys: seq<string> := ["Finished", "DNS", "DSQ", "DNF", "NC", "WD", "Retired", "DNQ", "DNPQ"]

  /** `finishColors`. */
  const FinishColours: map<string, string> := map[
    "Finished" := "#2E7D32",
    "DNS" := "#FB8C00",
    "DSQ" := "#000000",
    "DNF" := "#D32F2F",
    "NC" := "#9E9E9E",
    "WD" := "#6A1B9A",
    "Retired" := "#616161",
    "DNQ" := "#455A64",
    "DNPQ" := "#B71C1C"
  ]

  /** A named chart series with its data and its colour (`undefined` is `None`). */
  datatype Series = Series(name: string, data: seq<int>, color: Option<string>)

  /** `finishColors[k] || undefined`. */
  function KeyColour(k: string): (c: Option<string>)
    ensures c.Some? <==> k in FinishColours
  {
    if k in FinishColours then Some(FinishColours[k]) else None
  }

  /** Every result kind has a colour of its own. */
  lemma KeysHaveColours()
    ensures forall j :: 0 <= j < |FinishKeys| ==> FinishKeys[j] in FinishColours
    ensures forall j, j' :: 0 <= j < j' < |FinishKeys| ==> FinishColours[FinishKeys[j]] != FinishColours[FinishKeys[j']]
  {
  }

  /**
   * One result kind's count for each year: the year's count when its record
   * holds one, and 0 where the year has no record or the field is missing,
   * `null` or text.
   */
  function FinishData(years: seq<string>, byYear: map<string, Record>, key: string): (d: seq<int>)
    ensures |d| == |years|
    ensures forall i :: 0 <= i < |d| && years[i] !in byYear ==> d[i] == 0
    ensures forall i ::
      (&& 0 <= i < |d| && years[i] in byYear && key in byYear[years[i]].fields
       && byYear[years[i]].fields[key].Count? && byYear[years[i]].fields[key].n.Some?)
      ==> d[i] == byYear[years[i]].fields[key].n.value
    ensures forall i :: 0 <= i < |d| && d[i] != 0 ==>
      years[i] in byYear && key in byYear[years[i]].fields && byYear[years[i]].fields[key] == Count(Some(d[i]))
  {
    seq(|years|, i requires 0 <= i < |years| => CountField(Lookup(byYear, years[i]), key))
  }

  /** `finishSeries`: one series per result kind, in `finishKeys` order. */
  function FinishSeries(years: seq<string>, byYear: map<string, Record>): (r: seq<Series>)
    ensures |r| == |FinishKeys| == 9
    ensures forall j :: 0 <= j < |r| ==>
      && r[j].name == FinishKeys[j]
      && |r[j].data| == |years|
      && r[j].color == Some(FinishColours[FinishKeys[j]])
  {
    KeysHaveColours();
    seq(|FinishKeys|, j requires 0 <= j < |FinishKeys| =>
      Series(FinishKeys[j], FinishData(years, byYear, FinishKeys[j]), KeyColour(FinishKeys[j])))
  }

  /**
   * Built from the race rows, a series' value for a year is the count that the
   * year's last record holds for that result kind (0 when it holds none or
   * holds text).
   */
  lemma FinishFromLastRecord(rows: seq<Record>, years: seq<string>, i: int, j: int, k: int)
    requires 0 <= i < |years| && 0 <= j < |FinishKeys| && 0 <= k < |rows|
    requires YearKey(rows[k]) == years[i]
    requires forall k' :: k < k' < |rows| ==> YearKey(rows[k']) != years[i]
    ensures FinishSeries(years, ByYear(rows))[j].data[i] == CountField(Some(rows[k]), FinishKeys[j])
  {
    ByYearLastWins(rows, k);
  }

  /** A year that no row is for has 0 in every series. */
  lemma FinishAbsentYear(rows: seq<Record>, years: seq<string>, i: int)
    requires 0 <= i < |years|
    requires forall k :: 0 <= k < |rows| ==> YearKey(rows[k]) != years[i]
    ensures forall j :: 0 <= j < |FinishKeys| ==> FinishSeries(years, ByYear(rows))[j].data[i] == 0
  {
  }
}
