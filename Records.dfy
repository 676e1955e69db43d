/**
 * The per-year race records and the year-keyed lookup built from them
 * (app.js:155).
 *
 * A record's fields are either counts (`Finished`, `DNF`, the model names,
 * ...), which may be missing or `null`, or texts (the podium letters under the
 * keys "1", "2" and "3").
 */
module Records {
  import opened Wrappers
  import opened Strings
  import opened YearAxis

  /** One field of a record: an optional count (`null` is `Count(None)`) or a text. */
  datatype FieldValue = Count(n: Option<int>) | Text(s: string)

  /** One row of the race data: its year and its named fields. */
  datatype Record = Record(year: int, fields: map<string, FieldValue>)

  /**
   * `String(r.Year)`: the key a record is filed under. It is one of the axis
   * labels exactly when the year lies on the axis, so only those records are
   * ever looked up by the charts.
   */
  function YearKey(r: Record): (key: string)
    ensures key in Categories <==> FirstYear <= r.year <= LastYear
  {
    IdxOfIsIndexOf(r.year);
    IntString(r.year)
  }

  /**
   * `Object.fromEntries(rows.map(r => [String(r.Year), r]))`: the entries are
   * written in input order, so a later record replaces an earlier one of the
   * same year.
   */
  function ByYear(rows: seq<Record>): (m: map<string, Record>)
    ensures forall y :: y in m <==> exists k :: 0 <= k < |rows| && YearKey(rows[k]) == y
    ensures forall y :: y in m ==> YearKey(m[y]) == y && m[y] in rows
  {
    if rows == [] then map[]
    else
      var last := rows[|rows| - 1];
      var prev := ByYear(rows[..|rows| - 1]);
      assert forall k :: 0 <= k < |rows| - 1 ==> rows[..|rows| - 1][k] == rows[k];
      prev[YearKey(last) := last]
  }

  /** The record that is filed under year `y`, when there is one (`byYear[y]`). */
  function Lookup(byYear: map<string, Record>, y: string): (r: Option<Record>)
    ensures r.Some? <==> y in byYear
  {
    if y in byYear then Some(byYear[y]) else None
  }

  /**
   * On a duplicate year the last record wins: a record that no later record
   * shares a year with is the one filed under its year.
   */
  lemma {:induction false} ByYearLastWins(rows: seq<Record>, j: int)
    requires 0 <= j < |rows|
    requires forall k :: j < k < |rows| ==> YearKey(rows[k]) != YearKey(rows[j])
    ensures YearKey(rows[j]) in ByYear(rows) && ByYear(rows)[YearKey(rows[j])] == rows[j]
  {
    if j < |rows| - 1 {
      var front := rows[..|rows| - 1];
      assert front[j] == rows[j];
      forall k | j < k < |front|
        ensures YearKey(front[k]) != YearKey(front[j])
      {
        assert front[k] == rows[k];
      }
      ByYearLastWins(front, j);
    }
  }

  /** A JS value's truthiness: `null`, `0` and the empty text are false. */
  predicate Truthy(v: FieldValue)
  {
    match v
    case Count(n) => n.Some? && n.value != 0
    case Text(s) => s != ""
  }

  /** `String(v)`: a field value as text. */
  function Str(v: FieldValue): (s: string)
    ensures v.Text? ==> s == v.s
    ensures v.Count? && v.n.Some? ==> s == IntString(v.n.value)
  {
    match v
    case Count(None) => "null"
    case Count(Some(n)) => IntString(n)
    case Text(s) => s
  }

  /** A truthy field never reads as empty text, so `String(v || '')` is "" only for a falsy one. */
  lemma TruthyText(v: FieldValue)
    requires Truthy(v)
    ensures Str(v) != ""
  {
  }

  /**
   * A count field of a year's record, read as `Number.isFinite(+v) ? +v : 0`
   * (and, equally on these values, `v || 0`): the count when the record has
   * one under `key`, and 0 when the year has no record, the field is missing
   * or `null`, or it holds text.
   */
  function CountField(rec: Option<Record>, key: string): (c: int)
    ensures rec.None? ==> c == 0
    ensures rec.Some? && key in rec.value.fields && rec.value.fields[key].Count? && rec.value.fields[key].n.Some?
      ==> c == rec.value.fields[key].n.value
    ensures c != 0 ==> rec.Some? && key in rec.value.fields && rec.value.fields[key] == Count(Some(c))
  {
    if rec.Some? && key in rec.value.fields && rec.value.fields[key].Count? && rec.value.fields[key].n.Some?
    then rec.value.fields[key].n.value
    else 0
  }
}
