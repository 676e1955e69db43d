/**
 * The shared year axis of every chart (app.js:28-33): thirty-one labels,
 * "1995" to "2025", and `idxOf`, which finds a year's position on it.
 */
module YearAxis {
  import opened Strings

  const FirstYear := 1995
  const LastYear := 2025

  /**
   * The category labels in axis order: "1995", "1996", ..., "2025", each the
   * decimal text of its year.
   */
  const Categories: seq<string> := YearLabels(FirstYear, LastYear - FirstYear + 1)

  /** The labels of `count` consecutive years starting at `first`. */
  function YearLabels(first: int, count: nat): (r: seq<string>)
    ensures |r| == count
    ensures forall i :: 0 <= i < count ==> r[i] == IntString(first + i)
  {
    seq(count, i => IntString(first + i))
  }

  /** The axis has thirty-one labels and runs from "1995" to "2025". */
  lemma CategoryLabels()
    ensures |Categories| == 31
    ensures Categories[0] == "1995" && Categories[30] == "2025"
  {
    assert Categories[0] == IntString(1995);
    assert Categories[30] == IntString(2025);
  }

  /** `Array.prototype.indexOf`: the first position holding `x`, or -1. */
  function IndexOf(s: seq<string>, x: string): (r: int)
    ensures -1 <= r < |s|
    ensures r == -1 <==> x !in s
    ensures 0 <= r ==> s[r] == x && x !in s[..r]
  {
    if s == [] then -1
    else if s[0] == x then 0
    else
      var k := IndexOf(s[1..], x);
      assert s[1..][..if k < 0 then 0 else k] == s[1..if k < 0 then 1 else k + 1];
      if k < 0 then -1 else k + 1
  }

  /**
   * `idxOf(y)`: the position of year `y` on the axis, or -1 for a year that
   * is not on it. IdxOfIsIndexOf shows that this is `categories.indexOf(String(y))`.
   */
  function IdxOf(year: int): (r: int)
    ensures -1 <= r < |Categories|
    ensures r == -1 <==> year < FirstYear || LastYear < year
  {
    if FirstYear <= year <= LastYear then year - FirstYear else -1
  }

  /**
   * `idxOf(y)` is `categories.indexOf(String(y))`: the first label equal to the
   * year's decimal text, -1 when no label is.
   */
  lemma IdxOfIsIndexOf(year: int)
    ensures IdxOf(year) == IndexOf(Categories, IntString(year))
    ensures IdxOf(year) >= 0 ==> Categories[IdxOf(year)] == IntString(year)
  {
    IndexOfLabel(Categories, FirstYear, year);
  }

  /**
   * In the labels of consecutive years starting at `first`, the text of `year`
   * sits at offset `year - first`, and is absent when that offset is off the list.
   */
  lemma IndexOfLabel(labels: seq<string>, first: int, year: int)
    requires forall i :: 0 <= i < |labels| ==> labels[i] == IntString(first + i)
    ensures IndexOf(labels, IntString(year)) == if first <= year < first + |labels| then year - first else -1
  {
    if IndexOf(labels, IntString(year)) >= 0 {
      FoundAtOffset(labels, first, year);
    } else {
      AbsentOffAxis(labels, first, year);
    }
  }

  lemma FoundAtOffset(labels: seq<string>, first: int, year: int)
    requires forall i :: 0 <= i < |labels| ==> labels[i] == IntString(first + i)
    requires IndexOf(labels, IntString(year)) >= 0
    ensures IndexOf(labels, IntString(year)) == year - first
  {
    var r := IndexOf(labels, IntString(year));
    LabelNamesItsYear(labels, first, year, r);
  }

  lemma AbsentOffAxis(labels: seq<string>, first: int, year: int)
    requires forall i :: 0 <= i < |labels| ==> labels[i] == IntString(first + i)
    requires IndexOf(labels, IntString(year)) < 0
    ensures !(first <= year < first + |labels|)
  {
    if first <= year < first + |labels| {
      IndexOfFinds(labels, year - first, IntString(year));
    }
  }

  /** A label that reads as the text of `year` is the one at offset `year - first`. */
  lemma LabelNamesItsYear(labels: seq<string>, first: int, year: int, r: int)
    requires 0 <= r < |labels| && labels[r] == IntString(first + r)
    requires labels[r] == IntString(year)
    ensures r == year - first
  {
    IntStringInjective(first + r, year);
  }

  /** `indexOf` finds every element that is present. */
  lemma IndexOfFinds(s: seq<string>, i: int, x: string)
    requires 0 <= i < |s| && s[i] == x
    ensures 0 <= IndexOf(s, x) <= i
  {
  }
}
