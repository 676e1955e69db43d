/**
 * Sequences built block by block: the heatmaps push, for each column (or row)
 * in turn, that column's points. These lemmas say what such a concatenation
 * holds and in which order, given a function `col` that names each element's
 * block.
 */
module Blocks {

  /** The elements of the first `n` blocks, one block after another. */
  function Concat<T>(blocks: seq<seq<T>>, n: nat): seq<T>
    requires n <= |blocks|
  {
    if n == 0 then [] else Concat(blocks, n - 1) + blocks[n - 1]
  }

  /** Block `k` holds elements of column `k` only. */
  ghost predicate Columned<T>(blocks: seq<seq<T>>, col: T -> nat) {
    forall k, i :: 0 <= k < |blocks| && 0 <= i < |blocks[k]| ==> col(blocks[k][i]) == k
  }

  /** Within each block, `key` increases strictly. */
  ghost predicate Increasing<T>(blocks: seq<seq<T>>, key: T -> int) {
    forall k, i, j :: 0 <= k < |blocks| && 0 <= i < j < |blocks[k]| ==> key(blocks[k][i]) < key(blocks[k][j])
  }

  /** Every element of the concatenation comes from the block of its own column, one of the first `n`. */
  lemma {:induction false} ConcatFrom<T>(blocks: seq<seq<T>>, n: nat, col: T -> nat)
    requires n <= |blocks| && Columned(blocks, col)
    ensures forall i :: 0 <= i < |Concat(blocks, n)| ==>
      col(Concat(blocks, n)[i]) < n && Concat(blocks, n)[i] in blocks[col(Concat(blocks, n)[i])]
  {
    if n > 0 {
      ConcatFrom(blocks, n - 1, col);
      var front := Concat(blocks, n - 1);
      var all := Concat(blocks, n);
      forall i | 0 <= i < |all|
        ensures col(all[i]) < n && all[i] in blocks[col(all[i])]
      {
        if i < |front| {
          assert all[i] == front[i];
        } else {
          assert all[i] == blocks[n - 1][i - |front|];
        }
      }
    }
  }

  /** Every element of the first `n` blocks is in their concatenation. */
  lemma {:induction false} ConcatHas<T>(blocks: seq<seq<T>>, n: nat, k: nat, j: nat)
    requires k < n <= |blocks| && j < |blocks[k]|
    ensures blocks[k][j] in Concat(blocks, n)
  {
    var front := Concat(blocks, n - 1);
    var all := Concat(blocks, n);
    assert all == front + blocks[n - 1];
    if k < n - 1 {
      ConcatHas(blocks, n - 1, k, j);
      var i :| 0 <= i < |front| && front[i] == blocks[k][j];
      assert all[i] == front[i];
    } else {
      assert all[|front| + j] == blocks[k][j];
    }
  }

  /**
   * Columned blocks in which `key` increases concatenate to a sequence
   * ordered by column, then by `key`.
   */
  lemma {:induction false} ConcatOrdered<T>(blocks: seq<seq<T>>, n: nat, col: T -> nat, key: T -> int)
    requires n <= |blocks| && Columned(blocks, col) && Increasing(blocks, key)
    ensures forall i, j :: 0 <= i < j < |Concat(blocks, n)| ==>
      || col(Concat(blocks, n)[i]) < col(Concat(blocks, n)[j])
      || (col(Concat(blocks, n)[i]) == col(Concat(blocks, n)[j]) && key(Concat(blocks, n)[i]) < key(Concat(blocks, n)[j]))
  {
    if n > 0 {
      ConcatOrdered(blocks, n - 1, col, key);
      ConcatFrom(blocks, n - 1, col);
      var front := Concat(blocks, n - 1);
      var block := blocks[n - 1];
      var all := Concat(blocks, n);
      forall i, j | 0 <= i < j < |all|
        ensures || col(all[i]) < col(all[j])
                || (col(all[i]) == col(all[j]) && key(all[i]) < key(all[j]))
      {
        if j < |front| {
          assert all[i] == front[i] && all[j] == front[j];
        } else if i < |front| {
          assert all[i] == front[i] && all[j] == block[j - |front|];
        } else {
          assert all[i] == block[i - |front|] && all[j] == block[j - |front|];
        }
      }
    }
  }

  /** The number of elements of `s` in column `x`. */
  function CountIn<T>(s: seq<T>, col: T -> nat, x: nat): nat {
    if s == [] then 0
    else CountIn(s[..|s| - 1], col, x) + (if col(s[|s| - 1]) == x then 1 else 0)
  }

  /** Counting a column distributes over concatenation. */
  lemma {:induction false} CountInAppend<T>(a: seq<T>, b: seq<T>, col: T -> nat, x: nat)
    ensures CountIn(a + b, col, x) == CountIn(a, col, x) + CountIn(b, col, x)
  {
    if b == [] {
      assert a + b == a;
    } else {
      assert (a + b)[..|a + b| - 1] == a + b[..|b| - 1];
      assert (a + b)[|a + b| - 1] == b[|b| - 1];
      CountInAppend(a, b[..|b| - 1], col, x);
    }
  }

  /** A column that no element lies in counts 0; one that every element lies in counts them all. */
  lemma {:induction false} CountInBounds<T>(s: seq<T>, col: T -> nat, x: nat)
    ensures (forall i :: 0 <= i < |s| ==> col(s[i]) != x) ==> CountIn(s, col, x) == 0
    ensures (forall i :: 0 <= i < |s| ==> col(s[i]) == x) ==> CountIn(s, col, x) == |s|
  {
    if s != [] {
      CountInBounds(s[..|s| - 1], col, x);
    }
  }

  /** Column `x` of the concatenation holds exactly block `x` (nothing when `x` is not among the first `n`). */
  lemma {:induction false} ConcatCount<T>(blocks: seq<seq<T>>, n: nat, col: T -> nat, x: nat)
    requires n <= |blocks| && Columned(blocks, col) && x < |blocks|
    ensures CountIn(Concat(blocks, n), col, x) == (if x < n then |blocks[x]| else 0)
  {
    if n > 0 {
      var front := Concat(blocks, n - 1);
      var block := blocks[n - 1];
      ConcatCount(blocks, n - 1, col, x);
      CountInAppend(front, block, col, x);
      CountInBounds(block, col, x);
      if x == n - 1 {
        assert CountIn(block, col, x) == |block|;
      } else {
        assert CountIn(block, col, x) == 0;
      }
    }
  }
}
