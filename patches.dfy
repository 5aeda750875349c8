/**
 * The effect of `for key, value in kwargs.items(): setattr(row, key, value)`:
 * the writes of a patch applied to a row one after the other. A write names
 * one column; `put` performs it.
 */
module Patches {

  /** The row after every write of `writes`, in order, has been performed on `row`. */
  function Apply<R, W>(row: R, writes: seq<W>, put: (R, W) -> R): R
    decreases |writes|
  {
    if writes == [] then row
    else put(Apply(row, writes[..|writes| - 1], put), writes[|writes| - 1])
  }

  /** Performing one more write of the patch: what one turn of the `kwargs` loop does. */
  lemma ApplyOneMore<R, W>(row: R, writes: seq<W>, i: nat, put: (R, W) -> R)
    requires i < |writes|
    ensures Apply(row, writes[..i + 1], put) == put(Apply(row, writes[..i], put), writes[i])
  {
    assert writes[..i + 1][..i] == writes[..i];
  }

  /** The value the last write naming column `col` writes, or `unwritten` when no write names it. */
  function LastWritten<W, C(==), V>(writes: seq<W>, column: W -> C, value: W -> V, col: C, unwritten: V): V
    decreases |writes|
  {
    if writes == [] then unwritten
    else if column(writes[|writes| - 1]) == col then value(writes[|writes| - 1])
    else LastWritten(writes[..|writes| - 1], column, value, col, unwritten)
  }

  /** A column that no write names keeps its value. */
  lemma {:induction false} LastWrittenUnnamed<W, C, V>(writes: seq<W>, column: W -> C, value: W -> V, col: C, unwritten: V)
    requires forall i :: 0 <= i < |writes| ==> column(writes[i]) != col
    ensures LastWritten(writes, column, value, col, unwritten) == unwritten
  {
    if writes != [] {
      LastWrittenUnnamed(writes[..|writes| - 1], column, value, col, unwritten);
    }
  }

  /** A column takes the value of the last write that names it. */
  lemma {:induction false} LastWrittenWins<W, C, V>(writes: seq<W>, column: W -> C, value: W -> V, i: nat, unwritten: V)
    requires i < |writes|
    requires forall j :: i < j < |writes| ==> column(writes[j]) != column(writes[i])
    ensures LastWritten(writes, column, value, column(writes[i]), unwritten) == value(writes[i])
  {
    if i < |writes| - 1 {
      LastWrittenWins(writes[..|writes| - 1], column, value, i, unwritten);
    }
  }

  /**
   * When each write sets exactly the column it names, every column of the
   * patched row holds the value last written to it, or its old value when the
   * patch does not name it.
   */
  lemma {:induction false} ApplyCells<R, W, C, V>(row: R, writes: seq<W>, put: (R, W) -> R, cell: (R, C) -> V, column: W -> C, value: W -> V, col: C)
    requires forall r, w :: cell(put(r, w), column(w)) == value(w)
    requires forall r, w, c :: c != column(w) ==> cell(put(r, w), c) == cell(r, c)
    ensures cell(Apply(row, writes, put), col) == LastWritten(writes, column, value, col, cell(row, col))
  {
    if writes != [] {
      ApplyCells(row, writes[..|writes| - 1], put, cell, column, value, col);
    }
  }

  /** A property of the row that no write changes (its key) survives the whole patch. */
  lemma {:induction false} ApplyKeeps<R, W, K>(row: R, writes: seq<W>, put: (R, W) -> R, key: R -> K)
    requires forall r, w :: key(put(r, w)) == key(r)
    ensures key(Apply(row, writes, put)) == key(row)
  {
    if writes != [] {
      ApplyKeeps(row, writes[..|writes| - 1], put, key);
    }
  }
}
