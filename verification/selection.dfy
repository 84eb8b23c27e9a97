/**
 Greedy token selection over one score row: the index of the first maximal
 score, which is the tie-break torch.argmax documents.
 */
module Selection {

  /** `k` holds a maximal score of `row` and no earlier index does. */
  predicate IsFirstMax(row: seq<int>, k: int) {
    && 0 <= k < |row|
    && (forall j :: 0 <= j < |row| ==> row[j] <= row[k])
    && (forall j :: 0 <= j < k ==> row[j] < row[k])
  }

  /** The lowest index among the maxima of a non-empty row (see
      ArgMaxIsFirstMax), found by scanning the row's prefixes. */
  function ArgMax(row: seq<int>): (k: nat)
    requires |row| > 0
    ensures k < |row|
    decreases |row|
  {
    if |row| == 1 then 0
    else
      var k := ArgMax(row[..|row| - 1]);
      if row[|row| - 1] > row[k] then |row| - 1 else k
  }

  /** The first maximum is unique, so any index with that property is the
      one ArgMax returns. */
  lemma FirstMaxUnique(row: seq<int>, a: int, b: int)
    requires IsFirstMax(row, a) && IsFirstMax(row, b)
    ensures a == b
  {
    assert row[a] == row[b];
  }

  /** ArgMax returns a first maximum. */
  lemma {:induction false} ArgMaxFirstMax(row: seq<int>)
    requires |row| > 0
    ensures IsFirstMax(row, ArgMax(row))
    decreases |row|
  {
    if |row| > 1 {
      var init := row[..|row| - 1];
      ArgMaxFirstMax(init);
      assert forall j :: 0 <= j < |init| ==> init[j] == row[j];
    }
  }

  /** ArgMax is characterised by IsFirstMax. */
  lemma ArgMaxIsFirstMax(row: seq<int>, k: int)
    requires |row| > 0
    ensures ArgMax(row) == k <==> IsFirstMax(row, k)
  {
    ArgMaxFirstMax(row);
    if IsFirstMax(row, k) {
      FirstMaxUnique(row, ArgMax(row), k);
    }
  }
}
