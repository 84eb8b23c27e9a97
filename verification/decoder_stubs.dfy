/**
 Runs of the naive decoder against two deterministic stub models: one that
 always predicts the end-of-sequence id, and one whose prediction after a
 history of length L is token L mod V. The second pins down the
 append-and-resubmit policy: each step sees a history one token longer.
 */
module DecoderStubs {
  import opened SequenceModel
  import opened Selection
  import opened NaiveDecoder

  /** A score row of width `vocab` whose unique maximum is at `hot`. */
  function OneHot(vocab: nat, hot: int): (row: seq<int>)
    ensures |row| == vocab
  {
    seq(vocab, j => if j == hot then 1 else 0)
  }

  lemma OneHotArgMax(vocab: nat, hot: int)
    requires 0 <= hot < vocab
    ensures ArgMax(OneHot(vocab, hot)) == hot
  {
    ArgMaxIsFirstMax(OneHot(vocab, hot), hot);
  }

  /** Position i of every history predicts token `pick(i + 1)`, so the last
      row of a history of length L predicts `pick(L)`. */
  function PositionalModel(vocab: nat, pick: int -> int): Model {
    Model(s => seq(|s|, i => OneHot(vocab, pick(i + 1))), vocab)
  }

  /** The stub whose prediction after a history of length L is L mod `vocab`. */
  function CountingModel(vocab: nat): Model
    requires vocab > 0
  {
    PositionalModel(vocab, l => l % vocab)
  }

  /** Every position of every history predicts `eosId`. */
  function EosModel(vocab: nat, eosId: TokenId): Model {
    Model(s => seq(|s|, i => OneHot(vocab, eosId)), vocab)
  }

  /** The greedy choice after any history depends only on its length. */
  ghost predicate PredictsByLength(m: Model, pick: int -> int)
    requires Conforms(m)
  {
    forall s: seq<TokenId> {:trigger NextToken(m, s)} :: |s| > 0 ==> NextToken(m, s) == pick(|s|)
  }

  /** A positional model over a non-empty vocabulary conforms to the
      forward-pass contract and its greedy choice after a history of length
      L is `pick(L)`. */
  lemma PositionalModelPredicts(vocab: nat, pick: int -> int)
    requires vocab > 0
    requires forall l :: 0 <= pick(l) < vocab
    ensures Conforms(PositionalModel(vocab, pick))
    ensures PredictsByLength(PositionalModel(vocab, pick), pick)
  {
    var m := PositionalModel(vocab, pick);
    forall s: seq<TokenId> | |s| > 0
      ensures ShapedFor(m, s)
    {
      assert |m.forward(s)| == |s|;
    }
    forall s: seq<TokenId> | |s| > 0
      ensures NextToken(m, s) == pick(|s|)
    {
      assert LastRow(m, s) == OneHot(vocab, pick(|s|));
      OneHotArgMax(vocab, pick(|s|));
    }
  }

  /** When the greedy choice depends only on the history's length and is
      never the end-of-sequence id, the run uses its whole budget and the
      token accepted at step k is `pick(L0 + k)`: each step resubmits a
      history exactly one token longer than the previous one. */
  lemma {:induction false} PositionalRun(m: Model, pick: int -> int, eos: Option<TokenId>,
                                         hist: seq<TokenId>, n: int)
    requires Conforms(m)
    requires PredictsByLength(m, pick)
    requires eos.None? || forall l :: pick(l) != eos.value
    requires |hist| > 0
    ensures var g := Decode(m, eos, hist, n).generated;
      |g| == Budget(n) && forall k :: 0 <= k < |g| ==> g[k] == pick(|hist| + k)
    ensures !Decode(m, eos, hist, n).hitEos
    decreases Budget(n)
  {
    if n > 0 {
      var tok := NextToken(m, hist);
      assert tok == pick(|hist|);
      PositionalRun(m, pick, eos, hist + [tok], n - 1);
      DecodeStep(m, eos, hist, n, n - 1);
      var rest := Decode(m, eos, hist + [tok], n - 1).generated;
      var g := Decode(m, eos, hist, n).generated;
      assert g == [tok] + rest;
      forall k | 1 <= k < |g|
        ensures g[k] == pick(|hist| + k)
      {
        assert |hist + [tok]| + (k - 1) == |hist| + k;
        assert g[k] == rest[k - 1];
      }
    }
  }

  /** With an end-of-sequence id outside the vocabulary (or none), the
      counting model makes the run emit L0 mod V, (L0 + 1) mod V, ... for
      the whole budget, where L0 is the initial history's length. */
  lemma CountingRun(vocab: nat, eos: Option<TokenId>, hist: seq<TokenId>, n: int)
    requires vocab > 0
    requires |hist| > 0
    requires eos.None? || eos.value >= vocab
    ensures Conforms(CountingModel(vocab))
    ensures var g := Decode(CountingModel(vocab), eos, hist, n).generated;
      |g| == Budget(n) && forall k :: 0 <= k < |g| ==> g[k] == (|hist| + k) % vocab
    ensures !Decode(CountingModel(vocab), eos, hist, n).hitEos
  {
    var pick: int -> int := l => l % vocab;
    PositionalModelPredicts(vocab, pick);
    PositionalRun(CountingModel(vocab), pick, eos, hist, n);
  }

  /** A model that always predicts the end-of-sequence id makes every run
      with a positive budget call the model once and generate nothing. */
  lemma AlwaysEosRun(vocab: nat, eosId: TokenId, hist: seq<TokenId>, n: int)
    requires eosId < vocab
    requires |hist| > 0
    requires n > 0
    ensures Conforms(EosModel(vocab, eosId))
    ensures Decode(EosModel(vocab, eosId), Some(eosId), hist, n) == Trace([], [hist], true)
  {
    var m := EosModel(vocab, eosId);
    forall s: seq<TokenId> | |s| > 0
      ensures ShapedFor(m, s)
    {
    }
    assert LastRow(m, hist) == OneHot(vocab, eosId);
    OneHotArgMax(vocab, eosId);
  }
}
