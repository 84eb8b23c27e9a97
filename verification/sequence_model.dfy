/**
 The model-execution contract the naive decoder depends on: a stateless
 forward pass that maps a whole token history to one row of next-token
 scores per position, plus the tokenizer capabilities the decoder uses.
 Scores are integers standing in for the model's float16 logits.
 */
module SequenceModel {

  /** A vocabulary token identifier. */
  type TokenId = nat

  datatype Option<+T> = None | Some(value: T)

  /** A causal language model as the decoder sees it: `forward` is the whole
      (cache-free) forward pass, `vocabSize` the width of every score row. */
  datatype Model = Model(forward: seq<TokenId> -> seq<seq<int>>, vocabSize: nat)

  /** The tokenizer capabilities used by the decoder. Chat templating and
      detokenisation are opaque pure functions; a tokenizer may lack an
      end-of-sequence id. */
  datatype Tokenizer = Tokenizer(
    applyChatTemplate: string -> seq<TokenId>,
    decode: seq<TokenId> -> string,
    eosTokenId: Option<TokenId>)

  /** The executor bundles the loaded model with its tokenizer. */
  datatype Executor = Executor(model: Model, tokenizer: Tokenizer)

  /** `scores` is a `len` x `vocab` matrix. */
  predicate Shaped(scores: seq<seq<int>>, len: nat, vocab: nat) {
    |scores| == len && forall i :: 0 <= i < |scores| ==> |scores[i]| == vocab
  }

  /** The forward pass over `s` returns one score row per position of `s`,
      each as wide as the vocabulary. */
  predicate ShapedFor(m: Model, s: seq<TokenId>) {
    Shaped(m.forward(s), |s|, m.vocabSize)
  }

  /** What a loaded causal model promises: the vocabulary is non-empty and
      every non-empty history gets a correctly shaped score matrix. */
  ghost predicate Conforms(m: Model) {
    && m.vocabSize > 0
    && forall s: seq<TokenId> {:trigger m.forward(s)} :: |s| > 0 ==> ShapedFor(m, s)
  }

  /** The score row for the last position of `hist`, i.e. the prediction for
      the token that follows it. */
  function LastRow(m: Model, hist: seq<TokenId>): (row: seq<int>)
    requires Conforms(m)
    requires |hist| > 0
    ensures |row| == m.vocabSize
  {
    var scores := m.forward(hist);
    scores[|scores| - 1]
  }
}
