# BlazeInfer naive decoder, modelled in Dafny

BlazeInfer's baseline generator (`generate_text_naively`) decodes greedily
with no KV cache. It formats the prompt with the tokenizer's chat template
and then runs up to `max_new_tokens` iterations. Each iteration passes the
whole token history (prompt plus generated tokens) to the model's forward
pass and takes the logits row of the last position. It picks that row's
argmax. If the argmax is the tokenizer's end-of-sequence id, the loop stops
without appending it. Otherwise the token is appended to the history and to
the generated record, and its text is printed. At the end the record is
detokenised.

The project models that loop:

- `sequence_model.dfy` (module `SequenceModel`): the executor as the
  decoder sees it. The forward pass is an abstract total function from a
  token history to a score matrix, with integer scores in place of float16
  logits. `Conforms` states the forward contract: one row per position,
  each as wide as the non-empty vocabulary. Chat templating and
  detokenisation are opaque functions in the `Tokenizer` datatype. The
  end-of-sequence id is optional, because Hugging Face tokenizers may
  have none.
- `selection.dfy` (module `Selection`): argmax over a score row, with the
  first-maximum tie-break that `torch.argmax` documents.
- `naive_decoder.dfy` (module `NaiveDecoder`):
  - `Decode` is the recursive specification of a run. It returns the
    generated record, the history given to each forward call, and whether
    the run stopped on the end-of-sequence id.
  - `IsGreedyRun` describes the same run declaratively.
    `DecodeCharacterised` proves the two agree in both directions.
  - `NaiveDecodeLoop` mirrors the Python `for` loop, including the `break`
    and the per-token printing. It is proved equal to `Decode`.
  - `GenerateTextNaively` is the entry point.
- `decoder_stubs.dfy` (module `DecoderStubs`): runs against two
  deterministic stub models. One always predicts the end-of-sequence id.
  The other predicts token L mod V after a history of length L.

## Model

| member | source | states |
|---|---|---|
| SequenceModel.LastRow | blazeinfer/generate.py:54 | For a conforming model and a non-empty history, the last position's score row is exactly vocabulary-wide. |
| Selection.ArgMaxFirstMax | blazeinfer/generate.py:60 | The selected index holds a maximal score, and every earlier index scores strictly less (first-maximum tie-break). |
| Selection.ArgMaxIsFirstMax | blazeinfer/generate.py:60 | ArgMax returns k if and only if k is the first maximum of the row, so the selection is fully determined by the scores. |
| Selection.FirstMaxUnique | blazeinfer/generate.py:60 | A row has at most one first-maximum index. |
| NaiveDecoder.NextTokenIsFirstMax | blazeinfer/generate.py:54-60 | The greedy choice after a history is the first maximum of that history's last score row. |
| NaiveDecoder.Decode | blazeinfer/generate.py:38-76 | A run never generates more tokens, or calls the model more times, than `max(max_new_tokens, 0)`. A non-positive budget calls the model zero times and generates nothing. |
| NaiveDecoder.DecodeIsGreedyRun | blazeinfer/generate.py:38-76 | Decode's record and stop flag satisfy the declarative greedy-run description. |
| NaiveDecoder.GreedyRunIsDecode | blazeinfer/generate.py:38-76 | Any record and stop flag satisfying the greedy-run description equal Decode's, so the run is determined by the history, the budget, the model and the end-of-sequence id. |
| NaiveDecoder.DecodeCharacterised | blazeinfer/generate.py:38-76 | A record and stop flag form a greedy run if and only if they are Decode's. |
| NaiveDecoder.DecodeNeverEmitsEos | blazeinfer/generate.py:64-76 | The end-of-sequence id never appears in the generated record. |
| NaiveDecoder.DecodeIsGreedy | blazeinfer/generate.py:54-60 | Every generated token is in the vocabulary. It holds a maximum of the last score row of the history it followed, and no lower index ties it. |
| NaiveDecoder.DecodeStopReason | blazeinfer/generate.py:38-66 | The run either stops because the argmax of the full history was the end-of-sequence id, with fewer than `max_new_tokens` tokens, or it accepts exactly `max(max_new_tokens, 0)` tokens. Without an end-of-sequence id it always uses the whole budget. |
| NaiveDecoder.DecodeFirstEos | blazeinfer/generate.py:64-66 | If the first selection is the end-of-sequence id, nothing is generated and the model is called exactly once. |
| NaiveDecoder.DecodeSubmitsWholeHistory | blazeinfer/generate.py:44-48 | The k-th forward call receives the initial history followed by the first k generated tokens. There is one call per accepted token, plus one more when the run stopped on the end-of-sequence id. |
| NaiveDecoder.DecodeGrowsByOne | blazeinfer/generate.py:72-76 | The k-th call's input has length `len(initial) + k`. Each accepted step extends the next call's input by exactly the accepted token. |
| NaiveDecoder.DecodeStaysInVocabulary | blazeinfer/generate.py:60-72 | Generated ids lie in `[0, vocab_size)`. A run that starts from in-vocabulary ids only submits in-vocabulary ids to the model. |
| NaiveDecoder.DecodeBudgetMonotone | blazeinfer/generate.py:38 | A larger budget only extends the record: the smaller budget's record is a prefix of the larger one's. A run that stopped on the end-of-sequence id is the same under any larger budget. |
| NaiveDecoder.GreedyStep | blazeinfer/generate.py:44-64 | One iteration up to the stop check: the chosen token is in the vocabulary and is the first maximum of the last score row that the model returns for the whole current history. The stop flag holds exactly when that token is the end-of-sequence id. |
| NaiveDecoder.NaiveDecodeLoop | blazeinfer/generate.py:35-79 | The imperative loop returns Decode's record and stop flag. It passes the model exactly the histories Decode submits, in the same order, so it passes none when the budget is non-positive. It prints exactly one detokenised piece per accepted token, in order. |
| NaiveDecoder.GenerateTextNaively | blazeinfer/generate.py:9-83 | The returned text is the detokenisation of Decode's record for the chat-templated prompt. The streamed pieces are exactly `decode([t])` for each token t of that record, in order. The budget defaults to 50. A non-positive budget returns the detokenisation of the empty record and prints nothing. |
| DecoderStubs.PositionalModelPredicts | blazeinfer/generate.py:54-60 | For a stub whose row at position i has its unique maximum at `pick(i + 1)`, the greedy choice after a history of length L is `pick(L)`. |
| DecoderStubs.PositionalRun | blazeinfer/generate.py:38-76 | If the greedy choice depends only on the history's length and is never the end-of-sequence id, the run uses its whole budget and the k-th token is `pick(L0 + k)`. This shows that each step resubmits a history exactly one token longer. |
| DecoderStubs.CountingRun | blazeinfer/generate.py:38-76 | With the counting stub and no in-vocabulary end-of-sequence id, the run produces `(L0 + k) mod V` for k = 0 .. `max_new_tokens` - 1. |
| DecoderStubs.AlwaysEosRun | blazeinfer/generate.py:64-66 | A stub that always predicts the end-of-sequence id makes any run with a positive budget call the model once and return an empty record. |

## Left out

- Model and tokenizer loading, device selection, float16 weights, `eval()` and `no_grad`
  (blazeinfer/executor/model_executor.py): replaced by the abstract forward function
  and its `Conforms` shape contract.
- The command-line entry point and its exception-to-log reporting (blazeinfer/main.py): I/O plumbing.
- Logging setup and the debug/info log lines: they have no effect on the result.
- Chat templating and detokenisation: foreign tokenizer calls, kept as opaque pure
  functions of the `Tokenizer` datatype. That calling the template twice gives the
  same sequence holds by construction, since the functions are pure.
- Float16 numerics, NaN handling in `torch.argmax`, and int64 token width: scores are
  unbounded integers and token ids are naturals.
- The batch dimension: the code assumes batch size 1, so a single sequence is modelled.
- Errors from the forward pass: any exception propagates and the local record is lost.
  The code defines no error kinds, does not validate `max_new_tokens`, and returns no
  partial result, so the model has none of these. `Decode` instead requires a
  conforming model (`Conforms`), plus a non-empty initial history whenever the loop
  would run. A non-positive `max_new_tokens` is accepted and gives zero iterations,
  as `range` does.
- Context-length and embedding limits: `Conforms` treats the forward pass as total on
  every non-empty history, whatever its length or ids. The real model raises once the
  history outgrows its position window (1024 positions for gpt2), or on an id outside
  its embedding table. So a run where `len(initial) + max_new_tokens` exceeds the
  window is not modelled, although the code raises on it. On such runs,
  `DecodeStopReason`'s "uses the whole budget" holds only for this idealised model.
- Where the time of printing matters: printing is modelled as the returned
  sequence of pieces. Its interleaving with forward calls is not observable here,
  because the forward function is pure.
