/**
 Greedy, cache-free autoregressive decoding: every step resubmits the whole
 token history to the model, takes the score row of the last position,
 picks its first maximum, stops on the end-of-sequence id and otherwise
 appends the token to the history and to the generated record.

 `Decode` is the recursive specification; `IsGreedyRun` is an independent,
 declarative description of the same run; `NaiveDecodeLoop` is the
 imperative loop, proved to compute what `Decode` specifies.
 */
module NaiveDecoder {
  import opened SequenceModel
  import opened Selection

  /** The default `max_new_tokens` of the generation entry point. */
  const DefaultMaxNewTokens: int := 50

  /** `t` is the tokenizer's end-of-sequence id. A tokenizer without one
      never matches, so such a run only ends on the budget. */
  predicate IsEos(eos: Option<TokenId>, t: TokenId) {
    eos == Some(t)
  }

  /** How many iterations `range(n)` performs. */
  function Budget(n: int): nat {
    if n <= 0 then 0 else n
  }

  /** The greedy choice after `hist`: the first maximum of its last score row. */
  function NextToken(m: Model, hist: seq<TokenId>): (t: TokenId)
    requires Conforms(m)
    requires |hist| > 0
    ensures t < m.vocabSize
  {
    ArgMax(LastRow(m, hist))
  }

  /** The greedy choice is a first maximum of the last score row. */
  lemma NextTokenIsFirstMax(m: Model, hist: seq<TokenId>)
    requires Conforms(m)
    requires |hist| > 0
    ensures IsFirstMax(LastRow(m, hist), NextToken(m, hist))
  {
    ArgMaxFirstMax(LastRow(m, hist));
  }

  /** What one run produces: the generated record, the history submitted to
      the model at each forward call (in call order), and whether the run
      ended by selecting the end-of-sequence id. */
  datatype Trace = Trace(generated: seq<TokenId>, submitted: seq<seq<TokenId>>, hitEos: bool)

  /** The run that starts from history `hist` with `n` iterations left. */
  function Decode(m: Model, eos: Option<TokenId>, hist: seq<TokenId>, n: int): (t: Trace)
    requires Conforms(m)
    requires |hist| > 0 || n <= 0
    ensures |t.generated| <= Budget(n)
    ensures |t.submitted| <= Budget(n)
    ensures n <= 0 ==> t.generated == [] && t.submitted == [] && !t.hitEos
    decreases Budget(n)
  {
    if n <= 0 then Trace([], [], false)
    else
      var tok := NextToken(m, hist);
      if IsEos(eos, tok) then Trace([], [hist], true)
      else
        var rest := Decode(m, eos, hist + [tok], n - 1);
        Trace([tok] + rest.generated, [hist] + rest.submitted, rest.hitEos)
  }

  /** One iteration of Decode: the end-of-sequence id ends the run with
      nothing appended, any other token is appended and the run continues
      from the extended history with one iteration fewer. */
  lemma DecodeStep(m: Model, eos: Option<TokenId>, hist: seq<TokenId>, n: int, left: int)
    requires Conforms(m)
    requires |hist| > 0 && n > 0 && left == n - 1
    ensures var tok := NextToken(m, hist);
      var t := Decode(m, eos, hist, n);
      && (IsEos(eos, tok) ==> t.generated == [] && t.submitted == [hist] && t.hitEos)
      && (!IsEos(eos, tok) ==>
            t.generated == [tok] + Decode(m, eos, hist + [tok], left).generated
            && t.submitted == [hist] + Decode(m, eos, hist + [tok], left).submitted
            && t.hitEos == Decode(m, eos, hist + [tok], left).hitEos)
  {
  }

  /** A declarative description of a greedy run from `hist` with budget `n`
      that produced `g` and stopped on the end-of-sequence id iff `hitEos`:
      each token is the first maximum of the last row for the history it
      followed and is not the end-of-sequence id; the run either selected
      the end-of-sequence id with budget to spare, or used the whole budget. */
  predicate IsGreedyRun(m: Model, eos: Option<TokenId>, hist: seq<TokenId>, n: int,
                        g: seq<TokenId>, hitEos: bool)
    requires Conforms(m)
    requires |hist| > 0 || n <= 0
  {
    && |g| <= Budget(n)
    && (forall i :: 0 <= i < |g| ==>
          IsFirstMax(LastRow(m, hist + g[..i]), g[i]) && !IsEos(eos, g[i]))
    && (if hitEos
        then |g| < Budget(n) && eos.Some? && IsFirstMax(LastRow(m, hist + g), eos.value)
        else |g| == Budget(n))
  }

  /** Moving the first generated token into the history keeps every
      history-plus-prefix the same sequence. */
  lemma ShiftPrefix(hist: seq<TokenId>, g: seq<TokenId>, i: nat)
    requires 0 < i <= |g|
    ensures (hist + [g[0]]) + g[1..][..i - 1] == hist + g[..i]
  {
    assert g[..i] == [g[0]] + g[1..][..i - 1];
  }

  /** A greedy run extended at the front by one accepted greedy choice is a
      greedy run with one more iteration of budget. */
  lemma GreedyRunCons(m: Model, eos: Option<TokenId>, hist: seq<TokenId>, n: int,
                      tok: TokenId, g: seq<TokenId>, hitEos: bool)
    requires Conforms(m)
    requires |hist| > 0 && n > 0
    requires IsFirstMax(LastRow(m, hist), tok) && !IsEos(eos, tok)
    requires IsGreedyRun(m, eos, hist + [tok], n - 1, g, hitEos)
    ensures IsGreedyRun(m, eos, hist, n, [tok] + g, hitEos)
  {
    var g' := [tok] + g;
    forall i | 0 <= i < |g'|
      ensures IsFirstMax(LastRow(m, hist + g'[..i]), g'[i]) && !IsEos(eos, g'[i])
    {
      if i == 0 {
        assert hist + g'[..0] == hist;
      } else {
        ShiftPrefix(hist, g', i);
      }
    }
    assert hist + g' == (hist + [tok]) + g;
  }

  /** Conversely, the tail of a non-empty greedy run is a greedy run from the
      history extended by its first token. */
  lemma GreedyRunTail(m: Model, eos: Option<TokenId>, hist: seq<TokenId>, n: int,
                      g: seq<TokenId>, hitEos: bool)
    requires Conforms(m)
    requires |hist| > 0 || n <= 0
    requires IsGreedyRun(m, eos, hist, n, g, hitEos)
    requires |g| > 0
    ensures n > 0 && |hist| > 0
    ensures IsFirstMax(LastRow(m, hist), g[0]) && !IsEos(eos, g[0])
    ensures IsGreedyRun(m, eos, hist + [g[0]], n - 1, g[1..], hitEos)
  {
    assert hist + g[..0] == hist;
    var h' := hist + [g[0]];
    var g' := g[1..];
    forall i | 0 <= i < |g'|
      ensures IsFirstMax(LastRow(m, h' + g'[..i]), g'[i]) && !IsEos(eos, g'[i])
    {
      assert IsFirstMax(LastRow(m, hist + g[..i + 1]), g[i + 1]) && !IsEos(eos, g[i + 1]);
      ShiftPrefix(hist, g, i + 1);
    }
    assert h' + g' == hist + g;
    assert |g'| <= Budget(n - 1);
  }

  /** Decode describes a greedy run. */
  lemma {:induction false} DecodeIsGreedyRun(m: Model, eos: Option<TokenId>, hist: seq<TokenId>, n: int)
    requires Conforms(m)
    requires |hist| > 0 || n <= 0
    ensures IsGreedyRun(m, eos, hist, n, Decode(m, eos, hist, n).generated, Decode(m, eos, hist, n).hitEos)
    decreases Budget(n)
  {
    if n > 0 {
      var tok := NextToken(m, hist);
      ArgMaxFirstMax(LastRow(m, hist));
      if IsEos(eos, tok) {
        assert hist + [] == hist;
      } else {
        var rest := Decode(m, eos, hist + [tok], n - 1);
        DecodeIsGreedyRun(m, eos, hist + [tok], n - 1);
        GreedyRunCons(m, eos, hist, n, tok, rest.generated, rest.hitEos);
      }
    }
  }

  /** Any greedy run is the one Decode computes: the declarative description
      determines the generated record and the stop reason. */
  lemma {:induction false} GreedyRunIsDecode(m: Model, eos: Option<TokenId>, hist: seq<TokenId>, n: int,
                                             g: seq<TokenId>, hitEos: bool)
    requires Conforms(m)
    requires |hist| > 0 || n <= 0
    requires IsGreedyRun(m, eos, hist, n, g, hitEos)
    ensures Decode(m, eos, hist, n).generated == g
    ensures Decode(m, eos, hist, n).hitEos == hitEos
    decreases Budget(n)
  {
    if n > 0 {
      var tok := NextToken(m, hist);
      ArgMaxFirstMax(LastRow(m, hist));
      DecodeStep(m, eos, hist, n, n - 1);
      if |g| == 0 {
        assert hist + g == hist;
        FirstMaxUnique(LastRow(m, hist), tok, eos.value);
      } else {
        GreedyRunTail(m, eos, hist, n, g, hitEos);
        FirstMaxUnique(LastRow(m, hist), tok, g[0]);
        GreedyRunIsDecode(m, eos, hist + [tok], n - 1, g[1..], hitEos);
        assert g == [tok] + g[1..];
      }
    }
  }

  /** Both directions at once: `(g, hitEos)` is a greedy run exactly when it
      is Decode's record and stop reason. */
  lemma DecodeCharacterised(m: Model, eos: Option<TokenId>, hist: seq<TokenId>, n: int,
                            g: seq<TokenId>, hitEos: bool)
    requires Conforms(m)
    requires |hist| > 0 || n <= 0
    ensures IsGreedyRun(m, eos, hist, n, g, hitEos)
        <==> (g == Decode(m, eos, hist, n).generated && hitEos == Decode(m, eos, hist, n).hitEos)
  {
    if IsGreedyRun(m, eos, hist, n, g, hitEos) {
      GreedyRunIsDecode(m, eos, hist, n, g, hitEos);
    } else {
      DecodeIsGreedyRun(m, eos, hist, n);
    }
  }

  /** The end-of-sequence id never enters the generated record. */
  lemma DecodeNeverEmitsEos(m: Model, eos: Option<TokenId>, hist: seq<TokenId>, n: int)
    requires Conforms(m)
    requires |hist| > 0 || n <= 0
    ensures forall i :: 0 <= i < |Decode(m, eos, hist, n).generated| ==>
              !IsEos(eos, Decode(m, eos, hist, n).generated[i])
  {
    DecodeIsGreedyRun(m, eos, hist, n);
  }

  /** Every generated token is a maximum of the last score row of the history
      it was computed from, and the lowest-index one among ties. */
  lemma DecodeIsGreedy(m: Model, eos: Option<TokenId>, hist: seq<TokenId>, n: int)
    requires Conforms(m)
    requires |hist| > 0 || n <= 0
    ensures var g := Decode(m, eos, hist, n).generated;
      forall i :: 0 <= i < |g| ==> g[i] < m.vocabSize
    ensures var g := Decode(m, eos, hist, n).generated;
      forall i :: 0 <= i < |g| ==>
        (forall j :: 0 <= j < m.vocabSize ==> LastRow(m, hist + g[..i])[j] <= LastRow(m, hist + g[..i])[g[i]])
        && (forall j :: 0 <= j < g[i] ==> LastRow(m, hist + g[..i])[j] < LastRow(m, hist + g[..i])[g[i]])
  {
    DecodeIsGreedyRun(m, eos, hist, n);
  }

  /** A run ends for one of two reasons: the end-of-sequence id was selected
      after fewer than `n` accepted tokens, or all `n` iterations accepted a
      token. A tokenizer without an end-of-sequence id always uses the whole
      budget. */
  lemma DecodeStopReason(m: Model, eos: Option<TokenId>, hist: seq<TokenId>, n: int)
    requires Conforms(m)
    requires |hist| > 0 || n <= 0
    ensures var t := Decode(m, eos, hist, n);
      && (t.hitEos ==> |t.generated| < n && IsEos(eos, NextToken(m, hist + t.generated)))
      && (!t.hitEos ==> |t.generated| == Budget(n))
      && (eos.None? ==> !t.hitEos)
  {
    DecodeIsGreedyRun(m, eos, hist, n);
    var t := Decode(m, eos, hist, n);
    if t.hitEos {
      ArgMaxIsFirstMax(LastRow(m, hist + t.generated), eos.value);
    }
  }

  /** If the very first selection is the end-of-sequence id, nothing is
      generated and the model was called exactly once. */
  lemma DecodeFirstEos(m: Model, eos: Option<TokenId>, hist: seq<TokenId>, n: int)
    requires Conforms(m)
    requires |hist| > 0
    requires n > 0
    requires eos.Some? && IsFirstMax(LastRow(m, hist), eos.value)
    ensures Decode(m, eos, hist, n).generated == []
    ensures Decode(m, eos, hist, n).hitEos
    ensures Decode(m, eos, hist, n).submitted == [hist]
  {
    ArgMaxIsFirstMax(LastRow(m, hist), eos.value);
  }

  /** Every forward call receives the entire current history: the k-th call
      sees the initial history followed by the first k generated tokens.
      There is one call per accepted token, plus the call that selected the
      end-of-sequence id. */
  lemma {:induction false} DecodeSubmitsWholeHistory(m: Model, eos: Option<TokenId>, hist: seq<TokenId>, n: int)
    requires Conforms(m)
    requires |hist| > 0 || n <= 0
    ensures var t := Decode(m, eos, hist, n);
      && |t.submitted| == |t.generated| + (if t.hitEos then 1 else 0)
      && (forall k :: 0 <= k < |t.submitted| ==> t.submitted[k] == hist + t.generated[..k])
    decreases Budget(n)
  {
    if n > 0 {
      var tok := NextToken(m, hist);
      if !IsEos(eos, tok) {
        var h' := hist + [tok];
        var rest := Decode(m, eos, h', n - 1);
        DecodeSubmitsWholeHistory(m, eos, h', n - 1);
        var t := Decode(m, eos, hist, n);
        var g := t.generated;
        assert g == [tok] + rest.generated;
        assert g[1..] == rest.generated;
        assert t.submitted == [hist] + rest.submitted;
        forall k | 0 <= k < |t.submitted|
          ensures t.submitted[k] == hist + g[..k]
        {
          if k == 0 {
            assert g[..0] == [];
          } else {
            assert t.submitted[k] == rest.submitted[k - 1];
            ShiftPrefix(hist, g, k);
          }
        }
      }
    }
  }

  /** The k-th forward call's input is `|hist| + k` tokens long, and each
      accepted step extends the next call's input by exactly the accepted
      token. */
  lemma DecodeGrowsByOne(m: Model, eos: Option<TokenId>, hist: seq<TokenId>, n: int)
    requires Conforms(m)
    requires |hist| > 0 || n <= 0
    ensures var t := Decode(m, eos, hist, n);
      && (forall k :: 0 <= k < |t.submitted| ==> |t.submitted[k]| == |hist| + k)
      && (forall k :: 0 <= k < |t.generated| && k + 1 < |t.submitted| ==> t.submitted[k + 1] == t.submitted[k] + [t.generated[k]])
  {
    DecodeSubmitsWholeHistory(m, eos, hist, n);
    var t := Decode(m, eos, hist, n);
    forall k | 0 <= k < |t.generated| && k + 1 < |t.submitted|
      ensures t.submitted[k + 1] == t.submitted[k] + [t.generated[k]]
    {
      assert t.generated[..k + 1] == t.generated[..k] + [t.generated[k]];
    }
  }

  /** Argmax indices lie in the vocabulary, so a run that starts from
      in-vocabulary ids only ever submits in-vocabulary ids to the model. */
  lemma {:induction false} DecodeStaysInVocabulary(m: Model, eos: Option<TokenId>, hist: seq<TokenId>, n: int)
    requires Conforms(m)
    requires |hist| > 0 || n <= 0
    ensures forall i :: 0 <= i < |Decode(m, eos, hist, n).generated| ==>
              Decode(m, eos, hist, n).generated[i] < m.vocabSize
    ensures (forall i :: 0 <= i < |hist| ==> hist[i] < m.vocabSize) ==>
              forall k, i :: 0 <= k < |Decode(m, eos, hist, n).submitted| && 0 <= i < |Decode(m, eos, hist, n).submitted[k]| ==>
                Decode(m, eos, hist, n).submitted[k][i] < m.vocabSize
    decreases Budget(n)
  {
    if n > 0 {
      var tok := NextToken(m, hist);
      if !IsEos(eos, tok) {
        DecodeStaysInVocabulary(m, eos, hist + [tok], n - 1);
      }
    }
  }

  /** A larger budget only extends a run: the shorter run's record is a
      prefix of the longer one's, and a run that already stopped on the
      end-of-sequence id is unchanged. */
  lemma {:induction false} DecodeBudgetMonotone(m: Model, eos: Option<TokenId>, hist: seq<TokenId>, n: int, n': int)
    requires Conforms(m)
    requires |hist| > 0 || n' <= 0
    requires n <= n'
    ensures Decode(m, eos, hist, n).generated <= Decode(m, eos, hist, n').generated
    ensures Decode(m, eos, hist, n).hitEos ==> Decode(m, eos, hist, n') == Decode(m, eos, hist, n)
    decreases Budget(n)
  {
    if n > 0 {
      var tok := NextToken(m, hist);
      if !IsEos(eos, tok) {
        var h' := hist + [tok];
        DecodeBudgetMonotone(m, eos, h', n - 1, n' - 1);
        var r := Decode(m, eos, h', n - 1);
        var r' := Decode(m, eos, h', n' - 1);
        assert Decode(m, eos, hist, n) == Trace([tok] + r.generated, [hist] + r.submitted, r.hitEos);
        assert Decode(m, eos, hist, n') == Trace([tok] + r'.generated, [hist] + r'.submitted, r'.hitEos);
      }
    }
  }

  /** The body of one loop iteration up to the stop check: resubmit the
      whole history, take the last position's score row, pick its first
      maximum, and report whether it is the end-of-sequence id. */
  method GreedyStep(m: Model, eos: Option<TokenId>, inputIds: seq<TokenId>)
    returns (nextTokenId: TokenId, atEos: bool)
    requires Conforms(m)
    requires |inputIds| > 0
    ensures nextTokenId < m.vocabSize
    ensures IsFirstMax(LastRow(m, inputIds), nextTokenId)
    ensures atEos <==> IsEos(eos, nextTokenId)
  {
    var currentIdsToProcess := inputIds;
    var logits := m.forward(currentIdsToProcess);
    var nextTokenLogits := logits[|logits| - 1];
    nextTokenId := ArgMax(nextTokenLogits);
    atEos := IsEos(eos, nextTokenId);
    NextTokenIsFirstMax(m, inputIds);
  }

  /** The text streamed for `ids`: one detokenised piece per token, in order. */
  function Pieces(decode: seq<TokenId> -> string, ids: seq<TokenId>): (r: seq<string>)
    ensures |r| == |ids|
    ensures forall i :: 0 <= i < |ids| ==> r[i] == decode([ids[i]])
  {
    seq(|ids|, i requires 0 <= i < |ids| => decode([ids[i]]))
  }

  lemma PiecesSnoc(decode: seq<TokenId> -> string, ids: seq<TokenId>, t: TokenId)
    ensures Pieces(decode, ids + [t]) == Pieces(decode, ids) + [decode([t])]
  {
  }

  /** Accepting `tok` after the records `g` and `c` moves it, and the history
      it was chosen for, from the remaining run into the records. */
  lemma SpliceStep(g: seq<TokenId>, c: seq<seq<TokenId>>, tok: TokenId, hist: seq<TokenId>,
                   rest: Trace, next: Trace)
    requires rest.generated == [tok] + next.generated
    requires rest.submitted == [hist] + next.submitted
    ensures g + rest.generated == (g + [tok]) + next.generated
    ensures c + rest.submitted == (c + [hist]) + next.submitted
  {
    assert g + ([tok] + next.generated) == (g + [tok]) + next.generated;
    assert c + ([hist] + next.submitted) == (c + [hist]) + next.submitted;
  }

  /** The decode loop of the generation entry point. `generated` is the
      record, `reachedEos` the stop flag, and `streamed` the text printed
      for each accepted token, in order. `calls` records the history passed
      to the model at each forward call. */
  method NaiveDecodeLoop(e: Executor, init: seq<TokenId>, maxNewTokens: int)
    returns (generated: seq<TokenId>, reachedEos: bool, streamed: seq<string>,
             ghost calls: seq<seq<TokenId>>)
    requires Conforms(e.model)
    requires |init| > 0 || maxNewTokens <= 0
    ensures generated == Decode(e.model, e.tokenizer.eosTokenId, init, maxNewTokens).generated
    ensures calls == Decode(e.model, e.tokenizer.eosTokenId, init, maxNewTokens).submitted
    ensures reachedEos == Decode(e.model, e.tokenizer.eosTokenId, init, maxNewTokens).hitEos
    ensures |streamed| == |generated|
    ensures forall i :: 0 <= i < |streamed| ==> streamed[i] == e.tokenizer.decode([generated[i]])
  {
    var m := e.model;
    var eos := e.tokenizer.eosTokenId;
    ghost var whole := Decode(m, eos, init, maxNewTokens);
    var inputIds := init;
    generated := [];
    streamed := [];
    reachedEos := false;
    calls := [];
    var step: nat := 0;
    ghost var left := maxNewTokens;
    ghost var rest := whole;
    while step < maxNewTokens
      invariant step <= Budget(maxNewTokens)
      invariant |generated| == step
      invariant left == maxNewTokens - step
      invariant inputIds == init + generated
      invariant rest == Decode(m, eos, inputIds, left)
      invariant whole.generated == generated + rest.generated
      invariant whole.submitted == calls + rest.submitted
      invariant whole.hitEos == rest.hitEos
      invariant streamed == Pieces(e.tokenizer.decode, generated)
      decreases maxNewTokens - step
    {
      var nextTokenId, atEos := GreedyStep(m, eos, inputIds);
      ArgMaxIsFirstMax(LastRow(m, inputIds), nextTokenId);
      ghost var left' := left - 1;
      ghost var next := Decode(m, eos, inputIds + [nextTokenId], left');
      DecodeStep(m, eos, inputIds, left, left');
      if atEos {
        calls := calls + [inputIds];
        reachedEos := true;
        break;
      }
      SpliceStep(generated, calls, nextTokenId, inputIds, rest, next);
      calls := calls + [inputIds];
      PiecesSnoc(e.tokenizer.decode, generated, nextTokenId);
      streamed := streamed + [e.tokenizer.decode([nextTokenId])];
      inputIds := inputIds + [nextTokenId];
      generated := generated + [nextTokenId];
      step := step + 1;
      left := left';
      rest := next;
    }
  }

  /** Generation entry point: format the prompt with the chat template, run
      the decode loop, and detokenise the record. The returned text depends
      only on the model, the end-of-sequence id, the template output and the
      budget; the streamed pieces do not feed back into it. */
  method GenerateTextNaively(e: Executor, prompt: string, maxNewTokens: int := DefaultMaxNewTokens)
    returns (finalText: string, streamed: seq<string>)
    requires Conforms(e.model)
    requires |e.tokenizer.applyChatTemplate(prompt)| > 0 || maxNewTokens <= 0
    ensures finalText == e.tokenizer.decode(
      Decode(e.model, e.tokenizer.eosTokenId, e.tokenizer.applyChatTemplate(prompt), maxNewTokens).generated)
    ensures streamed == Pieces(e.tokenizer.decode,
      Decode(e.model, e.tokenizer.eosTokenId, e.tokenizer.applyChatTemplate(prompt), maxNewTokens).generated)
    ensures |streamed| <= Budget(maxNewTokens)
    ensures maxNewTokens <= 0 ==> finalText == e.tokenizer.decode([]) && streamed == []
  {
    var inputIds := e.tokenizer.applyChatTemplate(prompt);
    var generatedTokenIds, _, pieces, _ := NaiveDecodeLoop(e, inputIds, maxNewTokens);
    streamed := pieces;
    finalText := e.tokenizer.decode(generatedTokenIds);
  }
}
