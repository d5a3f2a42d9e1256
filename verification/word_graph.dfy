/** `AutoComplete._generate_word_map`: one left-to-right pass over the token list that
    counts adjacent pairs and keeps, per predecessor, the successor whose running count
    first rose above the best count seen so far. */
module WordGraph {
  import opened Structs

  /* ---------------------------------------------------------------------------------
     Counting over the corpus
     --------------------------------------------------------------------------------- */

  /** Number of adjacent pairs, `len(range(len(corpus) - 1))`. */
  function NumPairs(corpus: seq<Word>): nat
  {
    if |corpus| == 0 then 0 else |corpus| - 1
  }

  /** Number of positions `i < k` at which `w` is immediately followed by `s`. */
  function PairCount(corpus: seq<Word>, k: nat, w: Word, s: Word): nat
    requires k <= NumPairs(corpus)
  {
    if k == 0 then 0
    else PairCount(corpus, k - 1, w, s) + (if corpus[k - 1] == w && corpus[k] == s then 1 else 0)
  }

  /** The count of the pair at position `j` right after the pass has counted it. */
  function RunningCount(corpus: seq<Word>, j: nat): nat
    requires j < NumPairs(corpus)
  {
    PairCount(corpus, j + 1, corpus[j], corpus[j + 1])
  }

  /** The words at the first `k` pair positions. */
  ghost function Predecessors(corpus: seq<Word>, k: nat): set<Word>
    requires k <= NumPairs(corpus)
  {
    set i | 0 <= i < k :: corpus[i]
  }

  /* ---------------------------------------------------------------------------------
     The pass
     --------------------------------------------------------------------------------- */

  /** The two dictionaries the pass updates: `word_map` and `predictions`. */
  datatype PassState = PassState(wordMap: WordMap, predictions: Predictions)

  /** Lines 132-139: count one more `next` after `w`. */
  function Bump(wm: WordMap, w: Word, next: Word): WordMap
  {
    var g := if w in wm then wm[w] else map[];
    wm[w := g[next := CountOf(g, next) + 1]]
  }

  /** Lines 141-149: make sure `w` has an entry, then replace it when the pair's count `n`
      is strictly greater than the entry's count. */
  function Track(preds: Predictions, w: Word, next: Word, n: nat): (r: Predictions)
    ensures r.Keys == preds.Keys + {w}
    ensures forall v :: v in preds && v != w ==> r[v] == preds[v]
    ensures r[w].count >= n && r[w].count >= PriorOf(preds, w).count
    ensures r[w] == PriorOf(preds, w) || r[w] == Prediction(next, n)
    ensures r[w] != PriorOf(preds, w) <==> n > PriorOf(preds, w).count
  {
    var p := PriorOf(preds, w);
    preds[w := if n > p.count then Prediction(next, n) else p]
  }

  /** One iteration of the loop at core/autocomplete.py:131-149 for the pair `(w, next)`. */
  function Step(st: PassState, w: Word, next: Word): (r: PassState)
    ensures w in r.wordMap && next in r.wordMap[w]
    ensures r.wordMap[w][next] == (if w in st.wordMap then CountOf(st.wordMap[w], next) else 0) + 1
    ensures w in r.predictions && r.predictions[w].count >= r.wordMap[w][next]
  {
    var wm := Bump(st.wordMap, w, next);
    PassState(wm, Track(st.predictions, w, next, wm[w][next]))
  }

  /** The state after the first `k` iterations, starting from an empty `word_map` and the
      stored predictions. */
  function Scan(corpus: seq<Word>, priors: Predictions, k: nat): PassState
    requires k <= NumPairs(corpus)
  {
    if k == 0 then PassState(map[], priors)
    else Step(Scan(corpus, priors, k - 1), corpus[k - 1], corpus[k])
  }

  /* ---------------------------------------------------------------------------------
     What the pass computes
     --------------------------------------------------------------------------------- */

  /** `wm` holds exactly the pair counts of the first `k` positions. */
  ghost predicate CountsMatch(corpus: seq<Word>, k: nat, wm: WordMap)
    requires k <= NumPairs(corpus)
  {
    && wm.Keys == Predecessors(corpus, k)
    && (forall w, s :: w !in wm ==> PairCount(corpus, k, w, s) == 0)
    && (forall w, s :: w in wm ==> (s in wm[w] <==> PairCount(corpus, k, w, s) > 0))
    && (forall w, s :: w in wm && s in wm[w] ==> wm[w][s] == PairCount(corpus, k, w, s))
  }

  /** At position `j` the pair `(w, p.prediction)` reaches count `p.count`, and no earlier
      pair starting with `w` had reached that count. */
  ghost predicate ReachesFirst(corpus: seq<Word>, j: nat, w: Word, p: Prediction)
    requires j < NumPairs(corpus)
  {
    && corpus[j] == w
    && corpus[j + 1] == p.prediction
    && RunningCount(corpus, j) == p.count
    && forall j' :: 0 <= j' < j && corpus[j'] == w ==> RunningCount(corpus, j') < p.count
  }

  /** `p` is what the strict-`>` tracker holds for `w` after `k` positions: it is at least
      the prior, no running count of a `w`-pair exceeded it, and it is either the prior
      itself or the first pair that reached its count. */
  ghost predicate TrackedBest(corpus: seq<Word>, priors: Predictions, k: nat, w: Word, p: Prediction)
    requires k <= NumPairs(corpus)
  {
    && p.count >= PriorOf(priors, w).count
    && (forall j :: 0 <= j < k && corpus[j] == w ==> RunningCount(corpus, j) <= p.count)
    && (|| p == PriorOf(priors, w)
        || (p.count > PriorOf(priors, w).count && exists j :: 0 <= j < k && ReachesFirst(corpus, j, w, p)))
  }

  ghost predicate PredictionsMatch(corpus: seq<Word>, priors: Predictions, k: nat, preds: Predictions)
    requires k <= NumPairs(corpus)
  {
    && preds.Keys == priors.Keys + Predecessors(corpus, k)
    && (forall w :: w in priors && w !in Predecessors(corpus, k) ==> preds[w] == priors[w])
    && (forall w :: w in preds ==> TrackedBest(corpus, priors, k, w, preds[w]))
  }

  /** `p.count` is the larger of the prior count and the largest count in `g`, and unless it
      equals the prior count, `p.prediction` is a successor in `g` with that count. */
  predicate IsMaxPrediction(prior: Prediction, g: Graph, p: Prediction)
  {
    && p.count >= prior.count
    && (forall s :: s in g ==> g[s] <= p.count)
    && (p.count == prior.count || (p.prediction in g && g[p.prediction] == p.count))
  }

  /** `_generate_word_map(corpus, predictions_doc)` (core/autocomplete.py:125-151), with the
      stored predictions passed in as `priors`. */
  function GenerateWordMap(corpus: seq<Word>, priors: Predictions): (r: PassState)
    ensures r.predictions.Keys == priors.Keys + r.wordMap.Keys
    ensures forall w :: w in r.wordMap ==> w in corpus
    ensures forall w :: w in priors && w !in r.wordMap ==> r.predictions[w] == priors[w]
    ensures |corpus| <= 1 ==> r == PassState(map[], priors)
  {
    ScanInvariant(corpus, priors, NumPairs(corpus));
    Scan(corpus, priors, NumPairs(corpus))
  }

  /** The word map of the pass: its keys are the tokens at positions 0..n-2, and it maps
      `w` to `s` exactly when the pair occurs, with the number of its occurrences. */
  lemma WordMapCounts(corpus: seq<Word>, priors: Predictions)
    ensures var wm := GenerateWordMap(corpus, priors).wordMap;
            && wm.Keys == (set i | 0 <= i < NumPairs(corpus) :: corpus[i])
            && (forall w, s :: (w in wm && s in wm[w]) <==> PairCount(corpus, NumPairs(corpus), w, s) > 0)
            && (forall w, s :: w in wm && s in wm[w] ==> wm[w][s] == PairCount(corpus, NumPairs(corpus), w, s) >= 1)
            && (|corpus| <= 1 ==> wm == map[])
  {
    ScanInvariant(corpus, priors, NumPairs(corpus));
  }

  /** The predictions after the pass: words that are not predecessors keep their stored
      entry; a predecessor's count is the larger of its prior count and its largest count
      in this corpus; the prior survives a tie, and otherwise the entry is the first pair
      (in corpus order) whose running count reached that maximum. */
  lemma PredictionsTrackMax(corpus: seq<Word>, priors: Predictions)
    ensures var r := GenerateWordMap(corpus, priors);
            && r.predictions.Keys == priors.Keys + r.wordMap.Keys
            && (forall w :: w in priors && w !in r.wordMap ==> r.predictions[w] == priors[w])
            && (forall w :: w in r.wordMap ==> IsMaxPrediction(PriorOf(priors, w), r.wordMap[w], r.predictions[w]))
            && (forall w :: w in r.wordMap ==>
                  || r.predictions[w] == PriorOf(priors, w)
                  || (&& r.predictions[w].count > PriorOf(priors, w).count
                      && exists j :: 0 <= j < NumPairs(corpus) && ReachesFirst(corpus, j, w, r.predictions[w])))
  {
    ScanInvariant(corpus, priors, NumPairs(corpus));
    FinalPredictions(corpus, priors, Scan(corpus, priors, NumPairs(corpus)));
  }

  /* ---------------------------------------------------------------------------------
     Proof
     --------------------------------------------------------------------------------- */

  lemma {:induction false} PairCountMonotone(corpus: seq<Word>, j: nat, k: nat, w: Word, s: Word)
    requires j <= k <= NumPairs(corpus)
    ensures PairCount(corpus, j, w, s) <= PairCount(corpus, k, w, s)
    decreases k
  {
    if j < k {
      PairCountMonotone(corpus, j, k - 1, w, s);
    }
  }

  /** A pair counted `m > 0` times has a position where its running count is `m`: its last
      occurrence. */
  lemma {:induction false} LastOccurrence(corpus: seq<Word>, k: nat, w: Word, s: Word)
    requires k <= NumPairs(corpus)
    requires PairCount(corpus, k, w, s) > 0
    ensures exists j :: 0 <= j < k && corpus[j] == w && corpus[j + 1] == s
                        && RunningCount(corpus, j) == PairCount(corpus, k, w, s)
    decreases k
  {
    if corpus[k - 1] == w && corpus[k] == s {
      assert RunningCount(corpus, k - 1) == PairCount(corpus, k, w, s);
    } else {
      LastOccurrence(corpus, k - 1, w, s);
    }
  }

  lemma StepCounts(corpus: seq<Word>, k: nat, wm: WordMap)
    requires k < NumPairs(corpus)
    requires CountsMatch(corpus, k, wm)
    ensures CountsMatch(corpus, k + 1, Bump(wm, corpus[k], corpus[k + 1]))
    ensures Bump(wm, corpus[k], corpus[k + 1])[corpus[k]][corpus[k + 1]] == RunningCount(corpus, k)
  {
    var w0, s0 := corpus[k], corpus[k + 1];
    var wm' := Bump(wm, w0, s0);
    var k1 := k + 1;
    assert Predecessors(corpus, k1) == Predecessors(corpus, k) + {w0};
    forall w, s
      ensures PairCount(corpus, k1, w, s)
           == PairCount(corpus, k, w, s) + (if w == w0 && s == s0 then 1 else 0)
    {
    }
    forall w, s | w !in wm'
      ensures PairCount(corpus, k1, w, s) == 0
    {
      assert w !in wm && w != w0;
    }
    forall w, s | w in wm'
      ensures s in wm'[w] <==> PairCount(corpus, k1, w, s) > 0
      ensures s in wm'[w] ==> wm'[w][s] == PairCount(corpus, k1, w, s)
    {
      if w == w0 && w !in wm {
        assert PairCount(corpus, k, w, s) == 0;
      }
    }
  }

  /** A word that has not yet been a predecessor and has no prior entry starts empty. */
  lemma TrackedBestFresh(corpus: seq<Word>, priors: Predictions, k: nat, w: Word)
    requires k <= NumPairs(corpus)
    requires w !in priors && w !in Predecessors(corpus, k)
    ensures TrackedBest(corpus, priors, k, w, NoPrediction)
  {
  }

  /** A position that does not start with `w` leaves `w`'s entry as it was. */
  lemma TrackedBestOther(corpus: seq<Word>, priors: Predictions, k: nat, w: Word, p: Prediction)
    requires k < NumPairs(corpus)
    requires corpus[k] != w
    requires TrackedBest(corpus, priors, k, w, p)
    ensures TrackedBest(corpus, priors, k + 1, w, p)
  {
    if p != PriorOf(priors, w) {
      var j :| 0 <= j < k && ReachesFirst(corpus, j, w, p);
      assert 0 <= j < k + 1 && ReachesFirst(corpus, j, w, p);
    }
  }

  /** The comparison of line 147 keeps the tracked entry of `corpus[k]` correct. */
  lemma TrackedBestStep(corpus: seq<Word>, priors: Predictions, k: nat, p: Prediction)
    requires k < NumPairs(corpus)
    requires TrackedBest(corpus, priors, k, corpus[k], p)
    ensures var n := RunningCount(corpus, k);
            TrackedBest(corpus, priors, k + 1, corpus[k],
                        if n > p.count then Prediction(corpus[k + 1], n) else p)
  {
    var w0, n := corpus[k], RunningCount(corpus, k);
    if n > p.count {
      var p' := Prediction(corpus[k + 1], n);
      assert ReachesFirst(corpus, k, w0, p');
    } else if p != PriorOf(priors, w0) {
      var j :| 0 <= j < k && ReachesFirst(corpus, j, w0, p);
      assert 0 <= j < k + 1 && ReachesFirst(corpus, j, w0, p);
    }
  }

  /** The entry of the pair's first word after the comparison of line 147. */
  lemma TrackedBestHead(corpus: seq<Word>, priors: Predictions, k: nat, preds: Predictions)
    requires k < NumPairs(corpus)
    requires PredictionsMatch(corpus, priors, k, preds)
    ensures TrackedBest(corpus, priors, k + 1, corpus[k],
                        Track(preds, corpus[k], corpus[k + 1], RunningCount(corpus, k))[corpus[k]])
  {
    var w0 := corpus[k];
    var p := PriorOf(preds, w0);
    if w0 in preds {
      assert TrackedBest(corpus, priors, k, w0, p);
    } else {
      TrackedBestFresh(corpus, priors, k, w0);
    }
    TrackedBestStep(corpus, priors, k, p);
  }

  /** The comparison adds the pair's first word to the entries and touches no other. */
  lemma TrackKeys(corpus: seq<Word>, priors: Predictions, k: nat, preds: Predictions)
    requires k < NumPairs(corpus)
    requires preds.Keys == priors.Keys + Predecessors(corpus, k)
    requires forall w :: w in priors && w !in Predecessors(corpus, k) ==> preds[w] == priors[w]
    ensures var preds' := Track(preds, corpus[k], corpus[k + 1], RunningCount(corpus, k));
            && preds'.Keys == priors.Keys + Predecessors(corpus, k + 1)
            && forall w :: w in priors && w !in Predecessors(corpus, k + 1) ==> preds'[w] == priors[w]
  {
    var k1 := k + 1;
    assert Predecessors(corpus, k1) == Predecessors(corpus, k) + {corpus[k]};
  }

  lemma StepPredictions(corpus: seq<Word>, priors: Predictions, k: nat, preds: Predictions)
    requires k < NumPairs(corpus)
    requires PredictionsMatch(corpus, priors, k, preds)
    ensures PredictionsMatch(corpus, priors, k + 1,
                             Track(preds, corpus[k], corpus[k + 1], RunningCount(corpus, k)))
  {
    var w0, k1 := corpus[k], k + 1;
    var preds' := Track(preds, w0, corpus[k + 1], RunningCount(corpus, k));
    TrackKeys(corpus, priors, k, preds);
    TrackedBestHead(corpus, priors, k, preds);
    forall w | w in preds' && w != w0
      ensures TrackedBest(corpus, priors, k1, w, preds'[w])
    {
      TrackedBestOther(corpus, priors, k, w, preds[w]);
    }
  }

  /** The loop invariant of the pass, proved for every prefix. */
  lemma {:induction false} ScanInvariant(corpus: seq<Word>, priors: Predictions, k: nat)
    requires k <= NumPairs(corpus)
    ensures CountsMatch(corpus, k, Scan(corpus, priors, k).wordMap)
    ensures PredictionsMatch(corpus, priors, k, Scan(corpus, priors, k).predictions)
    decreases k
  {
    if k == 0 {
      ScanStart(corpus, priors);
    } else {
      ScanInvariant(corpus, priors, k - 1);
      ScanStep(corpus, priors, k);
    }
  }

  /** The invariant holds before the first iteration. */
  lemma ScanStart(corpus: seq<Word>, priors: Predictions)
    ensures CountsMatch(corpus, 0, Scan(corpus, priors, 0).wordMap)
    ensures PredictionsMatch(corpus, priors, 0, Scan(corpus, priors, 0).predictions)
  {
    assert Predecessors(corpus, 0) == {};
  }

  /** One iteration keeps the loop invariant. */
  lemma ScanStep(corpus: seq<Word>, priors: Predictions, k: nat)
    requires 0 < k <= NumPairs(corpus)
    requires CountsMatch(corpus, k - 1, Scan(corpus, priors, k - 1).wordMap)
    requires PredictionsMatch(corpus, priors, k - 1, Scan(corpus, priors, k - 1).predictions)
    ensures CountsMatch(corpus, k, Scan(corpus, priors, k).wordMap)
    ensures PredictionsMatch(corpus, priors, k, Scan(corpus, priors, k).predictions)
  {
    var j := k - 1;
    var st := Scan(corpus, priors, j);
    assert Scan(corpus, priors, k) == Step(st, corpus[j], corpus[k]);
    StepCounts(corpus, j, st.wordMap);
    StepPredictions(corpus, priors, j, st.predictions);
  }

  /** The invariant at the end of the pass gives the maximum characterisation. */
  lemma FinalPrediction(corpus: seq<Word>, priors: Predictions, g: Graph, w: Word, p: Prediction)
    requires forall s :: s in g <==> PairCount(corpus, NumPairs(corpus), w, s) > 0
    requires forall s :: s in g ==> g[s] == PairCount(corpus, NumPairs(corpus), w, s)
    requires TrackedBest(corpus, priors, NumPairs(corpus), w, p)
    ensures IsMaxPrediction(PriorOf(priors, w), g, p)
  {
    var n := NumPairs(corpus);
    forall s | s in g
      ensures g[s] <= p.count
    {
      LastOccurrence(corpus, n, w, s);
    }
    if p != PriorOf(priors, w) {
      var j :| 0 <= j < n && ReachesFirst(corpus, j, w, p);
      PairCountMonotone(corpus, j + 1, n, w, p.prediction);
    }
  }

  lemma FinalPredictions(corpus: seq<Word>, priors: Predictions, st: PassState)
    requires CountsMatch(corpus, NumPairs(corpus), st.wordMap)
    requires PredictionsMatch(corpus, priors, NumPairs(corpus), st.predictions)
    ensures forall w :: w in st.wordMap ==> IsMaxPrediction(PriorOf(priors, w), st.wordMap[w], st.predictions[w])
  {
    forall w | w in st.wordMap
      ensures IsMaxPrediction(PriorOf(priors, w), st.wordMap[w], st.predictions[w])
    {
      FinalPrediction(corpus, priors, st.wordMap[w], w, st.predictions[w]);
    }
  }

  /* ---------------------------------------------------------------------------------
     Counting over a concatenation
     --------------------------------------------------------------------------------- */

  lemma {:induction false} PairCountPrefix(a: seq<Word>, b: seq<Word>, k: nat, w: Word, s: Word)
    requires k <= NumPairs(a)
    ensures k <= NumPairs(a + b)
    ensures PairCount(a + b, k, w, s) == PairCount(a, k, w, s)
    decreases k
  {
    if k > 0 {
      PairCountPrefix(a, b, k - 1, w, s);
      assert (a + b)[k - 1] == a[k - 1] && (a + b)[k] == a[k];
    }
  }

  lemma {:induction false} PairCountSuffix(a: seq<Word>, b: seq<Word>, m: nat, w: Word, s: Word)
    requires |a| > 0 && |b| > 0 && m <= NumPairs(b)
    ensures |a| + m <= NumPairs(a + b)
    ensures PairCount(a + b, |a| + m, w, s)
         == PairCount(a, NumPairs(a), w, s)
            + (if a[|a| - 1] == w && b[0] == s then 1 else 0)
            + PairCount(b, m, w, s)
    decreases m
  {
    var c := a + b;
    if m == 0 {
      PairCountPrefix(a, b, |a| - 1, w, s);
      assert c[|a| - 1] == a[|a| - 1] && c[|a|] == b[0];
    } else {
      PairCountSuffix(a, b, m - 1, w, s);
      assert c[|a| + m - 1] == b[m - 1] && c[|a| + m] == b[m];
    }
  }

  /** Counting the pairs of two token lists laid end to end gives the counts of each plus
      the one pair that straddles the join. Training on `a` and then on `b` in separate
      calls therefore misses that pair. */
  lemma PairCountConcat(a: seq<Word>, b: seq<Word>, w: Word, s: Word)
    requires |a| > 0 && |b| > 0
    ensures PairCount(a + b, NumPairs(a + b), w, s)
         == PairCount(a, NumPairs(a), w, s) + PairCount(b, NumPairs(b), w, s)
            + (if a[|a| - 1] == w && b[0] == s then 1 else 0)
  {
    PairCountSuffix(a, b, NumPairs(b), w, s);
  }
}
