/** The CorpusGraph half of `AutoComplete.train`: the partition of the fresh word map into
    updates of stored words and inserts of new ones, what applying that write set does to
    the collection, and the whole call from raw text to the new collection. */
module Training {
  import opened Structs
  import opened Merge
  import opened WordGraph
  import Normalizer

  /** `UpdateOne({"word": w}, {"$set": {"graph": g}})` and `InsertOne({"word": w, "graph": g})`. */
  datatype CorpusOp = UpdateGraph(word: Word, graph: Graph) | InsertGraph(word: Word, graph: Graph)

  /** The exceptions `train` raises before anything is written: the `word_map[...]` lookup
      of the cursor loop, and `bulk_write` refusing an empty list of operations. */
  datatype TrainError = KeyError(word: Word) | NoOperations

  /** The graph stored for `w`, empty when there is none. */
  function GraphOf(store: WordMap, w: Word): Graph
  {
    if w in store then store[w] else map[]
  }

  /* ---------------------------------------------------------------------------------
     The write set
     --------------------------------------------------------------------------------- */

  /** An op the partition may emit: a stored corpus word gets its stored graph merged with
      the fresh one; an unstored corpus word that has fresh counts gets them inserted. */
  ghost predicate IsExpectedOp(corpus: seq<Word>, wordMap: WordMap, stored: WordMap, op: CorpusOp)
  {
    match op
    case UpdateGraph(w, g) => w in stored && w in corpus && w in wordMap && g == Merged(stored[w], wordMap[w])
    case InsertGraph(w, g) => w !in stored && w in corpus && w in wordMap && g == wordMap[w]
  }

  /** `ops` is the write set of core/autocomplete.py:204-239: only expected ops, at most one
      per word, one for every stored corpus word and for every unstored word with fresh
      counts, updates before inserts. */
  ghost predicate IsCorpusWriteSet(corpus: seq<Word>, wordMap: WordMap, stored: WordMap, ops: seq<CorpusOp>)
  {
    && (forall i :: 0 <= i < |ops| ==> IsExpectedOp(corpus, wordMap, stored, ops[i]))
    && (forall i, j :: 0 <= i < j < |ops| ==> ops[i].word != ops[j].word)
    && (forall i, j :: 0 <= i < j < |ops| && ops[j].UpdateGraph? ==> ops[i].UpdateGraph?)
    && (forall w :: w in stored && w in corpus ==> w in OpWords(ops))
    && (forall w :: w in wordMap && w in corpus && w !in stored ==> w in OpWords(ops))
  }

  /** The words the ops of `ops` are about. */
  function OpWords(ops: seq<CorpusOp>): set<Word>
  {
    set i | 0 <= i < |ops| :: ops[i].word
  }

  lemma OpWordsAppend(ops: seq<CorpusOp>, op: CorpusOp)
    ensures OpWords(ops + [op]) == OpWords(ops) + {op.word}
  {
    var ops' := ops + [op];
    assert ops'[|ops|] == op;
    forall w | w in OpWords(ops)
      ensures w in OpWords(ops')
    {
      var i :| 0 <= i < |ops| && ops[i].word == w;
      assert ops'[i] == ops[i];
    }
  }

  lemma OpWordsConcat(a: seq<CorpusOp>, b: seq<CorpusOp>)
    ensures OpWords(a + b) == OpWords(a) + OpWords(b)
  {
    var ab := a + b;
    forall w | w in OpWords(ab)
      ensures w in OpWords(a) + OpWords(b)
    {
      var i :| 0 <= i < |ab| && ab[i].word == w;
      if i >= |a| {
        assert b[i - |a|] == ab[i];
      }
    }
    forall w | w in OpWords(b)
      ensures w in OpWords(ab)
    {
      var i :| 0 <= i < |b| && b[i].word == w;
      assert ab[|a| + i] == b[i];
    }
    forall w | w in OpWords(a)
      ensures w in OpWords(ab)
    {
      var i :| 0 <= i < |a| && a[i].word == w;
      assert ab[i] == a[i];
    }
  }

  /** The cursor loop of core/autocomplete.py:207-225. The `$in` query yields the stored
      words that occur in the corpus, in an order left open here; each gets an update
      merging its stored graph with its fresh one, and one with no fresh graph makes
      `word_map[...]` raise `KeyError`. */
  method StoredUpdates(corpus: seq<Word>, wordMap: WordMap, stored: WordMap)
    returns (r: Result<seq<CorpusOp>, TrainError>)
    ensures r.Success? <==> forall w :: w in stored && w in corpus ==> w in wordMap
    ensures r.Success? ==> forall i :: 0 <= i < |r.value| ==>
              r.value[i].UpdateGraph? && IsExpectedOp(corpus, wordMap, stored, r.value[i])
    ensures r.Success? ==> forall i, j :: 0 <= i < j < |r.value| ==> r.value[i].word != r.value[j].word
    ensures r.Success? ==> forall w :: w in stored && w in corpus ==> w in OpWords(r.value)
    ensures r.Failure? ==> r.error.KeyError? && r.error.word in stored && r.error.word in corpus && r.error.word !in wordMap
  {
    var found := set w | w in stored && w in corpus;
    var ops: seq<CorpusOp> := [];
    var pending := found;
    while pending != {}
      invariant pending <= found
      invariant forall i :: 0 <= i < |ops| ==>
                  && ops[i].UpdateGraph? && ops[i].word in found - pending
                  && IsExpectedOp(corpus, wordMap, stored, ops[i])
      invariant forall i, j :: 0 <= i < j < |ops| ==> ops[i].word != ops[j].word
      invariant forall w :: w in found - pending ==> w in wordMap
      invariant found - pending <= OpWords(ops)
      decreases pending
    {
      var w :| w in pending;
      if w !in wordMap {
        return Failure(KeyError(w));
      }
      var merged := CombineDicts(stored[w], wordMap[w]);
      OpWordsAppend(ops, UpdateGraph(w, merged));
      ops := ops + [UpdateGraph(w, merged)];
      pending := pending - {w};
    }
    return Success(ops);
  }

  /** The loop of core/autocomplete.py:227-239 over the corpus words the cursor did not
      return, in an order left open here: each one with fresh counts gets an insert. */
  method NewInserts(corpus: seq<Word>, wordMap: WordMap, stored: WordMap) returns (ops: seq<CorpusOp>)
    ensures forall i :: 0 <= i < |ops| ==> ops[i].InsertGraph? && IsExpectedOp(corpus, wordMap, stored, ops[i])
    ensures forall i, j :: 0 <= i < j < |ops| ==> ops[i].word != ops[j].word
    ensures forall w :: w in wordMap && w in corpus && w !in stored ==> w in OpWords(ops)
  {
    var unstored := set w | w in corpus && w !in stored;
    ops := [];
    var pending := unstored;
    while pending != {}
      invariant pending <= unstored
      invariant forall i :: 0 <= i < |ops| ==>
                  && ops[i].InsertGraph? && ops[i].word in unstored - pending
                  && IsExpectedOp(corpus, wordMap, stored, ops[i])
      invariant forall i, j :: 0 <= i < j < |ops| ==> ops[i].word != ops[j].word
      invariant forall w :: w in unstored - pending && w in wordMap ==> w in OpWords(ops)
      decreases pending
    {
      var w :| w in pending;
      if w in wordMap {
        OpWordsAppend(ops, InsertGraph(w, wordMap[w]));
        ops := ops + [InsertGraph(w, wordMap[w])];
      }
      pending := pending - {w};
    }
  }

  /** Updates of stored words followed by inserts of unstored ones form a write set. */
  lemma UpdatesThenInserts(corpus: seq<Word>, wordMap: WordMap, stored: WordMap, ups: seq<CorpusOp>, ins: seq<CorpusOp>)
    requires forall i :: 0 <= i < |ups| ==> ups[i].UpdateGraph? && IsExpectedOp(corpus, wordMap, stored, ups[i])
    requires forall i, j :: 0 <= i < j < |ups| ==> ups[i].word != ups[j].word
    requires forall w :: w in stored && w in corpus ==> w in OpWords(ups)
    requires forall i :: 0 <= i < |ins| ==> ins[i].InsertGraph? && IsExpectedOp(corpus, wordMap, stored, ins[i])
    requires forall i, j :: 0 <= i < j < |ins| ==> ins[i].word != ins[j].word
    requires forall w :: w in wordMap && w in corpus && w !in stored ==> w in OpWords(ins)
    ensures IsCorpusWriteSet(corpus, wordMap, stored, ups + ins)
  {
    var ops := ups + ins;
    OpWordsConcat(ups, ins);
    forall i | 0 <= i < |ops|
      ensures IsExpectedOp(corpus, wordMap, stored, ops[i])
      ensures i < |ups| ==> ops[i].UpdateGraph? && ops[i].word in stored
      ensures i >= |ups| ==> ops[i].InsertGraph? && ops[i].word !in stored
    {
      if i < |ups| {
        assert ops[i] == ups[i];
      } else {
        assert ops[i] == ins[i - |ups|];
      }
    }
    forall i, j | 0 <= i < j < |ops|
      ensures ops[i].word != ops[j].word
    {
      if j < |ups| {
        assert ops[i] == ups[i] && ops[j] == ups[j];
      } else if i >= |ups| {
        assert ops[i] == ins[i - |ups|] && ops[j] == ins[j - |ups|];
      }
    }
  }

  /** The partition of core/autocomplete.py:204-239: the updates of the cursor loop, then
      the inserts for the remaining words. */
  method CorpusWriteSet(corpus: seq<Word>, wordMap: WordMap, stored: WordMap)
    returns (r: Result<seq<CorpusOp>, TrainError>)
    ensures r.Success? <==> forall w :: w in stored && w in corpus ==> w in wordMap
    ensures r.Success? ==> IsCorpusWriteSet(corpus, wordMap, stored, r.value)
    ensures r.Failure? ==> r.error.KeyError? && r.error.word in stored && r.error.word in corpus && r.error.word !in wordMap
  {
    var ups := StoredUpdates(corpus, wordMap, stored);
    if ups.Failure? {
      return Failure(ups.error);
    }
    var ins := NewInserts(corpus, wordMap, stored);
    UpdatesThenInserts(corpus, wordMap, stored, ups.value, ins);
    return Success(ups.value + ins);
  }

  /* ---------------------------------------------------------------------------------
     Applying the write set
     --------------------------------------------------------------------------------- */

  /** `UpdateOne` without upsert changes only an existing document; `InsertOne` adds one. */
  function ApplyOp(store: WordMap, op: CorpusOp): WordMap
  {
    match op
    case UpdateGraph(w, g) => if w in store then store[w := g] else store
    case InsertGraph(w, g) => store[w := g]
  }

  /** An ordered `bulk_write` of `ops`: no stored word is lost, the only new words are
      those of the ops, and a word no op names keeps its graph. */
  function ApplyCorpusOps(store: WordMap, ops: seq<CorpusOp>): (r: WordMap)
    ensures store.Keys <= r.Keys <= store.Keys + OpWords(ops)
    ensures forall w :: w in store && w !in OpWords(ops) ==> r[w] == store[w]
    decreases |ops|
  {
    if ops == [] then store
    else
      OpWordsCons(ops);
      ApplyCorpusOps(ApplyOp(store, ops[0]), ops[1..])
  }

  lemma OpWordsCons(ops: seq<CorpusOp>)
    requires |ops| > 0
    ensures OpWords(ops) == {ops[0].word} + OpWords(ops[1..])
  {
    forall w | w in OpWords(ops)
      ensures w in {ops[0].word} + OpWords(ops[1..])
    {
      var i :| 0 <= i < |ops| && ops[i].word == w;
      if i > 0 {
        assert ops[1..][i - 1].word == w;
      }
    }
  }

  /** What the collection should hold after training: each word's stored counts plus the
      counts of this corpus. */
  function Accumulated(stored: WordMap, wordMap: WordMap): WordMap
  {
    map w | w in stored.Keys + wordMap.Keys ::
      if w in wordMap then Merged(GraphOf(stored, w), wordMap[w]) else stored[w]
  }

  /** `store` with the words of `words` set to their graphs in `target`. */
  function Overlay(store: WordMap, words: set<Word>, target: WordMap): WordMap
    requires words <= target.Keys
  {
    map w | w in store.Keys + words :: if w in words then target[w] else store[w]
  }

  lemma OverlayStep(store: WordMap, w0: Word, words: set<Word>, target: WordMap)
    requires words <= target.Keys && w0 in target
    ensures Overlay(store[w0 := target[w0]], words, target) == Overlay(store, words + {w0}, target)
  {
  }

  /** Ops on distinct words, each setting its word to the graph `target` gives it. */
  predicate SetsDistinct(store: WordMap, ops: seq<CorpusOp>, target: WordMap)
  {
    && (forall i, j :: 0 <= i < j < |ops| ==> ops[i].word != ops[j].word)
    && (forall i :: 0 <= i < |ops| ==> ops[i].word in target && ops[i].graph == target[ops[i].word])
    && (forall i :: 0 <= i < |ops| && ops[i].UpdateGraph? ==> ops[i].word in store)
  }

  /** The first op of such a list sets its word, and the rest keep the shape. */
  lemma SetsDistinctTail(store: WordMap, ops: seq<CorpusOp>, target: WordMap)
    requires |ops| > 0 && SetsDistinct(store, ops, target)
    ensures ops[0].word in target
    ensures ApplyOp(store, ops[0]) == store[ops[0].word := target[ops[0].word]]
    ensures SetsDistinct(ApplyOp(store, ops[0]), ops[1..], target)
  {
    var rest, store' := ops[1..], ApplyOp(store, ops[0]);
    forall i | 0 <= i < |rest| && rest[i].UpdateGraph?
      ensures rest[i].word in store'
    {
      assert rest[i] == ops[i + 1];
    }
    forall i, j | 0 <= i < j < |rest|
      ensures rest[i].word != rest[j].word
    {
      assert rest[i] == ops[i + 1] && rest[j] == ops[j + 1];
    }
    forall i | 0 <= i < |rest|
      ensures rest[i].word in target && rest[i].graph == target[rest[i].word]
    {
      assert rest[i] == ops[i + 1];
    }
  }

  /** Ops on distinct words, each setting its word to the graph `target` gives it, and
      updates only of present words: applying them sets exactly those words. */
  lemma {:induction false} ApplyDistinct(store: WordMap, ops: seq<CorpusOp>, target: WordMap)
    requires SetsDistinct(store, ops, target)
    ensures OpWords(ops) <= target.Keys
    ensures ApplyCorpusOps(store, ops) == Overlay(store, OpWords(ops), target)
    decreases |ops|
  {
    if ops == [] {
      assert OpWords(ops) == {};
      assert Overlay(store, {}, target) == store;
    } else {
      var store' := ApplyOp(store, ops[0]);
      SetsDistinctTail(store, ops, target);
      ApplyDistinct(store', ops[1..], target);
      OpWordsCons(ops);
      OverlayStep(store, ops[0].word, OpWords(ops[1..]), target);
    }
  }

  /** Every op of a write set sets its word to that word's accumulated graph. */
  lemma WriteSetTargets(corpus: seq<Word>, wordMap: WordMap, stored: WordMap, ops: seq<CorpusOp>)
    requires forall i :: 0 <= i < |ops| ==> IsExpectedOp(corpus, wordMap, stored, ops[i])
    ensures forall i :: 0 <= i < |ops| ==>
              ops[i].word in Accumulated(stored, wordMap) && ops[i].graph == Accumulated(stored, wordMap)[ops[i].word]
  {
    forall i | 0 <= i < |ops|
      ensures ops[i].word in Accumulated(stored, wordMap) && ops[i].graph == Accumulated(stored, wordMap)[ops[i].word]
    {
      assert IsExpectedOp(corpus, wordMap, stored, ops[i]);
      if ops[i].InsertGraph? {
        MergedEmpty(wordMap[ops[i].word]);
      }
    }
  }

  /** A write set is about exactly the words with fresh counts. */
  lemma WriteSetWords(corpus: seq<Word>, wordMap: WordMap, stored: WordMap, ops: seq<CorpusOp>)
    requires IsCorpusWriteSet(corpus, wordMap, stored, ops)
    requires forall w :: w in stored && w in corpus ==> w in wordMap
    requires forall w :: w in wordMap ==> w in corpus
    ensures OpWords(ops) == wordMap.Keys
  {
    forall w | w in OpWords(ops)
      ensures w in wordMap
    {
      var i :| 0 <= i < |ops| && ops[i].word == w;
      assert IsExpectedOp(corpus, wordMap, stored, ops[i]);
    }
  }

  /** Setting the words with fresh counts to their accumulated graphs gives the whole
      accumulated collection. */
  lemma OverlayAccumulated(stored: WordMap, wordMap: WordMap)
    ensures Overlay(stored, wordMap.Keys, Accumulated(stored, wordMap)) == Accumulated(stored, wordMap)
  {
  }

  /** Applying the write set turns the stored collection into the accumulated one: the
      partition neither loses a stored word nor double-counts one. */
  lemma ApplyCorpusWriteSet(corpus: seq<Word>, wordMap: WordMap, stored: WordMap, ops: seq<CorpusOp>)
    requires IsCorpusWriteSet(corpus, wordMap, stored, ops)
    requires forall w :: w in stored && w in corpus ==> w in wordMap
    requires forall w :: w in wordMap ==> w in corpus
    ensures ApplyCorpusOps(stored, ops) == Accumulated(stored, wordMap)
  {
    WriteSetTargets(corpus, wordMap, stored, ops);
    ApplyDistinct(stored, ops, Accumulated(stored, wordMap));
    WriteSetWords(corpus, wordMap, stored, ops);
    OverlayAccumulated(stored, wordMap);
  }

  /* ---------------------------------------------------------------------------------
     The whole call
     --------------------------------------------------------------------------------- */

  /** A corpus word has no fresh counts exactly when it is the last token and occurs
      nowhere before it. */
  lemma MissingOnlyFinalToken(corpus: seq<Word>, priors: Predictions, w: Word)
    ensures (w in corpus && w !in GenerateWordMap(corpus, priors).wordMap)
        <==> (|corpus| > 0 && w == corpus[|corpus| - 1] && w !in corpus[..|corpus| - 1])
  {
    var wm := GenerateWordMap(corpus, priors).wordMap;
    WordMapCounts(corpus, priors);
    if |corpus| > 0 {
      var n := |corpus| - 1;
      if w in corpus[..n] {
        var i :| 0 <= i < n && corpus[..n][i] == w;
        assert corpus[i] == w;
      }
      if w in corpus && w !in wm {
        var i :| 0 <= i < |corpus| && corpus[i] == w;
      }
    }
  }

  lemma WordMapKeysInCorpus(corpus: seq<Word>, priors: Predictions)
    ensures forall w :: w in GenerateWordMap(corpus, priors).wordMap ==> w in corpus
  {
    WordMapCounts(corpus, priors);
  }

  /** The partition succeeds exactly when the last token is not a stored word that occurs
      only there. */
  lemma WriteSetSucceeds(tokens: seq<Word>, priors: Predictions, stored: WordMap)
    requires |tokens| > 0
    ensures (forall w :: w in stored && w in tokens ==> w in GenerateWordMap(tokens, priors).wordMap)
        <==> !(tokens[|tokens| - 1] in stored && tokens[|tokens| - 1] !in tokens[..|tokens| - 1])
  {
    var last := tokens[|tokens| - 1];
    MissingOnlyFinalToken(tokens, priors, last);
    forall w | w in stored
      ensures (w in tokens && w !in GenerateWordMap(tokens, priors).wordMap)
          <==> (w == last && w !in tokens[..|tokens| - 1])
    {
      MissingOnlyFinalToken(tokens, priors, w);
    }
  }

  /** The accumulated collection holds, per pair, the stored count plus the fresh one. */
  lemma AccumulatedCount(stored: WordMap, wordMap: WordMap, w: Word, s: Word)
    ensures CountOf(GraphOf(Accumulated(stored, wordMap), w), s)
         == CountOf(GraphOf(stored, w), s) + CountOf(GraphOf(wordMap, w), s)
  {
  }

  /** The accumulated collection, read as counts: stored count plus this corpus's count. */
  lemma AccumulatedCounts(tokens: seq<Word>, priors: Predictions, stored: WordMap)
    ensures var acc := Accumulated(stored, GenerateWordMap(tokens, priors).wordMap);
            && acc.Keys == stored.Keys + (set i | 0 <= i < NumPairs(tokens) :: tokens[i])
            && forall w, s :: CountOf(GraphOf(acc, w), s)
                           == CountOf(GraphOf(stored, w), s) + PairCount(tokens, NumPairs(tokens), w, s)
  {
    var wm := GenerateWordMap(tokens, priors).wordMap;
    WordMapCounts(tokens, priors);
    forall w, s
      ensures CountOf(GraphOf(wm, w), s) == PairCount(tokens, NumPairs(tokens), w, s)
    {
    }
    forall w, s
      ensures CountOf(GraphOf(Accumulated(stored, wm), w), s)
           == CountOf(GraphOf(stored, w), s) + PairCount(tokens, NumPairs(tokens), w, s)
    {
      AccumulatedCount(stored, wm, w, s);
    }
  }

  /** A write set of the pass is empty exactly when the corpus holds no pair. */
  lemma EmptyWriteSet(tokens: seq<Word>, priors: Predictions, stored: WordMap, ops: seq<CorpusOp>)
    requires IsCorpusWriteSet(tokens, GenerateWordMap(tokens, priors).wordMap, stored, ops)
    ensures ops == [] <==> NumPairs(tokens) == 0
  {
    var wm := GenerateWordMap(tokens, priors).wordMap;
    WordMapCounts(tokens, priors);
    if NumPairs(tokens) > 0 {
      var w := tokens[0];
      assert w in wm && w in tokens;
      assert w in OpWords(ops);
    } else {
      assert wm == map[];
      assert |ops| > 0 ==> IsExpectedOp(tokens, wm, stored, ops[0]);
    }
  }

  /** The CorpusGraph effect of `train` on an already split token list
      (core/autocomplete.py:199-239 and the first `bulk_write` at line 274): count,
      partition, apply. `bulk_write` refuses an empty write set, which is what a list
      without a pair produces when it does not raise `KeyError` first. */
  method TrainTokens(tokens: seq<Word>, stored: WordMap, priors: Predictions)
    returns (r: Result<WordMap, TrainError>)
    ensures (r.Failure? && r.error.KeyError?) <==>
              |tokens| > 0 && tokens[|tokens| - 1] in stored && tokens[|tokens| - 1] !in tokens[..|tokens| - 1]
    ensures r == Failure(NoOperations) <==>
              NumPairs(tokens) == 0
              && !(|tokens| > 0 && tokens[|tokens| - 1] in stored && tokens[|tokens| - 1] !in tokens[..|tokens| - 1])
    ensures r.Success? ==> r.value.Keys == stored.Keys + (set i | 0 <= i < NumPairs(tokens) :: tokens[i])
    ensures r.Success? ==> forall w, s ::
              CountOf(GraphOf(r.value, w), s) == CountOf(GraphOf(stored, w), s) + PairCount(tokens, NumPairs(tokens), w, s)
  {
    var wm := GenerateWordMap(tokens, priors).wordMap;
    if |tokens| > 0 {
      WriteSetSucceeds(tokens, priors, stored);
    }
    var written := CorpusWriteSet(tokens, wm, stored);
    if written.Failure? {
      return Failure(written.error);
    }
    EmptyWriteSet(tokens, priors, stored, written.value);
    if written.value == [] {
      return Failure(NoOperations);
    }
    WordMapKeysInCorpus(tokens, priors);
    ApplyCorpusWriteSet(tokens, wm, stored, written.value);
    AccumulatedCounts(tokens, priors, stored);
    return Success(ApplyCorpusOps(stored, written.value));
  }

  /** The CorpusGraph effect of `train(corpus)` (core/autocomplete.py:192-239 and line 274).
      It fails with `KeyError` exactly when the last token is a stored word occurring nowhere
      earlier, and otherwise with `NoOperations` exactly when the text gives a single token.
      On success every stored count grows by this corpus's count of the pair, and nothing
      else changes. */
  method TrainCorpusGraph(text: string, stored: WordMap, priors: Predictions)
    returns (r: Result<WordMap, TrainError>)
    ensures var tokens := Normalizer.Tokenize(text);
            var last := tokens[|tokens| - 1];
            (r.Failure? && r.error.KeyError?) <==> last in stored && last !in tokens[..|tokens| - 1]
    ensures var tokens := Normalizer.Tokenize(text);
            var last := tokens[|tokens| - 1];
            r == Failure(NoOperations) <==> |tokens| == 1 && !(last in stored && last !in tokens[..|tokens| - 1])
    ensures var tokens := Normalizer.Tokenize(text);
            r.Success? ==> r.value.Keys == stored.Keys + (set i | 0 <= i < NumPairs(tokens) :: tokens[i])
    ensures var tokens := Normalizer.Tokenize(text);
            r.Success? ==> forall w, s ::
              CountOf(GraphOf(r.value, w), s) == CountOf(GraphOf(stored, w), s) + PairCount(tokens, NumPairs(tokens), w, s)
  {
    r := TrainTokens(Normalizer.Tokenize(text), stored, priors);
  }
}
