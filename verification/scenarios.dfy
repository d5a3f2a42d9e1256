/** Concrete inputs on which the model's result is proved. */
module Scenarios {
  import opened Structs
  import opened WordGraph
  import opened Merge
  import opened Training
  import Normalizer

  /** A token list of two sentences that share their first three words. */
  const WantACatTokens: seq<Word> := ["i", "want", "a", "cat", "i", "want", "a", "dog"]

  /** The expected state of the pass over `WantACatTokens` after `k` iterations, each
      written as the change the iteration should make to the one before. */
  function WantACatState(k: nat): PassState
    decreases k
  {
    if k == 0 then PassState(map[], map[])
    else
      var s := WantACatState(k - 1);
      match k
      case 1 => PassState(s.wordMap["i" := map["want" := 1]], s.predictions["i" := Prediction("want", 1)])
      case 2 => PassState(s.wordMap["want" := map["a" := 1]], s.predictions["want" := Prediction("a", 1)])
      case 3 => PassState(s.wordMap["a" := map["cat" := 1]], s.predictions["a" := Prediction("cat", 1)])
      case 4 => PassState(s.wordMap["cat" := map["i" := 1]], s.predictions["cat" := Prediction("i", 1)])
      case 5 => PassState(s.wordMap["i" := map["want" := 2]], s.predictions["i" := Prediction("want", 2)])
      case 6 => PassState(s.wordMap["want" := map["a" := 2]], s.predictions["want" := Prediction("a", 2)])
      case _ => PassState(s.wordMap["a" := map["cat" := 1, "dog" := 1]], s.predictions)
  }

  // One lemma per iteration of the pass.

  lemma WantACatStep1()
    ensures Step(WantACatState(0), "i", "want") == WantACatState(1)
  {
  }

  lemma WantACatStep2()
    ensures Step(WantACatState(1), "want", "a") == WantACatState(2)
  {
  }

  lemma WantACatStep3()
    ensures Step(WantACatState(2), "a", "cat") == WantACatState(3)
  {
  }

  lemma WantACatStep4()
    ensures Step(WantACatState(3), "cat", "i") == WantACatState(4)
  {
  }

  lemma WantACatStep5()
    ensures Step(WantACatState(4), "i", "want") == WantACatState(5)
  {
    assert map["want" := 1]["want" := 2] == map["want" := 2];
  }

  lemma WantACatStep6()
    ensures Step(WantACatState(5), "want", "a") == WantACatState(6)
  {
    assert map["a" := 1]["a" := 2] == map["a" := 2];
  }

  lemma WantACatStep7()
    ensures Step(WantACatState(6), "a", "dog") == WantACatState(7)
  {
    var s6 := WantACatState(6);
    assert s6.predictions["a"] == Prediction("cat", 1);
    assert s6.predictions["a" := Prediction("cat", 1)] == s6.predictions;
  }

  lemma WantACatPass()
    ensures GenerateWordMap(WantACatTokens, map[]) == WantACatState(7)
  {
    WantACatScan(7);
    assert NumPairs(WantACatTokens) == 7;
  }

  /** The pass agrees with the expected state after each of its iterations. */
  lemma {:induction false} WantACatScan(k: nat)
    requires k <= 7
    ensures Scan(WantACatTokens, map[], k) == WantACatState(k)
    decreases k
  {
    if k > 0 {
      WantACatScan(k - 1);
      WantACatStepAt(k);
    }
  }

  /** Iteration `k` of the pass turns the expected state before it into the one after. */
  lemma WantACatStepAt(k: nat)
    requires 0 < k <= 7
    ensures Step(WantACatState(k - 1), WantACatTokens[k - 1], WantACatTokens[k]) == WantACatState(k)
  {
    match k
    case 1 => WantACatStep1();
    case 2 => WantACatStep2();
    case 3 => WantACatStep3();
    case 4 => WantACatStep4();
    case 5 => WantACatStep5();
    case 6 => WantACatStep6();
    case 7 => WantACatStep7();
  }

  /** The token list `i want a cat i want a dog` gives "i" -> "want" and "want" -> "a"
      twice each, and "a" keeps "cat", the first of two
      successors to reach count 1; "dog" only ties and does not displace it. */
  lemma WantACat()
    ensures var r := GenerateWordMap(WantACatTokens, map[]);
            && r.wordMap["i"] == map["want" := 2]
            && r.wordMap["want"] == map["a" := 2]
            && r.wordMap["a"] == map["cat" := 1, "dog" := 1]
            && r.predictions["i"] == Prediction("want", 2)
            && r.predictions["want"] == Prediction("a", 2)
            && r.predictions["a"] == Prediction("cat", 1)
  {
    WantACatPass();
  }

  /** A tie with the stored prediction keeps it, even though the stored counts plus this
      call's counts now favour the other successor: the prediction count comes from this
      call's counts only, so it no longer equals the largest accumulated count. */
  lemma StaleBestCount()
    ensures var stored: WordMap := map["a" := map["b" := 1, "c" := 1]];
            var priors := map["a" := Prediction("b", 1)];
            var r := GenerateWordMap(["a", "c"], priors);
            && r.predictions["a"] == Prediction("b", 1)
            && Accumulated(stored, r.wordMap)["a"] == map["b" := 1, "c" := 2]
  {
    var r := GenerateWordMap(["a", "c"], map["a" := Prediction("b", 1)]);
    assert r == Step(PassState(map[], map["a" := Prediction("b", 1)]), "a", "c");
    assert r.wordMap == map["a" := map["c" := 1]];
    var merged := Merged(map["b" := 1, "c" := 1], map["c" := 1]);
    assert merged.Keys == {"b", "c"};
  }

  /** Empty text gives one empty token. */
  lemma EmptyTextOneEmptyToken()
    ensures Normalizer.Tokenize("") == [""]
  {
    Normalizer.TokenizeSingleEmpty("");
  }

  /** The text `?! 42`, only punctuation, digits and a space, also gives one empty token. */
  lemma PunctuationOnlyOneEmptyToken()
    ensures Normalizer.Tokenize("?! 42") == [""]
  {
    var t := "?! 42";
    assert forall i :: 0 <= i < |t| ==> t[i] in {'?', '!', ' ', '4', '2'};
    Normalizer.TokenizeSingleEmpty(t);
  }

  /** A single empty token holds no pair, so the pass records nothing. */
  lemma OneTokenNoPairs()
    ensures GenerateWordMap([""], map[]).wordMap == map[]
  {
  }
}
