/** Shapes of the values the autocompleter keeps: corpus tokens, the successor-count
    graph of a word (a CorpusGraph document's `graph`), and a word's best-successor
    entry (an entry of the MaxWordGraph `predictions` map). */
module Structs {

  /** A normalized token. */
  type Word = string

  /** Successor word -> number of times it was seen right after the key word. */
  type Graph = map<Word, nat>

  /** Word -> its successor graph; the in-memory `word_map` and the CorpusGraph collection. */
  type WordMap = map<Word, Graph>

  /** The `{'prediction': ..., 'prediction_count': ...}` entry kept for a word. */
  datatype Prediction = Prediction(prediction: Word, count: nat)

  /** Word -> its best-successor entry. */
  type Predictions = map<Word, Prediction>

  /** The entry a word starts from when the stored predictions have none for it. */
  const NoPrediction: Prediction := Prediction("", 0)

  /** The entry a word starts from in a training pass: the stored one, or the empty one. */
  function PriorOf(priors: Predictions, w: Word): Prediction
  {
    if w in priors then priors[w] else NoPrediction
  }

  /** Count of `s` in graph `g`, zero when `s` is absent (Python's `g.get(s, 0)`). */
  function CountOf(g: Graph, s: Word): nat
  {
    if s in g then g[s] else 0
  }

  /** Outcome of an operation that can raise. */
  datatype Result<T, E> = Success(value: T) | Failure(error: E)
}
