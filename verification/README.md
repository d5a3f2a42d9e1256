# AutoComplete training core in Dafny

A model of the training path of the `AutoComplete` class (`core/autocomplete.py`). The
class learns next-word predictions from free text. A call to `train(corpus)` does four things:

1. It normalizes the text with `_clean_text` and splits it on single spaces.
2. It counts every adjacent token pair, in one left-to-right pass, into `word_map`. In the
   same pass it tracks the best successor of every predecessor, in `predictions`, using a
   strict `>` comparison. This is `_generate_word_map`.
3. It turns `word_map` into a write set for the `CorpusGraph` collection. A stored word gets
   an update carrying its stored graph merged additively with the fresh one (`_combine_dicts`).
   A new word that has fresh counts gets an insert.
4. It hands the write set to an ordered `bulk_write`. pymongo refuses an empty list of
   operations, so the call raises when the write set is empty.

Modules:

- `Structs`: words, successor graphs, word maps and prediction entries.
- `Normalizer`: character classes, `_clean_text` as its four-stage pipeline (`CleanText`),
  and `split(" ")` (`SplitOnSpace`, `Tokenize`).
- `Merge`: `_combine_dicts` as the two loops of the source (`AddShared`, `CopyMissing`,
  `CombineDicts`), plus a reference definition `Merged`.
- `WordGraph`: the counting pass. It is a prefix fold (`Scan`) of one loop iteration
  (`Step`), and its loop invariant is proved for every prefix. `PairCount` and
  `ReachesFirst` say independently what the pass should compute.
- `Training`: the write-set partition as its two loops (`StoredUpdates`, `NewInserts`,
  `CorpusWriteSet`). It also models what an ordered `bulk_write` of the ops does to the
  collection (`ApplyCorpusOps`), and the whole CorpusGraph effect of `train` from raw text
  to the new collection (`TrainCorpusGraph`).
- `Scenarios`: small concrete inputs that fix the behaviour on a worked example.

Characters are Unicode scalar values, with three choices:

- `lower()` and `isdigit()` are modelled on ASCII.
- Whitespace is the code-point set that Python's argument-less `str.split()` separates on.
- Punctuation is exactly `string.punctuation`.

Dictionary, set and cursor iteration orders are left open: each loop picks its next key
with `:|`, so every contract holds for every order.

In several places the code behaves otherwise than one might expect, and the model follows
the code:

- **Empty text.** One might expect empty text to give no tokens. Empty text, or text with no
  word character, gives the token list `[""]`, because `"".split(" ")` is `[""]`. It still
  holds no pair (`Scenarios.EmptyTextOneEmptyToken`, `Normalizer.TokenizeSingleEmpty`).
- **Prediction counts.** The prediction count comes from this call's counts alone. It is
  never combined with the stored counts. So the best count need not equal the largest
  accumulated count (`Scenarios.StaleBestCount`).
- **Training twice.** In the model, two successful calls of `Training.TrainTokens`, on `a`
  and then on `b`, add the pair counts of `a` and then those of `b`. By
  `WordGraph.PairCountConcat` that is the count over `a + b` less the one pair that
  straddles the boundary. In the code as written, the second call never gets that far. The
  first successful call writes at least one MaxWordGraph document: `tokens[0]` has a
  prediction, and the re-read cursor at line 244 yields no update for it. With such a
  document present, the second call raises at line 129 before counting and writes nothing
  (see "Left out").
- **KeyError.** A stored word that occurs only as the last token has no `word_map` entry.
  The cursor loop then raises `KeyError` before anything is written. The model returns
  `Failure(KeyError(w))` in that case.
- **Empty write set.** Text that gives a single token (empty text, or one word) has no
  pair. Unless that token raises `KeyError`, the CorpusGraph write set is empty, and
  `bulk_write([])` at core/autocomplete.py:274 raises instead of writing nothing. The model
  returns `Failure(NoOperations)` (`Training.EmptyWriteSet`).

## Model

| member | source | states |
|---|---|---|
| Normalizer.CleanText | core/autocomplete.py:43-49 | The result has no upper-case letter, punctuation character or digit. Its only whitespace is single spaces between words, with none at either end. Its non-space characters are exactly the word characters of the lower-cased input, in their original order. |
| Normalizer.CleanTextSolid | core/autocomplete.py:43-49 | On text without whitespace the result is exactly the word characters of the lower-cased text, in order. |
| Normalizer.CleanTextSplitsAtWhitespace | core/autocomplete.py:47 | Cleaning `x + [c] + y`, where `c` is whitespace, gives the two cleaned halves joined by one space when both are non-empty, and their plain concatenation otherwise. With `CleanTextSolid` this fixes the result on every string, separators included. |
| Normalizer.CleanTextJoin | core/autocomplete.py:43-49 | Space-joined words, each without whitespace and holding a word character, clean to the space-join of the cleaned words. |
| Normalizer.CleanTextFixedPoint | core/autocomplete.py:43-49 | A string is left unchanged by `_clean_text` if and only if it already has the normalized shape. |
| Normalizer.CleanTextIdempotent | core/autocomplete.py:43-49 | Normalizing normalized text changes nothing. |
| Normalizer.StrippedWordChars | core/autocomplete.py:44-47 | Removing punctuation, then digits, then whitespace keeps exactly the word characters, in order. |
| Normalizer.CollapsedRoundTrip | core/autocomplete.py:47 | Splitting text that is already single-spaced on whitespace, then joining with single spaces, gives the text back. |
| Normalizer.SplitOnSpace | core/autocomplete.py:193 | `s.split(" ")` has at least one piece. The pieces hold no space and join back to `s` with single spaces, which determines them (`Normalizer.JoinSpaceSplitOn`). |
| Normalizer.Tokenize | core/autocomplete.py:192-193 | The token list is never empty. Its tokens hold no space and join back to the normalized text. It is `[""]` exactly when the normalized text is empty. |
| Normalizer.SplitOnRoundTrip | core/autocomplete.py:193 | Joining the pieces of `s.split(" ")` with single spaces gives `s` back, for every string. |
| Normalizer.JoinSpaceSplitOn | core/autocomplete.py:193 | Splitting a single-space join of space-free words gives back the same word list. |
| Normalizer.TokenizeShape | core/autocomplete.py:192-193 | The token list is never empty and joins back to the normalized text. It is `[""]` exactly when the normalized text is empty. Otherwise every token is a non-empty word of normalized characters. |
| Normalizer.TokenizeSingleEmpty | core/autocomplete.py:192-193 | The token list is `[""]` if and only if the input has no word character. |
| Normalizer.TokenizeJoin | core/autocomplete.py:192-193 | Space-joined words, each without whitespace and holding a word character, tokenize to the list of the cleaned words, one token per word. |
| Merge.AddShared | core/autocomplete.py:72-74 | The keys are those of `dict2`. Each value is `dict2`'s count plus `dict1`'s count, or 0 when `dict1` lacks the key. |
| Merge.CopyMissing | core/autocomplete.py:76-78 | The keys are the union of both key sets. Keys already present keep their value; the other keys take `dict1`'s count. |
| Merge.CombineDicts | core/autocomplete.py:72-80 | The keys are the union of both key sets. Each value is the sum of the two counts, taken as 0 where a side lacks the key. The result equals the reference merge for any iteration order. |
| Merge.MergedCommutes | core/autocomplete.py:216-219 | Merging is symmetric, so passing the stored graph first gives the same result as the documented order. |
| Merge.MergedAssociative | core/autocomplete.py:72-80 | Merging is associative, so successive merges accumulate counts independently of grouping. |
| WordGraph.Track | core/autocomplete.py:141-149 | The comparison gives the pair's first word an entry and touches no other entry. The entry's count is at least the pair's count and at least the old count. It is replaced, by the pair's successor and count, exactly when the pair's count is strictly greater than the old count. |
| WordGraph.Step | core/autocomplete.py:131-149 | One iteration bumps the pair's count by one from its previous value, or to 1 for a new pair. The tracked count of the pair's first word is at least that new count. `WordGraph.ScanInvariant` gives the full effect. |
| WordGraph.GenerateWordMap | core/autocomplete.py:125-151 | Every `word_map` key is a corpus word. The prediction keys are the prior keys plus the `word_map` keys, and words without fresh counts keep their prior entry. A corpus of at most one token returns an empty map and the priors unchanged. `WordGraph.WordMapCounts` and `WordGraph.PredictionsTrackMax` give the full characterisation. |
| WordGraph.ScanInvariant | core/autocomplete.py:131-149 | After any number of iterations, `word_map` holds exactly the pair counts of the positions seen so far. Every tracked prediction is the prior entry or the first pair to reach its count, and no running count of that word exceeds it. |
| WordGraph.WordMapCounts | core/autocomplete.py:131-139 | The keys of `word_map` are exactly the tokens at positions 0..n-2. `word_map[w][s]` exists if and only if the pair `(w, s)` occurs, and it equals the number of its occurrences, which is at least 1. A corpus of at most one token gives an empty map. |
| WordGraph.PredictionsTrackMax | core/autocomplete.py:141-149 | The prediction keys are the prior keys plus the predecessors. Words that are not predecessors keep their prior entry. A predecessor's count is the larger of its prior count and its largest successor count. The entry is either the prior itself (which survives a tie) or the first pair in corpus order whose running count reached that maximum. |
| WordGraph.PairCountConcat | core/autocomplete.py:131-139 | The pair count over `a + b` is the count over `a`, plus the count over `b`, plus the boundary pair `(last of a, first of b)`. |
| Training.StoredUpdates | core/autocomplete.py:207-225 | It succeeds if and only if every stored corpus word has fresh counts. It then emits exactly one update per stored corpus word, carrying the stored graph merged with the fresh one. Otherwise it fails with `KeyError` naming a stored corpus word without fresh counts. |
| Training.NewInserts | core/autocomplete.py:227-239 | It emits exactly one insert per unstored corpus word that has fresh counts, carrying those counts, and nothing for words without them. |
| Training.CorpusWriteSet | core/autocomplete.py:204-239 | It succeeds if and only if every stored corpus word has fresh counts. It then emits only expected ops, at most one per word, updates before inserts, covering every stored corpus word and every new word with fresh counts. A failure names a stored corpus word missing from `word_map`. |
| Training.ApplyCorpusOps | core/autocomplete.py:274 | An ordered `bulk_write` keeps every stored word. It adds no word that no op names, and a word no op names keeps its graph. |
| Training.ApplyCorpusWriteSet | core/autocomplete.py:204-239 | Applying the write set in order gives exactly the accumulated collection. Every word with fresh counts holds its stored graph merged with them, and every other stored word is untouched. |
| Training.EmptyWriteSet | core/autocomplete.py:204-239 | The write set is empty if and only if the token list has no pair. |
| Training.MissingOnlyFinalToken | core/autocomplete.py:131-139 | A corpus word lacks a `word_map` entry if and only if it is the last token and occurs nowhere before it. |
| Training.WriteSetSucceeds | core/autocomplete.py:216-219 | The `word_map[...]` lookup raises if and only if the last token is a stored word that occurs nowhere earlier. |
| Training.AccumulatedCounts | core/autocomplete.py:204-239 | After training, the collection's words are the stored words plus the predecessors. Every pair count is the stored count plus this corpus's count of the pair. |
| Training.TrainTokens | core/autocomplete.py:199-274 | On a token list, it fails with `KeyError` if and only if the last token is a stored word occurring nowhere earlier. Otherwise it fails with `NoOperations` if and only if the list has no pair. Otherwise the new collection has the stored words plus the predecessors, and every pair count is the stored count plus this list's count of the pair. The MaxWordGraph lines 241-272 inside the cited range are not modelled. |
| Training.TrainCorpusGraph | core/autocomplete.py:192-274 | It fails with `KeyError` if and only if the last token is a stored word occurring nowhere earlier. Otherwise it fails with `NoOperations` if and only if the text gives a single token. Otherwise the new collection has the stored words plus the predecessors, and every pair count is the stored count plus the corpus's count. The MaxWordGraph lines 241-272 inside the cited range are not modelled. |
| Scenarios.WantACat | core/autocomplete.py:131-149 | For the token list `i want a cat i want a dog`, with no stored predictions, `i` and `want` each have one successor counted twice. `a` keeps `cat`, because `dog` only ties it. |
| Scenarios.StaleBestCount | core/autocomplete.py:147-149 | A tie with the stored prediction keeps it, even though the accumulated counts now favour the other successor. |
| Scenarios.EmptyTextOneEmptyToken | core/autocomplete.py:193 | Empty text gives the single token `""`. |
| Scenarios.PunctuationOnlyOneEmptyToken | core/autocomplete.py:43-49 | The text `"?! 42"`, only punctuation, digits and a space, gives the single token `""`. The general fact is `Normalizer.TokenizeSingleEmpty`. |
| Scenarios.OneTokenNoPairs | core/autocomplete.py:131 | The token list `[""]`, which empty text gives, yields no pair and an empty `word_map`. The general fact for any list of at most one token is an ensures of `WordGraph.GenerateWordMap`. |

## Left out

- MongoDB I/O is not modelled (core/autocomplete.py:24-25, 194-198 and 274-276). This covers the connection, the `find` queries, the `bulk_write` calls and the acknowledged-AND result. The collections are map parameters, and `bulk_write` is modelled as an ordered application of the ops (`Training.ApplyCorpusOps`).
- Loading the stored predictions (core/autocomplete.py:127-129) is not modelled: the prior predictions are an input map. Line 129 reads a `predictions` field, but the MaxWordGraph documents that `train` itself writes (lines 263-271) hold only `word` and `max_words` (core/structs.py). So once MaxWordGraph holds a document, every later `train` raises at line 129, before counting. The first failure there is pymongo's `InvalidOperation`, because indexing a cursor the enclosing loop is already reading is refused. Were that indexing to succeed, the missing `predictions` field would raise `KeyError`. Non-empty priors (as in `Scenarios.StaleBestCount`) and the stored-merge path of `Training.StoredUpdates` therefore cannot arise from documents `train` writes. The model still covers them as the code is written, for a collection filled by other means.
- The MaxWordGraph write set (core/autocomplete.py:241-272) and its `bulk_write` at line 275 are not modelled. That loop re-iterates a cursor already consumed while loading, and its behaviour depends on cursor semantics outside this model.
- `complete` and `drop_db` (core/autocomplete.py:279-298) are left out: they are single database lookups and drops.
- The Flask routes, the browser script and the TypedDict declarations are not part of this model. They contain no training logic.
- Unicode case mapping and Unicode digits are left out. `lower()` and `isdigit()` are modelled on ASCII only, because Python's full Unicode tables are outside the model.
- Duplicate documents for one word in the CorpusGraph collection are not modelled. The stored collection is a map from word to graph, one document per word, which is what the partition itself maintains.
- `_combine_dicts` updates `word_map[w]` in place, which aliases the merged graph with the fresh one. That is not modelled, because no merged entry is read again: the insert loop (lines 228 and 232) reads only entries of words that are not stored, which the merge never touches.
- The Python `bool` returned by `train` is not modelled. `Training.TrainCorpusGraph` returns the new collection, the `KeyError`, or the refusal of an empty write set.
