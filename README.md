# Hotel chatbot intent matcher, modelled in Dafny

This project models the intent-matching core of the hotel chatbot (`hotel.py`). The
chatbot takes a line of user text and answers with one of the canned responses from an
intent catalog. The catalog is an ordered list of intents, and each intent has a tag,
example patterns and responses. The core works in three stages:

- **Normaliser** (`preprocess_input`): lower-cases the text, tokenises it and lemmatises
  every token.
- **Exact phase** (inside `chatbot`): scans the intents in catalog order, and each
  intent's patterns in order. It answers from the first intent that has a pattern whose
  token *set* is a subset of the input's token set.
- **Fuzzy phase** (`find_best_match`): scores every (intent, pattern) pair with
  difflib's similarity ratio. It keeps the first strictly greater score, starting from
  `None` and 0.0. It accepts the winner only when its score is at least 0.6. When this
  phase also fails, the reply is a fixed apology.

Modules, one per component:

- `Wrappers`: defines `Option` and `Result`.
- `Intents`: the `Intent` record, the catalog and the `all_patterns` flattening.
- `Normalizer`: the normaliser, plus `' '.join`.
- `Similarity`: the ratio `2M/T`, the threshold, and the equivalence of the threshold
  test with `10M >= 3T`.
- `ExactMatch`: the subset test and the first exact hit.
- `FuzzyMatch`: the score table and the reference definition of the answer (the
  earliest maximum, if it clears the threshold). It also holds the imperative scan,
  proved equal to that definition.
- `Chatbot`: the response draw, the reference reply `Respond`, and the imperative
  `Chat` proved equal to it.

The library helpers are parameters, taken as given total functions:

- `str.lower`, NLTK's `word_tokenize` and `WordNetLemmatizer.lemmatize` (a `Toolkit`).
- The count of matching characters `M` that `difflib.SequenceMatcher` finds (a
  `MatchCounter`).

The combined length `T` and the ratio itself are computed in the model, as exact
rationals (`real`). The random draw of `random.choice` is a given number `pick`. The
reply is the response at `pick` modulo the number of responses.

Two behaviours of `hotel.py` a reader might not expect:

- A pattern that normalises to no tokens passes the subset test for every input, so the
  exact phase hits no later than that intent (`ExactMatch.EmptyPatternAlwaysHits`).
  Nothing in `hotel.py` guards against such a pattern.
- An intent with no responses is not rejected anywhere. `random.choice` on it raises
  `IndexError`, which is modelled as `Failure(EmptyResponses)` rather than forbidden by
  a precondition.

## Model

| member | source | states |
|---|---|---|
| `Intents.AllPatterns` | hotel.py:24 | a phrase is in `all_patterns` exactly when some intent of the catalog lists it among its patterns |
| `Intents.AllPatternsAppend` | hotel.py:24 | flattening a concatenation of catalogs concatenates their flattenings, so intent order is kept |
| `Intents.AllPatternsAt` | hotel.py:24 | pattern `j` of intent `i` sits at the number of patterns of the earlier intents, plus `j` |
| `Normalizer.LemmatizeAll` | hotel.py:29 | the comprehension returns one lemma per token, position for position, with length kept |
| `Normalizer.LemmatizeAllAppend` | hotel.py:29 | lemmatising a concatenation lemmatises each part in place: no token moves |
| `Normalizer.Preprocess` | hotel.py:27-29 | the result has as many entries as the lower-cased text has tokens, and entry `k` is the lemma of token `k` |
| `Normalizer.Join` | hotel.py:41 | the space join is empty for no tokens, is the token itself for one, starts with the first token, and has length total characters plus one separator between neighbours |
| `Similarity.Ratio` | hotel.py:41 | the ratio is never negative, is 1.0 for two empty strings, is at most 1.0 when 2M does not exceed T, and is 0.0 when nothing matches |
| `Similarity.RatioMeetsThreshold` | hotel.py:35 | for every count and combined length, the ratio is at least 0.6 exactly when `10M >= 3T`, including difflib's 1.0 for two empty strings |
| `Similarity.Score` | hotel.py:41 | the ratio of the input against the pattern, in that order, clears 0.6 exactly when `10M >= 3T`, and is 0.0 when no character of non-empty text matches |
| `Similarity.IdenticalScoresOne` | hotel.py:41 | a string scored against itself, with all its characters matched, scores 1.0 |
| `ExactMatch.Subset` | hotel.py:59 | `issubset` holds exactly when every pattern token occurs among the input tokens, so order and repeats do not matter |
| `ExactMatch.PatternHits` | hotel.py:58-59 | a pattern passes exactly when every lemma of its normalised form is among the input's lemmas; a pattern without tokens always passes |
| `ExactMatch.IntentHits` | hotel.py:57-59 | an intent without patterns never hits, and one holding a pattern without tokens always hits |
| `ExactMatch.SomeIntentHitsIffSomePattern` | hotel.py:56-59 | some intent hits exactly when some phrase of `all_patterns` passes the subset test |
| `ExactMatch.FirstExactIntent` | hotel.py:56-60 | when some intent has a pattern passing the subset test, the result is the first such intent and no earlier intent has one; otherwise there is none |
| `ExactMatch.FirstExactIntentIs` | hotel.py:56-60 | an intent that hits while every earlier intent misses is the first exact hit |
| `ExactMatch.EmptyPatternAlwaysHits` | hotel.py:57-60 | a pattern that normalises to zero tokens matches any input, so the exact phase hits at or before its intent |
| `FuzzyMatch.PatternScore` | hotel.py:40-41 | the score of the joined normalised input against the joined normalised pattern clears 0.6 exactly when `10M >= 3T` for those two texts |
| `FuzzyMatch.ScoreTableFollowsAllPatterns` | hotel.py:38-41 | read row after row, the scores the scan visits are the scores of the phrases of `all_patterns`, in that order |
| `FuzzyMatch.RowMax` | hotel.py:42-43 | the row's largest score, or 0.0: it bounds every entry and is 0.0 or one of them |
| `FuzzyMatch.TableMax` | hotel.py:33-34 | the final `highest_similarity`: at least 0.0, at least every score, and either 0.0 or reached by some pair |
| `FuzzyMatch.FirstReaching` | hotel.py:42-44 | the first intent holding a given score; no earlier intent holds it, and there is none only when no intent does |
| `FuzzyMatch.BestMatch` | hotel.py:32-49 | an intent is returned exactly when the maximum is at least 0.6; that intent reaches the maximum, and every earlier intent scores strictly less on every pattern |
| `FuzzyMatch.BestMatchIs` | hotel.py:42-47 | the earliest maximum is unique: an intent reaching a maximum of at least 0.6, with all earlier intents strictly below it, is the answer |
| `FuzzyMatch.ScanStep` | hotel.py:42-44 | one visit keeps the scan's invariant: the best changes only on a strictly greater score |
| `FuzzyMatch.ScanRowDone` | hotel.py:38-39 | finishing one intent's patterns is starting the next intent |
| `FuzzyMatch.ScanIsMaximum` | hotel.py:33-44 | when the scan is over, `highest_similarity` is the maximum and `best_match` is the earliest intent reaching it; `best_match` stays `None` exactly when every score is 0.0 |
| `FuzzyMatch.FindBestMatch` | hotel.py:32-49 | the nested scan with the strictly-greater update and the final threshold test returns exactly `BestMatch` of the score table |
| `FuzzyMatch.IdenticalPatternMatches` | hotel.py:41-47 | a pattern normalising to the input's own joined text, with all characters matched, makes the fuzzy phase return an intent |
| `FuzzyMatch.NothingSharedNoMatch` | hotel.py:46-49 | when no character of a non-empty input matches any pattern of the catalog, every score is 0.0 and the fuzzy phase returns `None` |
| `Chatbot.Choose` | hotel.py:60 | the draw fails exactly on an empty response list, and otherwise returns one of the responses |
| `Chatbot.ChooseReachesEvery` | hotel.py:65 | every response can be drawn |
| `Chatbot.Respond` | hotel.py:52-67 | a successful reply is the fallback or a response of some intent; a failure needs an intent without responses |
| `Chatbot.Chat` | hotel.py:52-67 | the exact-phase loops with early return, then `find_best_match`, then the fallback, give exactly `Respond` |
| `Chatbot.ExactHitDecides` | hotel.py:56-60 | when intent `i` is the first to pass the subset test, the reply is drawn from intent `i`'s responses, whatever the scores |
| `Chatbot.FuzzyHitDecides` | hotel.py:62-65 | with no exact hit, the reply is drawn from the earliest intent reaching the maximum score, when that score is at least 0.6 |
| `Chatbot.NoMatchGivesFallback` | hotel.py:62-67 | for every catalog, with no pattern passing the subset test and the maximum score below 0.6, the reply is exactly the apology |
| `Chatbot.FallbackOnlyWhenNoMatch` | hotel.py:56-67 | if no intent lists the apology as a response, an apology reply means no pattern passed the subset test and the maximum score was below 0.6 |

## Left out

- The Streamlit interface in `main`: the menu, text areas, the "goodbye" stop and the About page (hotel.py:73-159).
- CSV chat-log creation, appending and reading (hotel.py:83-86, 102-106, 113-122). This is file I/O with timestamps.
- Loading `newintents.json` and `nltk.download` (hotel.py:12-13, 19-21). The catalog is a given `seq<Intent>`.
- The internals of `str.lower`, `word_tokenize` and `WordNetLemmatizer`. They are parameters of `Normalizer.Toolkit`.
- difflib's matching-block search. Only its count `M` of matching characters is a parameter, and nothing constrains it beyond being a natural number. The lemmas that need `M` of a string against itself state that as a hypothesis.
- Similarity.Ratio: computed as an exact rational, not as a double. Python's `2.0*M/T` rounds. Rounding preserves equal ratios and never reverses their order, but two different ratios within one unit in the last place could round to the same double. Two different ratios can only round to the same double once the lengths reach about 10^8 characters. A ratio just below 0.6 could also round up to it, but only once the combined length reaches about 3·10^15 characters.
- Chatbot.Choose: `random.choice` is uniform. The model keeps only its possible outcomes: the draw is a given number and every response can be drawn. The distribution is not modelled.
- The global widget-key `counter` (hotel.py:70, 74, 88). This is interface state.
- Chatbot.Chat: `if best_match:` tests the truth of an intent record. `best_match` is only ever an intent whose `patterns` key the scan has read, so it is a non-empty dict and always true. The test is therefore treated as "is not `None`".
