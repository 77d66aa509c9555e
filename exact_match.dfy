/** The exact phase of `chatbot`: a pattern matches when its token set is a subset of the input's. */
module ExactMatch {
  import opened Wrappers
  import opened Intents
  import opened Normalizer

  /** `set(pattern_words).issubset(set(input_words))`: every pattern token occurs among the
      input tokens, whatever their order and however often either side repeats them. */
  function Subset(patternWords: seq<string>, inputWords: seq<string>): (r: bool)
    ensures r <==> forall k :: 0 <= k < |patternWords| ==> patternWords[k] in inputWords
  {
    var patternSet, inputSet := set w | w in patternWords, set w | w in inputWords;
    assert forall k :: 0 <= k < |patternWords| ==> patternWords[k] in patternSet;
    patternSet <= inputSet
  }

  /** The test of the exact phase for one pattern against the normalised input: every lemma
      of the pattern is among the input's lemmas, so a pattern without tokens always passes. */
  predicate PatternHits(tk: Toolkit, pattern: string, inputWords: seq<string>)
    ensures PatternHits(tk, pattern, inputWords) <==>
      forall k :: 0 <= k < |Preprocess(tk, pattern)| ==> Preprocess(tk, pattern)[k] in inputWords
    ensures Preprocess(tk, pattern) == [] ==> PatternHits(tk, pattern, inputWords)
  {
    Subset(Preprocess(tk, pattern), inputWords)
  }

  /** Some pattern of the intent passes the exact test. An intent without patterns never
      does; one holding a pattern without tokens always does. */
  predicate IntentHits(tk: Toolkit, intent: Intent, inputWords: seq<string>)
    ensures intent.patterns == [] ==> !IntentHits(tk, intent, inputWords)
    ensures (exists j :: 0 <= j < |intent.patterns| && Preprocess(tk, intent.patterns[j]) == []) ==>
              IntentHits(tk, intent, inputWords)
  {
    exists j :: 0 <= j < |intent.patterns| && PatternHits(tk, intent.patterns[j], inputWords)
  }

  /** The exact phase hits some intent exactly when some phrase of `all_patterns` passes the
      subset test. */
  lemma {:induction false} SomeIntentHitsIffSomePattern(tk: Toolkit, catalog: Catalog, inputWords: seq<string>)
    ensures (exists i :: 0 <= i < |catalog| && IntentHits(tk, catalog[i], inputWords)) <==>
            (exists p :: p in AllPatterns(catalog) && PatternHits(tk, p, inputWords))
  {
    if exists i :: 0 <= i < |catalog| && IntentHits(tk, catalog[i], inputWords) {
      var i :| 0 <= i < |catalog| && IntentHits(tk, catalog[i], inputWords);
      var j :| 0 <= j < |catalog[i].patterns| && PatternHits(tk, catalog[i].patterns[j], inputWords);
      assert catalog[i].patterns[j] in catalog[i].patterns;
      assert catalog[i].patterns[j] in AllPatterns(catalog);
    }
    if exists p :: p in AllPatterns(catalog) && PatternHits(tk, p, inputWords) {
      var p :| p in AllPatterns(catalog) && PatternHits(tk, p, inputWords);
      var i :| 0 <= i < |catalog| && p in catalog[i].patterns;
      var j :| 0 <= j < |catalog[i].patterns| && catalog[i].patterns[j] == p;
      assert IntentHits(tk, catalog[i], inputWords);
    }
  }

  /** The first intent, in catalog order, with a pattern that passes the exact test. */
  function FirstExactIntent(tk: Toolkit, catalog: Catalog, inputWords: seq<string>): (r: Option<nat>)
    ensures r.Some? ==> r.value < |catalog| && IntentHits(tk, catalog[r.value], inputWords)
    ensures r.Some? ==> forall k :: 0 <= k < r.value ==> !IntentHits(tk, catalog[k], inputWords)
    ensures r.None? <==> forall k :: 0 <= k < |catalog| ==> !IntentHits(tk, catalog[k], inputWords)
  {
    if catalog == [] then None
    else if IntentHits(tk, catalog[0], inputWords) then Some(0)
    else
      match FirstExactIntent(tk, catalog[1..], inputWords)
      case None => None
      case Some(k) => Some(k + 1)
  }

  /** The first hit is unique: an intent that hits while every earlier one misses is it. */
  lemma FirstExactIntentIs(tk: Toolkit, catalog: Catalog, inputWords: seq<string>, i: nat)
    requires i < |catalog| && IntentHits(tk, catalog[i], inputWords)
    requires forall k :: 0 <= k < i ==> !IntentHits(tk, catalog[k], inputWords)
    ensures FirstExactIntent(tk, catalog, inputWords) == Some(i)
  {
  }

  /** A pattern that normalises to no tokens passes the exact test for every input, so the
      exact phase always hits at or before the first intent that holds such a pattern. */
  lemma EmptyPatternAlwaysHits(tk: Toolkit, catalog: Catalog, inputWords: seq<string>, i: nat, j: nat)
    requires i < |catalog| && j < |catalog[i].patterns|
    requires Preprocess(tk, catalog[i].patterns[j]) == []
    ensures FirstExactIntent(tk, catalog, inputWords).Some?
    ensures FirstExactIntent(tk, catalog, inputWords).value <= i
  {
    assert PatternHits(tk, catalog[i].patterns[j], inputWords);
    assert IntentHits(tk, catalog[i], inputWords);
  }
}
