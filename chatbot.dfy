/** `chatbot`: exact phase first, then the similarity fallback, then the fixed apology. */
module Chatbot {
  import opened Wrappers
  import opened Intents
  import opened Normalizer
  import opened Similarity
  import opened ExactMatch
  import opened FuzzyMatch

  /** The reply when neither phase finds an intent. */
  const Fallback: string := "I'm sorry, I didn't understand that. Can you please rephrase?"

  /** `random.choice` raises on an empty list of responses. */
  datatype Error = EmptyResponses

  /** `random.choice(responses)`, with the random draw given as `pick`: the reply is the
      response at `pick` modulo the number of responses. */
  function Choose(responses: seq<string>, pick: nat): (r: Result<string, Error>)
    ensures r.Failure? <==> responses == []
    ensures r.Success? ==> r.value in responses
  {
    if responses == [] then Failure(EmptyResponses) else Success(responses[pick % |responses|])
  }

  /** Every response can be drawn: the draw `k` gives response `k`. */
  lemma ChooseReachesEvery(responses: seq<string>, k: nat)
    requires k < |responses|
    ensures Choose(responses, k) == Success(responses[k])
  {
  }

  /** The reply `chatbot` gives, as a definition: the first exact hit, else the fuzzy
      matcher's intent, else the fallback. */
  function Respond(tk: Toolkit, count: MatchCounter, catalog: Catalog, inputText: string, pick: nat)
    : (r: Result<string, Error>)
    ensures r.Success? ==> r.value == Fallback || exists i :: 0 <= i < |catalog| && r.value in catalog[i].responses
    ensures r.Failure? ==> exists i :: 0 <= i < |catalog| && catalog[i].responses == []
  {
    var inputWords := Preprocess(tk, inputText);
    match FirstExactIntent(tk, catalog, inputWords)
    case Some(i) => Choose(catalog[i].responses, pick)
    case None =>
      match BestMatch(ScoreTable(tk, count, catalog, inputWords))
      case Some(i) => Choose(catalog[i].responses, pick)
      case None => Success(Fallback)
  }

  /** `chatbot`: the exact phase scans intents in catalog order and each intent's patterns
      in order, and returns on the first pattern whose tokens are all among the input's. */
  method Chat(tk: Toolkit, count: MatchCounter, catalog: Catalog, inputText: string, pick: nat)
    returns (reply: Result<string, Error>)
    ensures reply == Respond(tk, count, catalog, inputText, pick)
  {
    var inputWords := Preprocess(tk, inputText);

    for i := 0 to |catalog|
      invariant forall k :: 0 <= k < i ==> !IntentHits(tk, catalog[k], inputWords)
    {
      var patterns := catalog[i].patterns;
      for j := 0 to |patterns|
        invariant forall l :: 0 <= l < j ==> !PatternHits(tk, patterns[l], inputWords)
      {
        var patternWords := Preprocess(tk, patterns[j]);
        if Subset(patternWords, inputWords) {
          assert IntentHits(tk, catalog[i], inputWords);
          FirstExactIntentIs(tk, catalog, inputWords, i);
          reply := Choose(catalog[i].responses, pick);
          return;
        }
      }
    }

    var bestMatch := FindBestMatch(tk, count, catalog, inputText);
    if bestMatch.Some? {
      reply := Choose(catalog[bestMatch.value].responses, pick);
      return;
    }

    reply := Success(Fallback);
  }

  /** Exact before fuzzy: when intent `i` is the first to pass the subset test, the reply is
      drawn from intent `i`'s responses, whatever the similarity scores are. */
  lemma ExactHitDecides(tk: Toolkit, count: MatchCounter, catalog: Catalog, inputText: string, pick: nat, i: nat)
    requires i < |catalog| && IntentHits(tk, catalog[i], Preprocess(tk, inputText))
    requires forall k :: 0 <= k < i ==> !IntentHits(tk, catalog[k], Preprocess(tk, inputText))
    ensures Respond(tk, count, catalog, inputText, pick) == Choose(catalog[i].responses, pick)
  {
    FirstExactIntentIs(tk, catalog, Preprocess(tk, inputText), i);
  }

  /** The fuzzy phase decides only when no pattern passes the subset test: the reply then
      comes from the earliest intent whose best score is the overall maximum, when that
      maximum is at least the threshold. */
  lemma FuzzyHitDecides(tk: Toolkit, count: MatchCounter, catalog: Catalog, inputText: string, pick: nat, i: nat)
    requires forall k :: 0 <= k < |catalog| ==> !IntentHits(tk, catalog[k], Preprocess(tk, inputText))
    requires var t := ScoreTable(tk, count, catalog, Preprocess(tk, inputText));
             && i < |t| && TableMax(t) >= Threshold && TableMax(t) in t[i]
             && forall a, b :: 0 <= a < i && 0 <= b < |t[a]| ==> t[a][b] < TableMax(t)
    ensures Respond(tk, count, catalog, inputText, pick) == Choose(catalog[i].responses, pick)
  {
    var inputWords := Preprocess(tk, inputText);
    assert FirstExactIntent(tk, catalog, inputWords) == None;
    BestMatchIs(ScoreTable(tk, count, catalog, inputWords), i);
  }

  /** With no pattern passing the subset test and the best score below the threshold, the
      reply is exactly the fallback, for every catalog. */
  lemma NoMatchGivesFallback(tk: Toolkit, count: MatchCounter, catalog: Catalog, inputText: string, pick: nat)
    requires forall k :: 0 <= k < |catalog| ==> !IntentHits(tk, catalog[k], Preprocess(tk, inputText))
    requires TableMax(ScoreTable(tk, count, catalog, Preprocess(tk, inputText))) < Threshold
    ensures Respond(tk, count, catalog, inputText, pick) == Success(Fallback)
  {
  }

  /** Conversely, when no intent lists the fallback as a response, a fallback reply means no
      pattern passed the subset test and the best score was below the threshold. */
  lemma FallbackOnlyWhenNoMatch(tk: Toolkit, count: MatchCounter, catalog: Catalog, inputText: string, pick: nat)
    requires forall i :: 0 <= i < |catalog| ==> Fallback !in catalog[i].responses
    requires Respond(tk, count, catalog, inputText, pick) == Success(Fallback)
    ensures forall k :: 0 <= k < |catalog| ==> !IntentHits(tk, catalog[k], Preprocess(tk, inputText))
    ensures TableMax(ScoreTable(tk, count, catalog, Preprocess(tk, inputText))) < Threshold
  {
  }
}
