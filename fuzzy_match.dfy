/** `find_best_match`: the similarity fallback, a running argmax over every (intent, pattern) pair. */
module FuzzyMatch {
  import opened Wrappers
  import opened Intents
  import opened Normalizer
  import opened Similarity

  /** Scores laid out as the scan meets them: row `i` holds the scores of intent `i`'s patterns. */
  type Table = seq<seq<real>>

  /** The score of one pattern: the ratio between the space-joined normalised input and the
      space-joined normalised pattern. */
  function PatternScore(tk: Toolkit, count: MatchCounter, inputWords: seq<string>, pattern: string): (r: real)
    ensures r >= Threshold <==>
      10 * count(Join(inputWords), Join(Preprocess(tk, pattern))) >= 3 * (|Join(inputWords)| + |Join(Preprocess(tk, pattern))|)
  {
    Score(count, Join(inputWords), Join(Preprocess(tk, pattern)))
  }

  /** Every score of the catalog against the normalised input. */
  function ScoreTable(tk: Toolkit, count: MatchCounter, catalog: Catalog, inputWords: seq<string>): (t: Table)
    ensures |t| == |catalog|
    ensures forall i :: 0 <= i < |t| ==> |t[i]| == |catalog[i].patterns|
    ensures forall i, j :: 0 <= i < |t| && 0 <= j < |t[i]| ==>
              t[i][j] == PatternScore(tk, count, inputWords, catalog[i].patterns[j])
  {
    seq(|catalog|, i requires 0 <= i < |catalog| =>
      seq(|catalog[i].patterns|, j requires 0 <= j < |catalog[i].patterns| =>
        PatternScore(tk, count, inputWords, catalog[i].patterns[j])))
  }

  /** The scores in the order the scan visits them: row after row. */
  function Flatten(t: Table): seq<real>
  {
    if t == [] then [] else t[0] + Flatten(t[1..])
  }

  /** The score of each phrase of a list of patterns, in list order. */
  function ScoresOf(tk: Toolkit, count: MatchCounter, inputWords: seq<string>, patterns: seq<string>): seq<real>
  {
    seq(|patterns|, k requires 0 <= k < |patterns| => PatternScore(tk, count, inputWords, patterns[k]))
  }

  /** The scan visits exactly the phrases of `all_patterns`, in that order: the table, read
      row after row, is the score of each phrase of the flattened catalog. */
  lemma {:induction false} ScoreTableFollowsAllPatterns(tk: Toolkit, count: MatchCounter, catalog: Catalog, inputWords: seq<string>)
    ensures Flatten(ScoreTable(tk, count, catalog, inputWords)) == ScoresOf(tk, count, inputWords, AllPatterns(catalog))
  {
    if catalog != [] {
      var t := ScoreTable(tk, count, catalog, inputWords);
      assert t[1..] == ScoreTable(tk, count, catalog[1..], inputWords);
      ScoreTableFollowsAllPatterns(tk, count, catalog[1..], inputWords);
      var head, rest := catalog[0].patterns, AllPatterns(catalog[1..]);
      assert t[0] == ScoresOf(tk, count, inputWords, head);
      assert ScoresOf(tk, count, inputWords, head + rest)
          == ScoresOf(tk, count, inputWords, head) + ScoresOf(tk, count, inputWords, rest);
    }
  }

  function Max(a: real, b: real): real
  {
    if a < b then b else a
  }

  /** The largest score of a row, or 0.0 when no score is above 0.0. */
  function RowMax(row: seq<real>): (m: real)
    ensures m >= 0.0
    ensures forall j :: 0 <= j < |row| ==> row[j] <= m
    ensures m == 0.0 || m in row
  {
    if row == [] then 0.0 else Max(row[0], RowMax(row[1..]))
  }

  /** The largest score of the table, or 0.0 when no score is above 0.0: the value that
      `highest_similarity`, seeded with 0.0, holds once the scan is over. */
  function TableMax(t: Table): (m: real)
    ensures m >= 0.0
    ensures forall i, j :: 0 <= i < |t| && 0 <= j < |t[i]| ==> t[i][j] <= m
    ensures m == 0.0 || exists i :: 0 <= i < |t| && m in t[i]
  {
    if t == [] then 0.0
    else
      var rest := TableMax(t[1..]);
      assert forall i :: 1 <= i < |t| ==> t[1..][i - 1] == t[i];
      Max(RowMax(t[0]), rest)
  }

  /** The first row, in table order, that holds the score `m`. */
  function FirstReaching(t: Table, m: real): (r: Option<nat>)
    ensures r.Some? ==> r.value < |t| && m in t[r.value]
    ensures r.Some? ==> forall i :: 0 <= i < r.value ==> m !in t[i]
    ensures r.None? <==> forall i :: 0 <= i < |t| ==> m !in t[i]
  {
    if t == [] then None
    else if m in t[0] then Some(0)
    else
      match FirstReaching(t[1..], m)
      case None => None
      case Some(k) => Some(k + 1)
  }

  /** The reference definition of the fuzzy matcher's answer: the first intent to reach the
      maximum score, provided that maximum clears the threshold; otherwise no intent. */
  function BestMatch(t: Table): (r: Option<nat>)
    ensures r.Some? <==> TableMax(t) >= Threshold
    ensures r.Some? ==> r.value < |t| && TableMax(t) in t[r.value]
    ensures r.Some? ==> forall i, j :: 0 <= i < r.value && 0 <= j < |t[i]| ==> t[i][j] < TableMax(t)
  {
    var m := TableMax(t);
    if m >= Threshold then FirstReaching(t, m) else None
  }

  /** The earliest maximum is unique: a row that reaches a maximum at or above the threshold,
      with every earlier row strictly below it, is the one `BestMatch` picks. */
  lemma BestMatchIs(t: Table, i: nat)
    requires i < |t| && TableMax(t) >= Threshold && TableMax(t) in t[i]
    requires forall a, b :: 0 <= a < i && 0 <= b < |t[a]| ==> t[a][b] < TableMax(t)
    ensures BestMatch(t) == Some(i)
  {
  }

  /** What the scan of `find_best_match` knows after visiting every pair before (i, j) in
      catalog-then-pattern order, with `best_match` and `highest_similarity` as given. */
  ghost predicate Scanned(t: Table, i: nat, j: nat, best: Option<nat>, highest: real)
    requires i <= |t| && (i < |t| ==> j <= |t[i]|)
  {
    && highest >= 0.0
    && (forall a, b :: 0 <= a < i && 0 <= b < |t[a]| ==> t[a][b] <= highest)
    && (i < |t| ==> forall b :: 0 <= b < j ==> t[i][b] <= highest)
    && (best.None? ==> highest == 0.0)
    && (best.Some? ==>
          && highest > 0.0
          && best.value <= i && best.value < |t|
          && (best.value < i ==> highest in t[best.value])
          && (best.value == i ==> highest in t[i][..j])
          && (forall a, b :: 0 <= a < best.value && 0 <= b < |t[a]| ==> t[a][b] < highest))
  }

  /** `find_best_match`: the nested scan that keeps the first strictly greater score. */
  method FindBestMatch(tk: Toolkit, count: MatchCounter, catalog: Catalog, inputText: string)
    returns (best: Option<nat>)
    ensures best == BestMatch(ScoreTable(tk, count, catalog, Preprocess(tk, inputText)))
  {
    var bestMatch: Option<nat> := None;
    var highestSimilarity := 0.0;
    var processedInput := Preprocess(tk, inputText);
    ghost var t := ScoreTable(tk, count, catalog, processedInput);

    for i := 0 to |catalog|
      invariant Scanned(t, i, 0, bestMatch, highestSimilarity)
    {
      var patterns := catalog[i].patterns;
      for j := 0 to |patterns|
        invariant Scanned(t, i, j, bestMatch, highestSimilarity)
      {
        var processedPattern := Preprocess(tk, patterns[j]);
        var similarity := Score(count, Join(processedInput), Join(processedPattern));
        assert similarity == t[i][j];
        ghost var before, was := bestMatch, highestSimilarity;
        if similarity > highestSimilarity {
          highestSimilarity := similarity;
          bestMatch := Some(i);
        }
        ScanStep(t, i, j, before, was, bestMatch, highestSimilarity);
      }
      ScanRowDone(t, i, bestMatch, highestSimilarity);
    }

    ScanIsMaximum(t, bestMatch, highestSimilarity);
    if highestSimilarity >= Threshold {
      best := bestMatch;
    } else {
      best := None;
    }
  }

  /** Visiting pair (i, j): the best is replaced only on a strictly greater score. */
  lemma ScanStep(t: Table, i: nat, j: nat, best: Option<nat>, highest: real, best': Option<nat>, highest': real)
    requires i < |t| && j < |t[i]|
    requires Scanned(t, i, j, best, highest)
    requires best' == (if t[i][j] > highest then Some(i) else best)
    requires highest' == (if t[i][j] > highest then t[i][j] else highest)
    ensures Scanned(t, i, j + 1, best', highest')
  {
    assert t[i][..j + 1] == t[i][..j] + [t[i][j]];
  }

  /** Finishing the patterns of intent i is starting intent i + 1. */
  lemma ScanRowDone(t: Table, i: nat, best: Option<nat>, highest: real)
    requires i < |t|
    requires Scanned(t, i, |t[i]|, best, highest)
    ensures Scanned(t, i + 1, 0, best, highest)
  {
    assert t[i][..|t[i]|] == t[i];
  }

  /** A finished scan holds the table's maximum, and the earliest row that reaches it. */
  lemma ScanIsMaximum(t: Table, best: Option<nat>, highest: real)
    requires Scanned(t, |t|, 0, best, highest)
    ensures highest == TableMax(t)
    ensures highest > 0.0 ==> best == FirstReaching(t, highest)
    ensures best.None? <==> TableMax(t) == 0.0
  {
    var m := TableMax(t);
    if m != 0.0 {
      var i :| 0 <= i < |t| && m in t[i];
      var j :| 0 <= j < |t[i]| && t[i][j] == m;
      assert m <= highest;
    }
    if best.Some? {
      var j :| 0 <= j < |t[best.value]| && t[best.value][j] == highest;
      assert highest <= m;
    }
  }

  /** A pattern that normalises to the same joined text as the input, all of whose characters
      the matcher pairs up, scores 1.0 and so always clears the threshold. */
  lemma IdenticalPatternMatches(tk: Toolkit, count: MatchCounter, catalog: Catalog, inputWords: seq<string>, i: nat, j: nat)
    requires i < |catalog| && j < |catalog[i].patterns|
    requires Join(Preprocess(tk, catalog[i].patterns[j])) == Join(inputWords)
    requires count(Join(inputWords), Join(inputWords)) == |Join(inputWords)|
    ensures BestMatch(ScoreTable(tk, count, catalog, inputWords)).Some?
  {
    var t := ScoreTable(tk, count, catalog, inputWords);
    IdenticalScoresOne(count, Join(inputWords));
    assert t[i][j] == 1.0;
  }

  /** When the matcher finds no common character between the non-empty input and any
      pattern of the catalog, every score is 0.0 and the fuzzy matcher answers no intent. */
  lemma NothingSharedNoMatch(tk: Toolkit, count: MatchCounter, catalog: Catalog, inputWords: seq<string>)
    requires |Join(inputWords)| > 0
    requires forall i, j :: 0 <= i < |catalog| && 0 <= j < |catalog[i].patterns| ==>
               count(Join(inputWords), Join(Preprocess(tk, catalog[i].patterns[j]))) == 0
    ensures BestMatch(ScoreTable(tk, count, catalog, inputWords)) == None
  {
    var t := ScoreTable(tk, count, catalog, inputWords);
    assert forall i, j :: 0 <= i < |t| && 0 <= j < |t[i]| ==> t[i][j] == 0.0;
  }
}
