/** The intent catalog: an immutable, ordered sequence of intents loaded once at start-up. */
module Intents {

  /** One record of the intents file: its tag, its example phrases and its canned replies. */
  datatype Intent = Intent(tag: string, patterns: seq<string>, responses: seq<string>)

  type Catalog = seq<Intent>

  /** `all_patterns`: every intent's patterns, intent after intent, in catalog order. */
  function AllPatterns(catalog: Catalog): (r: seq<string>)
    ensures forall p :: p in r <==> exists i :: 0 <= i < |catalog| && p in catalog[i].patterns
  {
    if catalog == [] then []
    else
      var rest := AllPatterns(catalog[1..]);
      assert forall i :: 1 <= i < |catalog| ==> catalog[1..][i - 1] == catalog[i];
      catalog[0].patterns + rest
  }

  /** Flattening distributes over concatenation of catalogs: the order of intents is kept. */
  lemma {:induction false} AllPatternsAppend(c1: Catalog, c2: Catalog)
    ensures AllPatterns(c1 + c2) == AllPatterns(c1) + AllPatterns(c2)
  {
    if c1 == [] {
      assert c1 + c2 == c2;
    } else {
      assert (c1 + c2)[1..] == c1[1..] + c2;
      AllPatternsAppend(c1[1..], c2);
    }
  }

  /** Pattern `j` of intent `i` sits in the flattened list right after the patterns of
      the intents before `i` and the first `j` patterns of intent `i`. */
  lemma AllPatternsAt(catalog: Catalog, i: nat, j: nat)
    requires i < |catalog| && j < |catalog[i].patterns|
    ensures |AllPatterns(catalog[..i])| + j < |AllPatterns(catalog)|
    ensures AllPatterns(catalog)[|AllPatterns(catalog[..i])| + j] == catalog[i].patterns[j]
  {
    assert catalog == catalog[..i] + ([catalog[i]] + catalog[i + 1..]);
    AllPatternsAppend(catalog[..i], [catalog[i]] + catalog[i + 1..]);
    assert AllPatterns([catalog[i]] + catalog[i + 1..]) == catalog[i].patterns + AllPatterns(catalog[i + 1..]) by {
      assert ([catalog[i]] + catalog[i + 1..])[1..] == catalog[i + 1..];
    }
  }
}
