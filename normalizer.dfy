/** The text normaliser: lower-case, tokenise, lemmatise each token. */
module Normalizer {

  /** The library helpers the normaliser calls: Python's `str.lower`, NLTK's
      `word_tokenize` and `WordNetLemmatizer.lemmatize`. They are taken as given
      (total, deterministic) functions; their internals are not part of this model. */
  datatype Toolkit = Toolkit(
    lower: string -> string,
    tokenize: string -> seq<string>,
    lemmatize: string -> string)

  /** The list comprehension that lemmatises each token in turn. */
  function LemmatizeAll(lemmatize: string -> string, tokens: seq<string>): (r: seq<string>)
    ensures |r| == |tokens|
    ensures forall k :: 0 <= k < |tokens| ==> r[k] == lemmatize(tokens[k])
  {
    if tokens == [] then [] else [lemmatize(tokens[0])] + LemmatizeAll(lemmatize, tokens[1..])
  }

  /** Lemmatising a concatenation lemmatises each part in place: no token moves. */
  lemma {:induction false} LemmatizeAllAppend(lemmatize: string -> string, a: seq<string>, b: seq<string>)
    ensures LemmatizeAll(lemmatize, a + b) == LemmatizeAll(lemmatize, a) + LemmatizeAll(lemmatize, b)
  {
    if a != [] {
      assert (a + b)[1..] == a[1..] + b;
      LemmatizeAllAppend(lemmatize, a[1..], b);
    } else {
      assert a + b == b;
    }
  }

  /** `preprocess_input`: one lemma per token of the lower-cased text, in token order. */
  function Preprocess(tk: Toolkit, text: string): (r: seq<string>)
    ensures |r| == |tk.tokenize(tk.lower(text))|
    ensures forall k :: 0 <= k < |r| ==> r[k] == tk.lemmatize(tk.tokenize(tk.lower(text))[k])
  {
    LemmatizeAll(tk.lemmatize, tk.tokenize(tk.lower(text)))
  }

  /** Total number of characters in the tokens. */
  function TotalLength(tokens: seq<string>): nat
  {
    if tokens == [] then 0 else |tokens[0]| + TotalLength(tokens[1..])
  }

  /** `' '.join(tokens)`: the tokens with one space between neighbours. */
  function Join(tokens: seq<string>): (r: string)
    ensures tokens == [] ==> r == ""
    ensures |tokens| == 1 ==> r == tokens[0]
    ensures tokens != [] ==> |r| == TotalLength(tokens) + |tokens| - 1
    ensures tokens != [] ==> r[..|tokens[0]|] == tokens[0]
  {
    if tokens == [] then ""
    else if |tokens| == 1 then tokens[0]
    else tokens[0] + " " + Join(tokens[1..])
  }
}
