/** The token list of a document as the map from token text to frequency
    that the consumer stores. */
module TokenMaps {
  import opened Seqs
  import opened DocumentVectorAnnotator

  /** The map that `put`ting every (text, frequency) pair in list order leaves:
      a later pair with the same text overwrites an earlier one. */
  function TokensMapOf(tokens: seq<TermFreq>): (r: map<string, int>)
    ensures |r| <= |tokens|
    ensures |r| == 0 <==> tokens == []
  {
    if tokens == [] then map[]
    else TokensMapOf(tokens[..|tokens| - 1])[tokens[|tokens| - 1].text := tokens[|tokens| - 1].frequency]
  }

  /** The keys are exactly the texts of the list. */
  lemma {:induction false} TokensMapKeys(tokens: seq<TermFreq>)
    ensures forall s :: s in TokensMapOf(tokens) <==> exists k :: 0 <= k < |tokens| && tokens[k].text == s
  {
    if tokens != [] {
      var n := |tokens| - 1;
      TokensMapKeys(tokens[..n]);
      assert forall k :: 0 <= k < n ==> tokens[..n][k] == tokens[k];
    }
  }

  /** A text is mapped to the frequency of its last pair in the list. */
  lemma {:induction false} TokensMapLast(tokens: seq<TermFreq>, k: nat)
    requires k < |tokens|
    requires forall j :: k < j < |tokens| ==> tokens[j].text != tokens[k].text
    ensures tokens[k].text in TokensMapOf(tokens)
    ensures TokensMapOf(tokens)[tokens[k].text] == tokens[k].frequency
  {
    var n := |tokens| - 1;
    if k < n {
      assert forall j :: k < j < n ==> tokens[..n][j] == tokens[j];
      TokensMapLast(tokens[..n], k);
    }
  }

  /** On a list of distinct texts every text is mapped to its own frequency. */
  lemma TokensMapDistinct(tokens: seq<TermFreq>)
    requires DistinctTexts(tokens)
    ensures forall k :: 0 <= k < |tokens| ==>
              tokens[k].text in TokensMapOf(tokens) && TokensMapOf(tokens)[tokens[k].text] == tokens[k].frequency
  {
    forall k | 0 <= k < |tokens|
      ensures tokens[k].text in TokensMapOf(tokens) && TokensMapOf(tokens)[tokens[k].text] == tokens[k].frequency
    {
      TokensMapLast(tokens, k);
    }
  }

  /** The token list the annotator builds for a text becomes, as a map, the
      occurrence count of every token of the text and nothing else. */
  lemma TokensMapCounts(words: seq<string>, tokens: seq<TermFreq>)
    requires DistinctTexts(tokens)
    requires forall k :: 0 <= k < |tokens| ==> tokens[k].text in words
    requires forall s :: s in words ==> s in Texts(tokens)
    requires forall k :: 0 <= k < |tokens| ==> tokens[k].frequency == Count(words, tokens[k].text)
    ensures forall s :: s in TokensMapOf(tokens) <==> s in words
    ensures forall s :: s in TokensMapOf(tokens) ==> TokensMapOf(tokens)[s] == Count(words, s)
  {
    TokensMapKeys(tokens);
    TokensMapDistinct(tokens);
    forall s | s in words
      ensures s in TokensMapOf(tokens)
    {
      var k :| 0 <= k < |Texts(tokens)| && Texts(tokens)[k] == s;
      assert tokens[k].text == s;
    }
  }

  /** `getTokensMap`: every pair of the list is put into a fresh map. */
  method GetTokensMap(tokens: seq<TermFreq>) returns (res: map<string, int>)
    ensures res == TokensMapOf(tokens)
    ensures forall s :: s in res <==> exists k :: 0 <= k < |tokens| && tokens[k].text == s
    ensures DistinctTexts(tokens) ==> forall k :: 0 <= k < |tokens| ==> res[tokens[k].text] == tokens[k].frequency
  {
    res := map[];
    for i := 0 to |tokens|
      invariant res == TokensMapOf(tokens[..i])
    {
      assert tokens[..i + 1][..i] == tokens[..i];
      res := res[tokens[i].text := tokens[i].frequency];
    }
    assert tokens[..|tokens|] == tokens;
    TokensMapKeys(tokens);
    if DistinctTexts(tokens) {
      TokensMapDistinct(tokens);
    }
  }
}
