/** The annotator that turns a document's text into its list of distinct tokens
    with their frequencies. */
module DocumentVectorAnnotator {
  import opened Seqs
  import opened WhitespaceSplit

  /** A Token annotation of the type system, as a plain value: the token text
      and the number of times it occurs in the document. */
  datatype TermFreq = TermFreq(text: string, frequency: int)

  /** The texts of a token list, in order. */
  function Texts(tokens: seq<TermFreq>): seq<string>
  {
    seq(|tokens|, k requires 0 <= k < |tokens| => tokens[k].text)
  }

  /** No two tokens of the list have the same text. */
  predicate DistinctTexts(tokens: seq<TermFreq>)
  {
    forall p, q :: 0 <= p < q < |tokens| ==> tokens[p].text != tokens[q].text
  }

  /** The sum of the frequencies of a token list. */
  function TotalFrequency(tokens: seq<TermFreq>): int
  {
    if tokens == [] then 0
    else TotalFrequency(tokens[..|tokens| - 1]) + tokens[|tokens| - 1].frequency
  }

  lemma TotalFrequencySnoc(tokens: seq<TermFreq>, k: nat)
    requires k < |tokens|
    ensures TotalFrequency(tokens[..k + 1]) == TotalFrequency(tokens[..k]) + tokens[k].frequency
  {
    assert tokens[..k + 1][..k] == tokens[..k];
  }

  /** The whitespace tokenizer: every piece of `doc.split("\\s+")`, in order.
      It deliberately does not split on punctuation. */
  method Tokenize0(doc: string) returns (res: seq<string>)
    ensures res == Split(doc)
    ensures forall k :: 0 <= k < |res| ==> NoSpace(res[k])
    ensures forall k :: 0 < k < |res| ==> res[k] != ""
  {
    res := [];
    var pieces := Split(doc);
    for i := 0 to |pieces|
      invariant res == pieces[..i]
    {
      res := res + [pieces[i]];
    }
    SplitNoSpace(doc);
    SplitNonEmptyAfterFirst(doc);
  }

  /** The inner loop of the fold: every token whose text equals `s` has its
      frequency incremented, and `found` records whether there was one. */
  method IncrementMatches(tokens: seq<TermFreq>, s: string) returns (updated: seq<TermFreq>, found: bool)
    requires DistinctTexts(tokens)
    ensures |updated| == |tokens|
    ensures forall p :: 0 <= p < |tokens| ==> updated[p].text == tokens[p].text
    ensures forall p :: 0 <= p < |tokens| ==>
              updated[p].frequency == tokens[p].frequency + (if tokens[p].text == s then 1 else 0)
    ensures found <==> s in Texts(tokens)
    ensures TotalFrequency(updated) == TotalFrequency(tokens) + (if found then 1 else 0)
  {
    updated := tokens;
    found := false;
    for k := 0 to |updated|
      invariant IncrementedUpTo(tokens, s, updated, k)
      invariant found <==> exists p :: 0 <= p < k && tokens[p].text == s
    {
      ghost var prev := updated;
      if updated[k].text == s {
        found := true;
        updated := updated[k := updated[k].(frequency := updated[k].frequency + 1)];
      }
      IncrementStep(tokens, s, prev, k, updated);
    }
    assert updated[..|updated|] == updated && tokens[..|tokens|] == tokens;
    MatchCount(tokens, s);
    if found {
      var p :| 0 <= p < |tokens| && tokens[p].text == s;
      assert Texts(tokens)[p] == s;
    }
  }

  /** The inner loop's invariant after `k` entries: the texts are kept, the
      entries before `k` that match are incremented, the rest are untouched,
      and the total of the prefix has grown by its number of matches. */
  ghost predicate IncrementedUpTo(tokens: seq<TermFreq>, s: string, updated: seq<TermFreq>, k: nat)
  {
    && k <= |tokens| == |updated|
    && (forall p :: 0 <= p < |updated| ==> updated[p].text == tokens[p].text)
    && (forall p :: 0 <= p < k ==>
          updated[p].frequency == tokens[p].frequency + (if tokens[p].text == s then 1 else 0))
    && (forall p :: k <= p < |updated| ==> updated[p] == tokens[p])
    && TotalFrequency(updated[..k]) == TotalFrequency(tokens[..k]) + Count(Texts(tokens)[..k], s)
  }

  /** One step of the inner loop keeps its invariant. */
  lemma IncrementStep(tokens: seq<TermFreq>, s: string, prev: seq<TermFreq>, k: nat, updated: seq<TermFreq>)
    requires k < |tokens| && IncrementedUpTo(tokens, s, prev, k)
    requires updated == if prev[k].text == s then prev[k := prev[k].(frequency := prev[k].frequency + 1)] else prev
    ensures IncrementedUpTo(tokens, s, updated, k + 1)
  {
    TotalFrequencySnoc(tokens, k);
    CountSnoc(Texts(tokens), k, s);
    TotalFrequencySnoc(updated, k);
    assert updated[..k] == prev[..k];
  }

  /** On distinct texts, a text is matched once if it is listed and never
      otherwise. */
  lemma MatchCount(tokens: seq<TermFreq>, s: string)
    requires DistinctTexts(tokens)
    ensures Texts(tokens)[..|tokens|] == Texts(tokens)
    ensures Count(Texts(tokens), s) == if s in Texts(tokens) then 1 else 0
  {
    var t := Texts(tokens);
    assert t[..|t|] == t;
    assert Distinct(t);
    CountDistinct(t, s);
    if s in t {
      CountPositive(t, s);
    } else {
      CountAbsent(t, s);
    }
  }

  /** What the fold has established after the first `i` tokens: the list holds
      their distinct texts in order of first occurrence, each with its count
      so far. */
  ghost predicate Folded(allTokens: seq<string>, i: nat, tokens: seq<TermFreq>)
    requires i <= |allTokens|
  {
    && Texts(tokens) == Dedup(allTokens[..i])
    && (forall k :: 0 <= k < |tokens| ==> tokens[k].frequency == Count(allTokens[..i], tokens[k].text))
    && TotalFrequency(tokens) == i
  }

  /** Tokenizes the text and folds the tokens into a list of distinct
      (text, frequency) pairs: each token is looked up by linear search, a
      match has its frequency incremented, and a token seen for the first time
      is appended with frequency 1. */
  method CreateTermFreqVector(docText: string) returns (tokens: seq<TermFreq>)
    ensures Texts(tokens) == Dedup(Split(docText))
    ensures DistinctTexts(tokens)
    ensures forall k :: 0 <= k < |tokens| ==> tokens[k].text in Split(docText)
    ensures forall s :: s in Split(docText) ==> s in Texts(tokens)
    ensures forall k :: 0 <= k < |tokens| ==> tokens[k].frequency == Count(Split(docText), tokens[k].text)
    ensures forall k :: 0 <= k < |tokens| ==> tokens[k].frequency >= 1
    ensures forall p, q :: 0 <= p < q < |tokens| ==>
              FirstIndex(Split(docText), tokens[p].text) < FirstIndex(Split(docText), tokens[q].text)
    ensures TotalFrequency(tokens) == |Split(docText)|
  {
    var allTokens := Tokenize0(docText);
    tokens := [];
    var found := false;
    for i := 0 to |allTokens|
      invariant Folded(allTokens, i, tokens)
    {
      var s := allTokens[i];
      ghost var before := tokens;
      FoldedDistinct(allTokens, i, tokens);
      tokens, found := IncrementMatches(tokens, s);
      if found {
        FoldIncrement(allTokens, i, before, tokens);
      } else {
        ghost var counted := tokens;
        tokens := tokens + [TermFreq(s, 1)];
        FoldAppend(allTokens, i, before, counted, tokens);
      }
    }
    FoldDone(allTokens, tokens);
  }

  /** The list the fold builds has distinct texts. */
  lemma FoldedDistinct(allTokens: seq<string>, i: nat, tokens: seq<TermFreq>)
    requires i <= |allTokens| && Folded(allTokens, i, tokens)
    ensures DistinctTexts(tokens)
  {
    DedupDistinct(allTokens[..i]);
    assert forall k :: 0 <= k < |tokens| ==> Texts(tokens)[k] == tokens[k].text;
  }

  /** After the inner loop the counts cover one more token. */
  lemma FoldCounts(allTokens: seq<string>, i: nat, before: seq<TermFreq>, tokens: seq<TermFreq>)
    requires i < |allTokens|
    requires forall k :: 0 <= k < |before| ==> before[k].frequency == Count(allTokens[..i], before[k].text)
    requires |tokens| == |before|
    requires forall p :: 0 <= p < |before| ==> tokens[p].text == before[p].text
    requires forall p :: 0 <= p < |before| ==>
               tokens[p].frequency == before[p].frequency + (if before[p].text == allTokens[i] then 1 else 0)
    ensures forall k :: 0 <= k < |tokens| ==> tokens[k].frequency == Count(allTokens[..i + 1], tokens[k].text)
  {
    forall k | 0 <= k < |tokens|
      ensures tokens[k].frequency == Count(allTokens[..i + 1], tokens[k].text)
    {
      CountSnoc(allTokens, i, tokens[k].text);
    }
  }

  /** The distinct texts of one more token: unchanged when it is already
      listed, extended by it otherwise. */
  lemma DedupStep(allTokens: seq<string>, i: nat)
    requires i < |allTokens|
    ensures allTokens[i] in Dedup(allTokens[..i]) <==> allTokens[i] in allTokens[..i]
    ensures Dedup(allTokens[..i + 1])
            == if allTokens[i] in Dedup(allTokens[..i]) then Dedup(allTokens[..i])
               else Dedup(allTokens[..i]) + [allTokens[i]]
  {
    assert allTokens[..i + 1][..i] == allTokens[..i];
    DedupMembers(allTokens[..i]);
  }

  /** A token seen before: its entry is incremented and nothing else changes. */
  lemma FoldIncrement(allTokens: seq<string>, i: nat, before: seq<TermFreq>, tokens: seq<TermFreq>)
    requires i < |allTokens| && Folded(allTokens, i, before)
    requires |tokens| == |before|
    requires forall p :: 0 <= p < |before| ==> tokens[p].text == before[p].text
    requires forall p :: 0 <= p < |before| ==>
               tokens[p].frequency == before[p].frequency + (if before[p].text == allTokens[i] then 1 else 0)
    requires allTokens[i] in Texts(before)
    requires TotalFrequency(tokens) == TotalFrequency(before) + 1
    ensures Folded(allTokens, i + 1, tokens)
  {
    FoldCounts(allTokens, i, before, tokens);
    DedupStep(allTokens, i);
    assert Texts(tokens) == Texts(before);
  }

  /** A token seen for the first time is appended with frequency 1. */
  lemma FoldAppend(allTokens: seq<string>, i: nat, before: seq<TermFreq>, counted: seq<TermFreq>, tokens: seq<TermFreq>)
    requires i < |allTokens| && Folded(allTokens, i, before)
    requires |counted| == |before|
    requires forall p :: 0 <= p < |before| ==> counted[p].text == before[p].text
    requires forall p :: 0 <= p < |before| ==>
               counted[p].frequency == before[p].frequency + (if before[p].text == allTokens[i] then 1 else 0)
    requires allTokens[i] !in Texts(before)
    requires TotalFrequency(counted) == TotalFrequency(before)
    requires tokens == counted + [TermFreq(allTokens[i], 1)]
    ensures Folded(allTokens, i + 1, tokens)
  {
    FoldCounts(allTokens, i, before, counted);
    DedupStep(allTokens, i);
    assert Texts(counted) == Texts(before);
    assert Texts(tokens) == Texts(counted) + [allTokens[i]];
    AppendCounts(allTokens, i, counted, tokens);
  }

  /** The appended entry counts the one occurrence of a new text; the other
      counts are unchanged. */
  lemma AppendCounts(allTokens: seq<string>, i: nat, counted: seq<TermFreq>, tokens: seq<TermFreq>)
    requires i < |allTokens| && allTokens[i] !in allTokens[..i]
    requires forall k :: 0 <= k < |counted| ==> counted[k].frequency == Count(allTokens[..i + 1], counted[k].text)
    requires TotalFrequency(counted) == i
    requires tokens == counted + [TermFreq(allTokens[i], 1)]
    ensures forall k :: 0 <= k < |tokens| ==> tokens[k].frequency == Count(allTokens[..i + 1], tokens[k].text)
    ensures TotalFrequency(tokens) == i + 1
  {
    var s := allTokens[i];
    CountSnoc(allTokens, i, s);
    CountAbsent(allTokens[..i], s);
    assert tokens[..|counted|] == counted;
  }

  /** When all tokens are consumed, the invariant is the contract. */
  lemma FoldDone(allTokens: seq<string>, tokens: seq<TermFreq>)
    requires Folded(allTokens, |allTokens|, tokens)
    ensures Texts(tokens) == Dedup(allTokens)
    ensures DistinctTexts(tokens)
    ensures forall k :: 0 <= k < |tokens| ==> tokens[k].text in allTokens
    ensures forall s :: s in allTokens ==> s in Texts(tokens)
    ensures forall k :: 0 <= k < |tokens| ==> tokens[k].frequency == Count(allTokens, tokens[k].text)
    ensures forall k :: 0 <= k < |tokens| ==> tokens[k].frequency >= 1
    ensures forall p, q :: 0 <= p < q < |tokens| ==>
              FirstIndex(allTokens, tokens[p].text) < FirstIndex(allTokens, tokens[q].text)
    ensures TotalFrequency(tokens) == |allTokens|
  {
    assert allTokens[..|allTokens|] == allTokens;
    FoldedDistinct(allTokens, |allTokens|, tokens);
    DedupMembers(allTokens);
    DedupOrder(allTokens);
    assert forall k :: 0 <= k < |tokens| ==> tokens[k].text == Dedup(allTokens)[k];
    forall k | 0 <= k < |tokens|
      ensures tokens[k].frequency >= 1
    {
      CountPositive(allTokens, tokens[k].text);
    }
  }

  /** The empty text is not an empty token list: `"".split("\\s+")` is `[""]`,
      so the list holds one empty token with frequency 1. */
  lemma EmptyTextTokens()
    ensures Dedup(Split("")) == [""]
    ensures Count(Split(""), "") == 1
  {
    SplitEmptyText();
    assert [""][..0] == [];
  }
}
