# Term-frequency retrieval evaluation, modelled in Dafny

The system is a small retrieval pipeline written as two UIMA components.

The annotator `DocumentVectorAnnotator` splits a document's text on runs of
whitespace. It folds the tokens into a list of distinct (text, frequency)
pairs, in order of first occurrence.

The consumer `RetrievalEvaluator` stores one record per document in four
parallel lists: query id, relevance label, text and token map. Once the
collection is complete it does the following for every record labelled 99,
the query:

- It scores by cosine similarity every record labelled 0 or 1 whose query id
  is the same `Integer` object as the query's. The model compares the ids by
  value instead (see "## Findings"). The two token maps are first aligned over their union
  vocabulary.
- It sorts each query's list by non-increasing similarity and ranks the list
  1, 2, ....
- It reports the mean reciprocal rank (MRR): the sum of 1/rank over the
  entries labelled 1, divided by the number of query lists.

The Dafny modules follow that structure:

- `WhitespaceSplit`: Java's `String.split("\\s+")` written out over the `\s`
  character class.
- `DocumentVectorAnnotator`: the whitespace tokenizer and the term-frequency
  fold. Both are methods with loops.
- `Seqs`: counting, first occurrence, and `Dedup`, the reference definition of
  "the distinct elements in order of first occurrence".
- `TokenMaps`: `getTokensMap`.
- `TermVectors`: dot products and squared norms as sums over a map's key set.
  Such a sum does not depend on the order in which the keys are visited.
- `VectorScoring`: `getTokensUnion`, `getVector` and the accumulator loop of
  `computeCosineSimilarity`. Each `keySet()` loop visits the keys in an
  arbitrary order.
- `Ranking`: the `Similarity` entries and `compareTo`. It also holds the
  in-place sort of an array, the ranking loop and the reciprocal-rank sums.
- `CandidateSelection`: which records are queries and which are the
  candidates of a query. It also holds the boxed-`Integer` comparison of
  query ids.
- `RetrievalEvaluation`: the consumer as a class with its four list fields. It
  holds `processCas`, `computeCosineSimilarityMap`, `computeMRR` and
  `collectionProcessComplete`.

An empty text does not tokenize to an empty list: `"".split("\\s+")` is
`[""]`, so `createTermFreqVector` yields one empty token with frequency 1
(`DocumentVectorAnnotator.EmptyTextTokens`).

The sort promises neither a stable order of ties nor a fixed place for NaN.
The comparator never returns 0 and answers 1 both ways on a tie
(`Ranking.CompareToTies`), so the model claims neither.

The evaluator builds one list per record labelled 99, not one per distinct
query id.

## Model

| member | source | states |
|---|---|---|
| `WhitespaceSplit.Split` | src/main/java/edu/cmu/lti/f14/hw3/hw3_mgowayye/annotators/DocumentVectorAnnotator.java:49 | `split("\\s+")` with limit 0 over the `\s` class: a text the pattern does not match is returned as the only piece; otherwise trailing empty pieces are dropped, so the last token is never empty |
| `WhitespaceSplit.SplitNoSpace` | src/main/java/edu/cmu/lti/f14/hw3/hw3_mgowayye/annotators/DocumentVectorAnnotator.java:49 | no token of `split("\\s+")` contains a `\s` character |
| `WhitespaceSplit.SplitNonEmptyAfterFirst` | src/main/java/edu/cmu/lti/f14/hw3/hw3_mgowayye/annotators/DocumentVectorAnnotator.java:49 | every token after the first is non-empty |
| `WhitespaceSplit.SplitEmpty` | src/main/java/edu/cmu/lti/f14/hw3/hw3_mgowayye/annotators/DocumentVectorAnnotator.java:49 | there are no tokens exactly when the text is non-empty and all whitespace |
| `WhitespaceSplit.SplitFirstEmpty` | src/main/java/edu/cmu/lti/f14/hw3/hw3_mgowayye/annotators/DocumentVectorAnnotator.java:49 | the first token is empty exactly when the text is empty, or starts with whitespace and is not all whitespace |
| `WhitespaceSplit.SplitKeepsText` | src/main/java/edu/cmu/lti/f14/hw3/hw3_mgowayye/annotators/DocumentVectorAnnotator.java:49 | the tokens, concatenated, are the text with its whitespace removed: no other character is lost or added |
| `WhitespaceSplit.SplitJoin` | src/main/java/edu/cmu/lti/f14/hw3/hw3_mgowayye/annotators/DocumentVectorAnnotator.java:49 | joining non-empty whitespace-free tokens with single spaces and splitting again gives the tokens back |
| `WhitespaceSplit.SplitEmptyText` | src/main/java/edu/cmu/lti/f14/hw3/hw3_mgowayye/annotators/DocumentVectorAnnotator.java:49 | the empty text gives one empty token |
| `WhitespaceSplit.SplitBlank` | src/main/java/edu/cmu/lti/f14/hw3/hw3_mgowayye/annotators/DocumentVectorAnnotator.java:49 | a text made of whitespace only gives no token (trailing empty pieces are dropped) |
| `WhitespaceSplit.SplitLeadingSpace` | src/main/java/edu/cmu/lti/f14/hw3/hw3_mgowayye/annotators/DocumentVectorAnnotator.java:49 | leading whitespace gives a leading empty token |
| `WhitespaceSplit.SplitRepeatedWord` | src/main/java/edu/cmu/lti/f14/hw3/hw3_mgowayye/annotators/DocumentVectorAnnotator.java:49 | `"a a b"` gives `a`, `a`, `b` |
| `DocumentVectorAnnotator.Tokenize0` | src/main/java/edu/cmu/lti/f14/hw3/hw3_mgowayye/annotators/DocumentVectorAnnotator.java:46-52 | the loop returns exactly the pieces of the split; none holds whitespace, and all after the first are non-empty |
| `DocumentVectorAnnotator.IncrementMatches` | src/main/java/edu/cmu/lti/f14/hw3/hw3_mgowayye/annotators/DocumentVectorAnnotator.java:69-75 | every entry whose text equals the token is incremented and no other changes; `found` holds exactly when the text is listed; the total frequency grows by one exactly then |
| `DocumentVectorAnnotator.CreateTermFreqVector` | src/main/java/edu/cmu/lti/f14/hw3/hw3_mgowayye/annotators/DocumentVectorAnnotator.java:62-85 | the texts are `Dedup` of the tokens, i.e. every token once, in order of first occurrence; each frequency is its number of occurrences, at least 1; the frequencies sum to the number of tokens |
| `DocumentVectorAnnotator.FoldIncrement` | src/main/java/edu/cmu/lti/f14/hw3/hw3_mgowayye/annotators/DocumentVectorAnnotator.java:70-75 | a token already listed keeps the fold's invariant (distinct texts in first-occurrence order with their counts so far) one token further |
| `DocumentVectorAnnotator.FoldAppend` | src/main/java/edu/cmu/lti/f14/hw3/hw3_mgowayye/annotators/DocumentVectorAnnotator.java:76-81 | a token seen for the first time, appended with frequency 1, keeps the invariant one token further |
| `DocumentVectorAnnotator.EmptyTextTokens` | src/main/java/edu/cmu/lti/f14/hw3/hw3_mgowayye/annotators/DocumentVectorAnnotator.java:62-82 | the empty text gives the one entry `("", 1)`, not an empty list |
| `Seqs.DedupMembers` | src/main/java/edu/cmu/lti/f14/hw3/hw3_mgowayye/annotators/DocumentVectorAnnotator.java:76-80 | the first-occurrence list holds exactly the elements of the token sequence |
| `Seqs.DedupDistinct` | src/main/java/edu/cmu/lti/f14/hw3/hw3_mgowayye/annotators/DocumentVectorAnnotator.java:76-80 | the first-occurrence list has no repeats |
| `Seqs.DedupOrder` | src/main/java/edu/cmu/lti/f14/hw3/hw3_mgowayye/annotators/DocumentVectorAnnotator.java:76-80 | its elements are listed by increasing position of their first occurrence |
| `TokenMaps.TokensMapOf` | src/main/java/edu/cmu/lti/f14/hw3/hw3_mgowayye/casconsumers/RetrievalEvaluator.java:95-100 | the map that `put`ting the pairs in list order leaves: it has at most as many keys as the list has pairs, and none exactly when the list is empty |
| `TokenMaps.TokensMapKeys` | src/main/java/edu/cmu/lti/f14/hw3/hw3_mgowayye/casconsumers/RetrievalEvaluator.java:95-100 | the keys of the map are exactly the texts of the token list |
| `TokenMaps.TokensMapLast` | src/main/java/edu/cmu/lti/f14/hw3/hw3_mgowayye/casconsumers/RetrievalEvaluator.java:97-98 | a text is mapped to the frequency of its last pair, since a later `put` overwrites |
| `TokenMaps.TokensMapDistinct` | src/main/java/edu/cmu/lti/f14/hw3/hw3_mgowayye/casconsumers/RetrievalEvaluator.java:95-100 | on distinct texts every text is mapped to its own frequency |
| `TokenMaps.TokensMapCounts` | src/main/java/edu/cmu/lti/f14/hw3/hw3_mgowayye/casconsumers/RetrievalEvaluator.java:95-100 | the annotator's list for a text becomes the map from each token of the text to its number of occurrences, with no other key |
| `TokenMaps.GetTokensMap` | src/main/java/edu/cmu/lti/f14/hw3/hw3_mgowayye/casconsumers/RetrievalEvaluator.java:95-100 | the loop of `put`s yields the fold of the list; its keys are the texts, and on distinct texts each maps to its frequency |
| `RetrievalEvaluation.RetrievalEvaluator.constructor` | src/main/java/edu/cmu/lti/f14/hw3/hw3_mgowayye/casconsumers/RetrievalEvaluator.java:53-62 | `initialize`: four empty parallel lists |
| `RetrievalEvaluation.RetrievalEvaluator.ProcessCas` | src/main/java/edu/cmu/lti/f14/hw3/hw3_mgowayye/casconsumers/RetrievalEvaluator.java:79-85 | a CAS with a document appends exactly one entry to each list and changes no earlier entry; an empty CAS changes nothing; the lists stay parallel |
| `RetrievalEvaluation.RetrievalEvaluator.AnnotateAndStore` | src/main/java/edu/cmu/lti/f14/hw3/hw3_mgowayye/casconsumers/RetrievalEvaluator.java:80-84 | a document annotated and then stored appends one entry per list; its token entry maps each token of its text to its number of occurrences and has no other key |
| `VectorScoring.AddMissing` | src/main/java/edu/cmu/lti/f14/hw3/hw3_mgowayye/casconsumers/RetrievalEvaluator.java:163-169 | one loop of `getTokensUnion`: the list stays duplicate-free, keeps its prefix and gains exactly the missing keys |
| `VectorScoring.GetTokensUnion` | src/main/java/edu/cmu/lti/f14/hw3/hw3_mgowayye/casconsumers/RetrievalEvaluator.java:161-176 | a duplicate-free list whose elements are exactly the keys of either map, the first map's keys before all others |
| `VectorScoring.PutIfKey` | src/main/java/edu/cmu/lti/f14/hw3/hw3_mgowayye/casconsumers/RetrievalEvaluator.java:192-197 | scanning the keys finds `s` exactly when it is a key, and then puts its weight |
| `VectorScoring.GetVector` | src/main/java/edu/cmu/lti/f14/hw3/hw3_mgowayye/casconsumers/RetrievalEvaluator.java:186-202 | the key set is exactly the union list's elements; the value is `map[s]` for a key of the map and 0 otherwise |
| `VectorScoring.ComputeCosineSimilarity` | src/main/java/edu/cmu/lti/f14/hw3/hw3_mgowayye/casconsumers/RetrievalEvaluator.java:211-224 | in whatever order the keys are visited, `ab` is the dot product, `a2` the squared norm of the query vector and `b2` that of the document vector over the query's keys (its whole squared norm when the keys agree) |
| `VectorScoring.AccumulateStep` | src/main/java/edu/cmu/lti/f14/hw3/hw3_mgowayye/casconsumers/RetrievalEvaluator.java:219-223 | one more key adds its product and squares to the three sums |
| `VectorScoring.PairSimilarity` | src/main/java/edu/cmu/lti/f14/hw3/hw3_mgowayye/casconsumers/RetrievalEvaluator.java:140-142 | union, both vectors and the accumulators give the dot product and squared norms of the two token maps themselves |
| `TermVectors.SumRemove` | src/main/java/edu/cmu/lti/f14/hw3/hw3_mgowayye/casconsumers/RetrievalEvaluator.java:218-224 | any key can be taken out of a sum first, so the accumulated result does not depend on `keySet()` order |
| `TermVectors.DotSymmetric` | src/main/java/edu/cmu/lti/f14/hw3/hw3_mgowayye/casconsumers/RetrievalEvaluator.java:221 | `ab` is symmetric in the two vectors |
| `TermVectors.DotDisjointSupport` | src/main/java/edu/cmu/lti/f14/hw3/hw3_mgowayye/casconsumers/RetrievalEvaluator.java:221 | `ab` is 0 when no term is non-zero in both vectors |
| `TermVectors.DotSelf` | src/main/java/edu/cmu/lti/f14/hw3/hw3_mgowayye/casconsumers/RetrievalEvaluator.java:221-222 | a vector's dot product with itself is its squared norm |
| `TermVectors.SqNormNonNegative` | src/main/java/edu/cmu/lti/f14/hw3/hw3_mgowayye/casconsumers/RetrievalEvaluator.java:222-223 | `a2` and `b2` are never negative |
| `TermVectors.AlignedInsert` | src/main/java/edu/cmu/lti/f14/hw3/hw3_mgowayye/casconsumers/RetrievalEvaluator.java:190-200 | aligning on one more term puts its weight, or 0, under it |
| `TermVectors.AlignedDot` | src/main/java/edu/cmu/lti/f14/hw3/hw3_mgowayye/casconsumers/RetrievalEvaluator.java:186-202 | zero-filling over a covering vocabulary does not change the dot product |
| `TermVectors.AlignedSqNorm` | src/main/java/edu/cmu/lti/f14/hw3/hw3_mgowayye/casconsumers/RetrievalEvaluator.java:186-202 | zero-filling over a covering vocabulary does not change the squared norm |
| `TermVectors.AlignedDisjoint` | src/main/java/edu/cmu/lti/f14/hw3/hw3_mgowayye/casconsumers/RetrievalEvaluator.java:140-142 | two texts without a common term score a dot product of 0 once aligned |
| `CandidateSelection.Queries` | src/main/java/edu/cmu/lti/f14/hw3/hw3_mgowayye/casconsumers/RetrievalEvaluator.java:134-135 | the query records in strictly increasing corpus order |
| `CandidateSelection.QueriesMembers` | src/main/java/edu/cmu/lti/f14/hw3/hw3_mgowayye/casconsumers/RetrievalEvaluator.java:134-135 | they are exactly the records labelled 99 |
| `CandidateSelection.Candidates` | src/main/java/edu/cmu/lti/f14/hw3/hw3_mgowayye/casconsumers/RetrievalEvaluator.java:138-139 | a query's candidates in strictly increasing corpus order, with ids compared by value |
| `CandidateSelection.CandidatesMembers` | src/main/java/edu/cmu/lti/f14/hw3/hw3_mgowayye/casconsumers/RetrievalEvaluator.java:138-139 | they are exactly the records labelled 0 or 1 with the query's id |
| `CandidateSelection.BoxedCandidates` | src/main/java/edu/cmu/lti/f14/hw3/hw3_mgowayye/casconsumers/RetrievalEvaluator.java:139 | the selection as written, comparing boxed ids by reference, in increasing order |
| `CandidateSelection.BoxedCandidatesMembers` | src/main/java/edu/cmu/lti/f14/hw3/hw3_mgowayye/casconsumers/RetrievalEvaluator.java:139 | it keeps exactly the records labelled 0 or 1 whose boxed id is the same object as the query's |
| `CandidateSelection.BoxedCandidatesInCache` | src/main/java/edu/cmu/lti/f14/hw3/hw3_mgowayye/casconsumers/RetrievalEvaluator.java:139 | for a query id in -128..127 the two selections agree |
| `CandidateSelection.BoxedCandidatesMissLargeId` | src/main/java/edu/cmu/lti/f14/hw3/hw3_mgowayye/casconsumers/RetrievalEvaluator.java:139 | for query id 1000 the relevant record is a candidate by value but not by reference |
| `CandidateSelection.Scored` | src/main/java/edu/cmu/lti/f14/hw3/hw3_mgowayye/casconsumers/RetrievalEvaluator.java:137-146 | a query's entries name records of the corpus, each tagged with the query and without a rank |
| `CandidateSelection.ScoredCandidates` | src/main/java/edu/cmu/lti/f14/hw3/hw3_mgowayye/casconsumers/RetrievalEvaluator.java:137-146 | a query's entries are exactly the scores of its candidates, one each, in candidate order |
| `RetrievalEvaluation.RetrievalEvaluator.ScoreCandidates` | src/main/java/edu/cmu/lti/f14/hw3/hw3_mgowayye/casconsumers/RetrievalEvaluator.java:137-146 | the inner loop builds the query's entries |
| `RetrievalEvaluation.RetrievalEvaluator.ComputeCosineSimilarityMap` | src/main/java/edu/cmu/lti/f14/hw3/hw3_mgowayye/casconsumers/RetrievalEvaluator.java:131-151 | one list per record labelled 99, in corpus order; list n holds the entries of the n-th query record |
| `Ranking.CompareTo` | src/main/java/edu/cmu/lti/f14/hw3/hw3_mgowayye/casconsumers/RetrievalEvaluator.java:312-316 | `compareTo` answers only -1 or 1, and -1 exactly when the first entry has the strictly larger similarity |
| `Ranking.CompareToOrder` | src/main/java/edu/cmu/lti/f14/hw3/hw3_mgowayye/casconsumers/RetrievalEvaluator.java:312-316 | `compareTo` is negative exactly for a strictly larger similarity, answers only -1 or 1, and "comes first" is a strict order |
| `Ranking.CompareToTies` | src/main/java/edu/cmu/lti/f14/hw3/hw3_mgowayye/casconsumers/RetrievalEvaluator.java:315 | on equal similarities both orders answer 1, so tie order is not determined |
| `Ranking.SortBySimilarity` | src/main/java/edu/cmu/lti/f14/hw3/hw3_mgowayye/casconsumers/RetrievalEvaluator.java:244 | the array ends sorted by non-increasing similarity and is a permutation of its old contents |
| `Ranking.InsertEntry` | src/main/java/edu/cmu/lti/f14/hw3/hw3_mgowayye/casconsumers/RetrievalEvaluator.java:244 | one insertion step sorts one more prefix entry and permutes the array |
| `Ranking.InsertingStep` | src/main/java/edu/cmu/lti/f14/hw3/hw3_mgowayye/casconsumers/RetrievalEvaluator.java:244 | swapping an entry that compares first with its predecessor keeps the insertion invariant and permutes the entries |
| `Ranking.InsertingDone` | src/main/java/edu/cmu/lti/f14/hw3/hw3_mgowayye/casconsumers/RetrievalEvaluator.java:244 | the insertion stops with a sorted prefix one entry longer |
| `Ranking.PermutationUnranked` | src/main/java/edu/cmu/lti/f14/hw3/hw3_mgowayye/casconsumers/RetrievalEvaluator.java:244 | sorting permutes the entries with their ranks cleared too |
| `Ranking.SortedIndexesIn` | src/main/java/edu/cmu/lti/f14/hw3/hw3_mgowayye/casconsumers/RetrievalEvaluator.java:244 | a permutation still names only records of the corpus, so `relList.get(s.doc2Index)` is defined |
| `Ranking.Ranked` | src/main/java/edu/cmu/lti/f14/hw3/hw3_mgowayye/casconsumers/RetrievalEvaluator.java:245-255 | ranking gives ranks 1..N in list order and changes nothing but the rank fields, so sortedness and record indices are kept |
| `Ranking.UnrankedUnset` | src/main/java/edu/cmu/lti/f14/hw3/hw3_mgowayye/casconsumers/RetrievalEvaluator.java:144 | fresh entries, whose rank is unset, are their own unranked form |
| `Ranking.AssignRanks` | src/main/java/edu/cmu/lti/f14/hw3/hw3_mgowayye/casconsumers/RetrievalEvaluator.java:245-255 | the loop sets rank k + 1 on the entry at position k and returns the sum of 1/rank over the entries labelled 1 |
| `Ranking.RankSum` | src/main/java/edu/cmu/lti/f14/hw3/hw3_mgowayye/casconsumers/RetrievalEvaluator.java:246-253 | the sum of 1/rank over the entries of one ranked list labelled 1, where the entry at position k has rank k + 1; it is at most the length of the list |
| `Ranking.RankSumNonNegative` | src/main/java/edu/cmu/lti/f14/hw3/hw3_mgowayye/casconsumers/RetrievalEvaluator.java:248-253 | a list never lowers the MRR total |
| `Ranking.RankSumNoRelevant` | src/main/java/edu/cmu/lti/f14/hw3/hw3_mgowayye/casconsumers/RetrievalEvaluator.java:248-253 | a list without an entry labelled 1 contributes 0 |
| `Ranking.RankSumEveryRelevant` | src/main/java/edu/cmu/lti/f14/hw3/hw3_mgowayye/casconsumers/RetrievalEvaluator.java:246-255 | every relevant entry counts, not only the first: relevant at ranks 1 and 3 gives 1 + 1/3 |
| `Ranking.SortAndRank` | src/main/java/edu/cmu/lti/f14/hw3/hw3_mgowayye/casconsumers/RetrievalEvaluator.java:243-255 | one list sorted and ranked 1..N: a permutation of the input (ranks aside), in non-increasing order, with its sum of 1/rank over the relevant entries |
| `RetrievalEvaluation.RetrievalEvaluator.ComputeMRR` | src/main/java/edu/cmu/lti/f14/hw3/hw3_mgowayye/casconsumers/RetrievalEvaluator.java:238-261 | every list is sorted, ranked 1..N and a permutation of its input; the MRR is the total of 1/rank over all lists' entries labelled 1, divided by the number of lists |
| `RetrievalEvaluation.RetrievalEvaluator.CollectionProcessComplete` | src/main/java/edu/cmu/lti/f14/hw3/hw3_mgowayye/casconsumers/RetrievalEvaluator.java:108-123 | the lists are consistent; there is one ranked list per query record, a permutation of that query's scored candidates; the MRR is divided by the number of query records |

## Left out

- UIMA plumbing (`JCas`/`CAS`, `FSIterator`, the `Token` and `Document` type-system objects, `Utils.fromFSListToCollection`/`fromCollectionToFSList`) is foreign framework code. Tokens are modelled as (text, frequency) values and a CAS as a sequence of `Document` values.
- Printing to `System.out`/`System.err`, writing `results.txt`, and `Similarity.toString` with its `DecimalFormat` are output only. They are not modelled.
- `Math.sqrt`, the final division of `computeCosineSimilarity`, and its NaN for a zero norm are floating point. The cosine is a parameter `cosine(ab, a2, b2)` of the scoring methods, and NaN is not modelled.
- The accumulators `ab`, `a2` and `b2` are `double` in the source. The model keeps them as exact integers, which agrees with the code as long as the sums stay below 2^53.
- `VectorScoring.ComputeCosineSimilarity` requires the query's keys to be keys of the document vector. `docVector.get(s)` is null otherwise and unboxing it throws. Every call inside the model meets this requirement.
- `RetrievalEvaluation.RetrievalEvaluator.ComputeMRR` requires at least one list. With none the source divides 0 by 0 and returns NaN.
- `RetrievalEvaluation.RetrievalEvaluator.CollectionProcessComplete` requires at least one query record, for the same reason.
- `Ranking.SortBySimilarity` is an insertion sort standing in for `Collections.sort`, and it always returns. The source's sort may throw `IllegalArgumentException` instead: `compareTo` answers 1 both ways on a tie (`Ranking.CompareToTies`), which breaks the `Comparable` contract, and the JDK's merge sort can detect this on a list of 32 or more entries with tied similarities. Then `computeMRR` and `collectionProcessComplete` throw and give no MRR. The model's sortedness and permutation claims hold only for the runs where the source's sort returns. The same applies to `Ranking.SortAndRank`, `RetrievalEvaluation.RetrievalEvaluator.ComputeMRR` and `RetrievalEvaluation.RetrievalEvaluator.CollectionProcessComplete`. Tie order and the placement of NaN are not stated either.
- `RetrievalEvaluation.RetrievalEvaluator.ScoreCandidates` and `RetrievalEvaluation.RetrievalEvaluator.ComputeCosineSimilarityMap` select candidates by comparing query ids by value (`CandidateSelection.Candidates`). The source compares boxed `Integer`s by reference, so it agrees only for query ids in -128..127 (`CandidateSelection.BoxedCandidatesInCache`). For larger ids the source's lists can miss candidates that the model's lists contain (`CandidateSelection.BoxedCandidatesMissLargeId`).
- The `compareTo` warning for comparing entries of different queries is a print only.
- `VectorScoring.GetTokensUnion` does not fix the order of the keys within each map. `HashMap` iteration order is unspecified, and each `keySet()` loop picks keys in an arbitrary order.
- `Similarity` entries are values. Writing `s.rank` through the list's shared objects is modelled as writing the rank into the sorted array.
- The inner loops of `getTokensUnion`, `getVector`, `createTermFreqVector` and `computeCosineSimilarityMap` are separate methods: `AddMissing`, `PutIfKey`, `IncrementMatches` and `ScoreCandidates`.
- `RetrievalEvaluation.RetrievalEvaluator.AnnotateAndStore` composes the annotator with `processCas`. It is not a method of the source.
- The model does not produce the consistency error message of `collectionProcessComplete`. The class invariant keeps the four lists parallel, so the check always passes.

## Findings

| source | as written | input that shows it | evidently intended | confidence | as-written member | corrected member |
|---|---|---|---|---|---|---|
| src/main/java/edu/cmu/lti/f14/hw3/hw3_mgowayye/casconsumers/RetrievalEvaluator.java:139 | `qIdList.get(j) == qIdList.get(i)` compares two boxed `Integer`s by reference, which matches value equality only for ids in -128..127 (the `Integer.valueOf` cache) | query id 1000 on a query record and on a record labelled 1: the relevant record is not selected, so its query's list is empty | select the records whose query id equals the query's by value (`equals` or `intValue()`) | not executed | `CandidateSelection.BoxedCandidates`, shown by `CandidateSelection.BoxedCandidatesMissLargeId` | `CandidateSelection.Candidates` with `CandidateSelection.CandidatesMembers`; used by `Scored` and the evaluator |
