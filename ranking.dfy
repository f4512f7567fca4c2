/** The per-query ranking: similarity entries, their comparator, the in-place
    sort, and the reciprocal-rank sums the metric is made of. */
module Ranking {

  /** A Similarity object: the index of the query record, the index of the
      candidate record, the cosine between them, and the rank the candidate
      is given once its list is sorted (0 until then). */
  datatype Similarity = Similarity(doc1Index: int, doc2Index: int, similarity: real, rank: int)

  /** `compareTo`: the entry with the larger similarity comes first; the
      comparator never answers "equal". */
  function CompareTo(x: Similarity, y: Similarity): (r: int)
    ensures r == -1 || r == 1
    ensures r < 0 <==> x.similarity > y.similarity
  {
    if x.similarity > y.similarity then -1 else 1
  }

  /** "Comes before" under the comparator is exactly "has a strictly larger
      similarity", so it is a strict order, and the comparator never returns 0. */
  lemma CompareToOrder(x: Similarity, y: Similarity, z: Similarity)
    ensures CompareTo(x, y) < 0 <==> x.similarity > y.similarity
    ensures CompareTo(x, y) == -1 || CompareTo(x, y) == 1
    ensures CompareTo(x, y) < 0 ==> CompareTo(y, x) > 0
    ensures CompareTo(x, y) < 0 && CompareTo(y, z) < 0 ==> CompareTo(x, z) < 0
  {
  }

  /** On equal similarities both orders answer 1, so the comparator breaks the
      sign symmetry that Comparable asks for: tie order is not specified. */
  lemma CompareToTies(x: Similarity, y: Similarity)
    requires x.similarity == y.similarity
    ensures CompareTo(x, y) == 1 && CompareTo(y, x) == 1
  {
  }

  /** Sorted by non-increasing similarity. */
  predicate NonIncreasing(l: seq<Similarity>)
  {
    forall p, q :: 0 <= p < q < |l| ==> l[p].similarity >= l[q].similarity
  }

  /** The first `n` entries are sorted by non-increasing similarity. */
  predicate SortedPrefix(l: seq<Similarity>, n: int)
    requires n <= |l|
  {
    forall p, q :: 0 <= p < q < n ==> l[p].similarity >= l[q].similarity
  }

  /** `Collections.sort` with `CompareTo`: an insertion sort in place. */
  method SortBySimilarity(a: array<Similarity>)
    modifies a
    ensures NonIncreasing(a[..])
    ensures multiset(a[..]) == multiset(old(a[..]))
  {
    for i := 0 to a.Length
      invariant SortedPrefix(a[..], i)
      invariant multiset(a[..]) == multiset(old(a[..]))
    {
      InsertEntry(a, i);
    }
  }

  /** One insertion step: entry `i` is moved before its predecessor while the
      comparator puts it first, so that the first `i + 1` entries are sorted. */
  method InsertEntry(a: array<Similarity>, i: nat)
    requires i < a.Length && SortedPrefix(a[..], i)
    modifies a
    ensures SortedPrefix(a[..], i + 1)
    ensures multiset(a[..]) == multiset(old(a[..]))
  {
    var j := i;
    while j > 0 && CompareTo(a[j], a[j - 1]) < 0
      invariant 0 <= j <= i
      invariant Inserting(a[..], i, j)
      invariant multiset(a[..]) == multiset(old(a[..]))
    {
      ghost var s := a[..];
      InsertingStep(s, i, j);
      a[j - 1], a[j] := a[j], a[j - 1];
      assert a[..] == Swapped(s, j);
      j := j - 1;
    }
    InsertingDone(a[..], i, j);
  }

  /** While entry `j` travels towards the front, the other entries up to `i`
      stay sorted and entry `j` is larger than every entry it has passed. */
  ghost predicate Inserting(s: seq<Similarity>, i: nat, j: nat)
    requires j <= i < |s|
  {
    && (forall p, q :: 0 <= p < q <= i && p != j && q != j ==> s[p].similarity >= s[q].similarity)
    && (forall q :: j < q <= i ==> s[j].similarity > s[q].similarity)
  }

  /** The sequence with entries `j - 1` and `j` exchanged. */
  ghost function Swapped(s: seq<Similarity>, j: nat): seq<Similarity>
    requires 0 < j < |s|
  {
    s[j - 1 := s[j]][j := s[j - 1]]
  }

  lemma InsertingStep(s: seq<Similarity>, i: nat, j: nat)
    requires 0 < j <= i < |s| && Inserting(s, i, j)
    requires s[j].similarity > s[j - 1].similarity
    ensures Inserting(Swapped(s, j), i, j - 1)
    ensures multiset(Swapped(s, j)) == multiset(s)
  {
  }

  lemma InsertingDone(s: seq<Similarity>, i: nat, j: nat)
    requires j <= i < |s| && Inserting(s, i, j)
    requires j == 0 || s[j].similarity <= s[j - 1].similarity
    ensures SortedPrefix(s, i + 1)
  {
  }

  /** The entries with their ranks cleared: what sorting permutes. */
  function Unranked(l: seq<Similarity>): seq<Similarity>
  {
    seq(|l|, k requires 0 <= k < |l| => l[k].(rank := 0))
  }

  lemma UnrankedAppend(x: seq<Similarity>, y: seq<Similarity>)
    ensures Unranked(x + y) == Unranked(x) + Unranked(y)
  {
  }

  /** Permuting entries permutes them with their ranks cleared. */
  lemma {:induction false} PermutationUnranked(x: seq<Similarity>, y: seq<Similarity>)
    requires multiset(x) == multiset(y)
    ensures multiset(Unranked(x)) == multiset(Unranked(y))
    decreases |x|
  {
    if x == [] {
      assert |y| == |multiset(y)| == 0;
    } else {
      var e := x[0];
      assert e in multiset(y);
      var j :| 0 <= j < |y| && y[j] == e;
      var rest := y[..j] + y[j + 1..];
      assert y == y[..j] + [e] + y[j + 1..];
      assert x == [e] + x[1..];
      assert multiset(y) == multiset(y[..j]) + multiset{e} + multiset(y[j + 1..]);
      assert multiset(x) == multiset{e} + multiset(x[1..]);
      assert multiset(rest) == multiset(y[..j]) + multiset(y[j + 1..]);
      assert multiset(x[1..]) == multiset(x) - multiset{e};
      assert multiset(x[1..]) == multiset(rest);
      PermutationUnranked(x[1..], rest);
      UnrankedAppend([e], x[1..]);
      UnrankedAppend(y[..j], [e]);
      UnrankedAppend(y[..j] + [e], y[j + 1..]);
      UnrankedAppend(y[..j], y[j + 1..]);
    }
  }

  /** A permutation of a list that names records only below `n` does too. */
  lemma SortedIndexesIn(x: seq<Similarity>, y: seq<Similarity>, n: int)
    requires IndexesIn(x, n) && multiset(x) == multiset(y)
    ensures IndexesIn(y, n)
  {
    forall k | 0 <= k < |y|
      ensures 0 <= y[k].doc2Index < n
    {
      assert y[k] in multiset(y);
      var j :| 0 <= j < |x| && x[j] == y[k];
    }
  }

  /** Ranks 1, 2, ..., N in list order. */
  predicate RankedInOrder(l: seq<Similarity>)
  {
    forall k :: 0 <= k < |l| ==> l[k].rank == k + 1
  }

  /** The list with its ranks assigned: only the rank fields change. */
  function Ranked(l: seq<Similarity>): (r: seq<Similarity>)
    ensures |r| == |l| && RankedInOrder(r)
    ensures Unranked(r) == Unranked(l)
    ensures NonIncreasing(l) ==> NonIncreasing(r)
    ensures forall k :: 0 <= k < |l| ==> r[k].doc2Index == l[k].doc2Index
  {
    seq(|l|, k requires 0 <= k < |l| => l[k].(rank := k + 1))
  }

  /** A list whose ranks are all unset is its own unranked form. */
  lemma UnrankedUnset(l: seq<Similarity>)
    requires forall k :: 0 <= k < |l| ==> l[k].rank == 0
    ensures Unranked(l) == l
  {
  }

  /** Every entry names a record of the corpus. */
  predicate IndexesIn(l: seq<Similarity>, n: int)
  {
    forall k :: 0 <= k < |l| ==> 0 <= l[k].doc2Index < n
  }

  /** The sum of 1/rank over the entries whose candidate is labelled relevant
      (1), the rank of an entry being its 1-based position in the list. */
  function RankSum(l: seq<Similarity>, rels: seq<int>): (r: real)
    requires IndexesIn(l, |rels|)
    ensures r <= |l| as real
  {
    if l == [] then 0.0
    else
      var n := |l| as real;
      assert 1.0 / n <= 1.0;
      RankSum(l[..|l| - 1], rels)
      + (if rels[l[|l| - 1].doc2Index] == 1 then 1.0 / n else 0.0)
  }

  /** The rank sums of all lists added together. */
  function TotalRankSum(ls: seq<seq<Similarity>>, rels: seq<int>): real
    requires forall i :: 0 <= i < |ls| ==> IndexesIn(ls[i], |rels|)
  {
    if ls == [] then 0.0 else TotalRankSum(ls[..|ls| - 1], rels) + RankSum(ls[|ls| - 1], rels)
  }

  /** Every entry adds a non-negative amount. */
  lemma {:induction false} RankSumNonNegative(l: seq<Similarity>, rels: seq<int>)
    requires IndexesIn(l, |rels|)
    ensures RankSum(l, rels) >= 0.0
  {
    if l != [] {
      RankSumNonNegative(l[..|l| - 1], rels);
    }
  }

  /** A list without a relevant candidate contributes nothing. */
  lemma {:induction false} RankSumNoRelevant(l: seq<Similarity>, rels: seq<int>)
    requires IndexesIn(l, |rels|)
    requires forall k :: 0 <= k < |l| ==> rels[l[k].doc2Index] != 1
    ensures RankSum(l, rels) == 0.0
  {
    if l != [] {
      RankSumNoRelevant(l[..|l| - 1], rels);
    }
  }

  /** Every relevant entry counts, not only the first: relevant candidates at
      ranks 1 and 3 around an irrelevant one at rank 2 give 1 + 1/3. */
  lemma RankSumEveryRelevant(q: int, r1: int, r2: int, r3: int, s1: real, s2: real, s3: real, rels: seq<int>)
    requires 0 <= r1 < |rels| && 0 <= r2 < |rels| && 0 <= r3 < |rels|
    requires rels[r1] == 1 && rels[r2] == 0 && rels[r3] == 1
    ensures RankSum([Similarity(q, r1, s1, 1), Similarity(q, r2, s2, 2), Similarity(q, r3, s3, 3)], rels)
            == 1.0 + 1.0 / 3.0
  {
    var l := [Similarity(q, r1, s1, 1), Similarity(q, r2, s2, 2), Similarity(q, r3, s3, 3)];
    assert l[..2][..1] == l[..1];
    assert l[..1][..0] == [];
    assert RankSum(l[..1], rels) == 1.0;
    assert RankSum(l[..2], rels) == 1.0;
    assert l[..3] == l;
  }

  /** The ranking loop of `computeMRR` over a sorted list: the entry at
      position k is given rank k + 1, and 1/rank is added up over the entries
      whose candidate is labelled relevant. */
  method AssignRanks(a: array<Similarity>, rels: seq<int>) returns (sum: real)
    requires IndexesIn(a[..], |rels|)
    modifies a
    ensures a[..] == Ranked(old(a[..]))
    ensures IndexesIn(a[..], |rels|)
    ensures sum == RankSum(a[..], rels)
  {
    sum := 0.0;
    var aind := 1;
    for k := 0 to a.Length
      invariant aind == k + 1
      invariant forall p :: 0 <= p < k ==> a[p] == old(a[p]).(rank := p + 1)
      invariant forall p :: k <= p < a.Length ==> a[p] == old(a[p])
      invariant IndexesIn(a[..], |rels|)
      invariant sum == RankSum(a[..k], rels)
    {
      a[k] := a[k].(rank := aind);
      assert a[..k + 1][..k] == a[..k];
      if rels[a[k].doc2Index] == 1 {
        sum := sum + 1.0 / (aind as real);
      }
      aind := aind + 1;
    }
    assert a[..a.Length] == a[..];
  }

  /** `r` is `l` sorted by non-increasing similarity and ranked 1, 2, ... */
  predicate RankedFrom(r: seq<Similarity>, l: seq<Similarity>, rels: seq<int>)
  {
    && IndexesIn(r, |rels|)
    && NonIncreasing(r) && RankedInOrder(r)
    && multiset(Unranked(r)) == multiset(Unranked(l))
  }

  /** The per-list step of `computeMRR`: a copy of the list is sorted by
      non-increasing similarity and ranked, and its reciprocal-rank sum is
      returned with it. */
  method SortAndRank(l: seq<Similarity>, rels: seq<int>) returns (sum: real, r: seq<Similarity>)
    requires IndexesIn(l, |rels|)
    ensures IndexesIn(r, |rels|)
    ensures NonIncreasing(r) && RankedInOrder(r)
    ensures multiset(Unranked(r)) == multiset(Unranked(l))
    ensures sum == RankSum(r, rels)
  {
    var a := new Similarity[|l|](k requires 0 <= k < |l| => l[k]);
    assert a[..] == l;
    SortBySimilarity(a);
    SortedIndexesIn(l, a[..], |rels|);
    PermutationUnranked(a[..], l);
    sum := AssignRanks(a, rels);
    r := a[..];
  }
}
