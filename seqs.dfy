/** Small facts about sequences shared by the tokenizer and the evaluator. */
module Seqs {

  /** The set of elements of a sequence. */
  function Elems<T>(s: seq<T>): set<T>
  {
    set x | x in s
  }

  /** Appending an element adds it to the set of elements. */
  lemma ElemsSnoc<T>(s: seq<T>, x: T)
    ensures Elems(s + [x]) == Elems(s) + {x}
  {
    assert forall y :: y in s + [x] <==> y in s || y == x;
  }

  /** No element occurs twice. */
  predicate Distinct<T(==)>(s: seq<T>)
  {
    forall p, q :: 0 <= p < q < |s| ==> s[p] != s[q]
  }

  /** Appending a new element keeps the elements distinct. */
  lemma DistinctSnoc<T>(s: seq<T>, x: T)
    requires Distinct(s) && x !in s
    ensures Distinct(s + [x])
  {
  }

  /** In a sequence without repeats, nothing after a prefix occurs in it. */
  lemma DistinctPrefix<T>(s: seq<T>, p: seq<T>)
    requires Distinct(s) && p <= s
    ensures forall k :: |p| <= k < |s| ==> s[k] !in p
  {
    forall k | |p| <= k < |s|
      ensures s[k] !in p
    {
      assert forall j :: 0 <= j < |p| ==> p[j] == s[j] && s[j] != s[k];
    }
  }

  /** Number of occurrences of `x` in `s`, counted from the back so that it
      follows a loop that consumes `s` from the front. */
  function Count<T(==)>(s: seq<T>, x: T): nat
  {
    if s == [] then 0 else Count(s[..|s| - 1], x) + (if s[|s| - 1] == x then 1 else 0)
  }

  /** Extending a prefix by one element adds one occurrence or none. */
  lemma CountSnoc<T>(s: seq<T>, i: nat, x: T)
    requires i < |s|
    ensures Count(s[..i + 1], x) == Count(s[..i], x) + (if s[i] == x then 1 else 0)
  {
    assert s[..i + 1][..i] == s[..i];
  }

  /** An element that occurs in `s` is counted at least once. */
  lemma {:induction false} CountPositive<T>(s: seq<T>, x: T)
    requires x in s
    ensures Count(s, x) >= 1
  {
    var n := |s| - 1;
    if s[n] != x {
      assert s == s[..n] + [s[n]];
      assert x in s[..n];
      CountPositive(s[..n], x);
    }
  }

  /** An element that does not occur in `s` is counted zero times. */
  lemma {:induction false} CountAbsent<T>(s: seq<T>, x: T)
    requires x !in s
    ensures Count(s, x) == 0
  {
    if s != [] {
      var n := |s| - 1;
      assert s == s[..n] + [s[n]];
      CountAbsent(s[..n], x);
    }
  }

  /** In a sequence without repeats, an element is counted at most once. */
  lemma {:induction false} CountDistinct<T>(s: seq<T>, x: T)
    requires Distinct(s)
    ensures Count(s, x) <= 1
  {
    if s != [] {
      var n := |s| - 1;
      CountDistinct(s[..n], x);
      if s[n] == x {
        DistinctPrefix(s, s[..n]);
        CountAbsent(s[..n], x);
      }
    }
  }

  /** The position of the first occurrence of `x` in `s`. */
  function FirstIndex<T(==)>(s: seq<T>, x: T): (i: nat)
    requires x in s
    ensures i < |s| && s[i] == x
  {
    if s[0] == x then 0 else 1 + FirstIndex(s[1..], x)
  }

  /** No occurrence of `x` comes before its first one. */
  lemma {:induction false} FirstIndexMinimal<T>(s: seq<T>, x: T)
    requires x in s
    ensures forall j :: 0 <= j < FirstIndex(s, x) ==> s[j] != x
  {
    if s[0] != x {
      assert x in s[1..];
      FirstIndexMinimal(s[1..], x);
      assert forall j :: 1 <= j < |s| ==> s[j] == s[1..][j - 1];
    }
  }

  /** Appending an element does not move the first occurrence of an element
      already present. */
  lemma FirstIndexSnoc<T>(s: seq<T>, x: T, y: T)
    requires y in s
    ensures FirstIndex(s + [x], y) == FirstIndex(s, y)
  {
    var f, g := FirstIndex(s, y), FirstIndex(s + [x], y);
    FirstIndexMinimal(s, y);
    FirstIndexMinimal(s + [x], y);
    assert (s + [x])[f] == y;
    if g < |s| {
      assert s[g] == y;
    }
  }

  /** The distinct elements of `s` in order of first occurrence. */
  function Dedup<T(==)>(s: seq<T>): seq<T>
  {
    if s == [] then []
    else
      var d := Dedup(s[..|s| - 1]);
      if s[|s| - 1] in d then d else d + [s[|s| - 1]]
  }

  /** Deduplicating keeps exactly the elements. */
  lemma {:induction false} DedupMembers<T>(s: seq<T>)
    ensures forall x :: x in Dedup(s) <==> x in s
  {
    if s != [] {
      var t := s[..|s| - 1];
      DedupMembers(t);
      assert s == t + [s[|s| - 1]];
    }
  }

  /** Deduplicating leaves no repeats. */
  lemma {:induction false} DedupDistinct<T>(s: seq<T>)
    ensures Distinct(Dedup(s))
  {
    if s != [] {
      var t := s[..|s| - 1];
      DedupDistinct(t);
      if s[|s| - 1] !in Dedup(t) {
        DistinctSnoc(Dedup(t), s[|s| - 1]);
      }
    }
  }

  /** The elements of `Dedup(s)` are listed in order of their first
      occurrence in `s`. */
  lemma {:induction false} DedupOrder<T>(s: seq<T>)
    ensures forall p :: 0 <= p < |Dedup(s)| ==> Dedup(s)[p] in s
    ensures forall p, q :: 0 <= p < q < |Dedup(s)| ==> FirstIndex(s, Dedup(s)[p]) < FirstIndex(s, Dedup(s)[q])
  {
    if s != [] {
      var t, x := s[..|s| - 1], s[|s| - 1];
      var d := Dedup(t);
      DedupOrder(t);
      DedupMembers(t);
      assert s == t + [x];
      forall y | y in t
        ensures FirstIndex(s, y) == FirstIndex(t, y) < |t|
      {
        FirstIndexSnoc(t, x, y);
      }
      if x !in d {
        assert Dedup(s) == d + [x];
      }
    }
  }
}
