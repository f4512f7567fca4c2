/** `String.split("\\s+")` of the Java platform, written out: the text is cut at
    every maximal run of characters of the class `\s`, the pieces between the
    runs are collected in order, and trailing empty pieces are dropped; a text
    in which the pattern does not match at all is returned as the only piece. */
module WhitespaceSplit {

  /** The predefined character class `\s` of java.util.regex:
      space, `\t`, `\n`, `\x0B`, `\f` and `\r`. */
  predicate IsSpace(c: char)
  {
    c == ' ' || c == '\t' || c == '\n' || c == '\U{0B}' || c == '\U{0C}' || c == '\r'
  }

  predicate NoSpace(s: string)
  {
    forall k :: 0 <= k < |s| ==> !IsSpace(s[k])
  }

  predicate AllSpace(s: string)
  {
    forall k :: 0 <= k < |s| ==> IsSpace(s[k])
  }

  /** Length of the longest prefix without whitespace. */
  function WordLength(s: string): (n: nat)
    ensures n <= |s| && NoSpace(s[..n])
    ensures n < |s| ==> IsSpace(s[n])
  {
    if s == [] || IsSpace(s[0]) then 0
    else
      var n := 1 + WordLength(s[1..]);
      assert forall k :: 1 <= k < n ==> s[..n][k] == s[1..][..n - 1][k - 1];
      n
  }

  /** Length of the longest prefix made of whitespace: the match of `\s+` at
      the start of `s`, or 0 when there is none. */
  function RunLength(s: string): (n: nat)
    ensures n <= |s| && AllSpace(s[..n])
    ensures n < |s| ==> !IsSpace(s[n])
    ensures s != [] && IsSpace(s[0]) ==> n >= 1
  {
    if s == [] || !IsSpace(s[0]) then 0
    else
      var n := 1 + RunLength(s[1..]);
      assert forall k :: 1 <= k < n ==> s[..n][k] == s[1..][..n - 1][k - 1];
      n
  }

  /** The pieces that Pattern.split collects before trailing empty strings are
      removed: the text before the first match, between successive matches,
      and after the last one. */
  function Segments(s: string): (r: seq<string>)
    ensures |r| >= 1
    decreases |s|
  {
    var w := WordLength(s);
    if w == |s| then [s]
    else
      var g := RunLength(s[w..]);
      [s[..w]] + Segments(s[w + g..])
  }

  /** Removes every empty string at the end of `r`. */
  function DropTrailingEmpty(r: seq<string>): (t: seq<string>)
    ensures |t| <= |r| && t == r[..|t|]
    ensures t == [] || t[|t| - 1] != ""
    ensures forall k :: |t| <= k < |r| ==> r[k] == ""
  {
    if r != [] && r[|r| - 1] == "" then DropTrailingEmpty(r[..|r| - 1]) else r
  }

  /** `s.split("\\s+")` with the default limit 0. */
  function Split(s: string): (r: seq<string>)
    ensures NoSpace(s) ==> r == [s]
    ensures !NoSpace(s) ==> r == [] || r[|r| - 1] != ""
  {
    if NoSpace(s) then [s] else DropTrailingEmpty(Segments(s))
  }

  /** The inverse direction: tokens separated by single spaces. */
  function Join(tokens: seq<string>): string
  {
    if tokens == [] then ""
    else if |tokens| == 1 then tokens[0]
    else tokens[0] + " " + Join(tokens[1..])
  }

  /** The text with every whitespace character removed. */
  function Squeeze(s: string): string
  {
    if s == [] then "" else (if IsSpace(s[0]) then "" else [s[0]]) + Squeeze(s[1..])
  }

  /** All pieces concatenated. */
  function Concat(r: seq<string>): string
  {
    if r == [] then "" else r[0] + Concat(r[1..])
  }

  // ---------------------------------------------------------------------------
  // Segments

  /** No piece contains whitespace. */
  lemma {:induction false} SegmentsNoSpace(s: string)
    ensures forall k :: 0 <= k < |Segments(s)| ==> NoSpace(Segments(s)[k])
    decreases |s|
  {
    var w := WordLength(s);
    if w < |s| {
      var g := RunLength(s[w..]);
      SegmentsNoSpace(s[w + g..]);
    }
  }

  /** The first piece is empty exactly when the text is empty or starts with
      whitespace, and an empty piece after the first can only be the last. */
  lemma {:induction false} SegmentsShape(s: string)
    ensures Segments(s)[0] == "" <==> s == "" || IsSpace(s[0])
    ensures forall k :: 0 < k < |Segments(s)| - 1 ==> Segments(s)[k] != ""
    decreases |s|
  {
    var w := WordLength(s);
    if w < |s| {
      var g := RunLength(s[w..]);
      var rest := s[w + g..];
      SegmentsShape(rest);
      assert rest != "" ==> !IsSpace(rest[0]) by {
        if rest != "" {
          assert rest[0] == s[w..][g];
        }
      }
      assert Segments(rest)[0] == "" ==> |Segments(rest)| == 1 by {
        if Segments(rest)[0] == "" {
          assert rest == "";
        }
      }
      assert Segments(s) == [s[..w]] + Segments(rest);
    }
  }

  /** A text made of whitespace only gives two empty pieces. */
  lemma AllSpaceSegments(s: string)
    requires s != "" && AllSpace(s)
    ensures Segments(s) == ["", ""]
  {
    assert WordLength(s) == 0;
    var g := RunLength(s);
    assert g == |s|;
    assert s[0 + g..] == "";
  }

  /** A text with a non-whitespace character has a non-empty piece; `k` is
      its position. */
  lemma {:induction false} SegmentsHaveWord(s: string, i: nat) returns (k: nat)
    requires i < |s| && !IsSpace(s[i])
    ensures k < |Segments(s)| && Segments(s)[k] != ""
    decreases |s|
  {
    var w := WordLength(s);
    if w == |s| || w > 0 {
      k := 0;
    } else {
      assert s[w..] == s;
      var g := RunLength(s);
      var rest := s[g..];
      assert i >= g;
      assert rest[i - g] == s[i];
      var k' := SegmentsHaveWord(rest, i - g);
      assert Segments(s) == [s[..0]] + Segments(rest);
      k := k' + 1;
    }
  }

  lemma {:induction false} ConcatAppend(a: seq<string>, b: seq<string>)
    ensures Concat(a + b) == Concat(a) + Concat(b)
  {
    if a != [] {
      assert (a + b)[1..] == a[1..] + b;
      ConcatAppend(a[1..], b);
    } else {
      assert a + b == b;
    }
  }

  lemma {:induction false} SqueezeAppend(a: string, b: string)
    ensures Squeeze(a + b) == Squeeze(a) + Squeeze(b)
  {
    if a != [] {
      assert (a + b)[1..] == a[1..] + b;
      SqueezeAppend(a[1..], b);
    } else {
      assert a + b == b;
    }
  }

  lemma {:induction false} SqueezeNoSpace(s: string)
    requires NoSpace(s)
    ensures Squeeze(s) == s
  {
    if s != [] {
      SqueezeNoSpace(s[1..]);
    }
  }

  lemma {:induction false} SqueezeAllSpace(s: string)
    requires AllSpace(s)
    ensures Squeeze(s) == ""
  {
    if s != [] {
      SqueezeAllSpace(s[1..]);
    }
  }

  /** A word, then a run of whitespace, then the rest: only the word and the
      rest survive squeezing. */
  lemma SqueezeWordRun(s: string, w: nat, g: nat)
    requires w + g <= |s| && NoSpace(s[..w]) && AllSpace(s[w..w + g])
    ensures Squeeze(s) == s[..w] + Squeeze(s[w + g..])
  {
    assert s == s[..w] + (s[w..w + g] + s[w + g..]);
    SqueezeAppend(s[..w], s[w..w + g] + s[w + g..]);
    SqueezeAppend(s[w..w + g], s[w + g..]);
    SqueezeAllSpace(s[w..w + g]);
    SqueezeNoSpace(s[..w]);
  }

  /** Cutting at the whitespace runs loses exactly the whitespace. */
  lemma {:induction false} SegmentsKeepText(s: string)
    ensures Concat(Segments(s)) == Squeeze(s)
    decreases |s|
  {
    var w := WordLength(s);
    if w == |s| {
      SqueezeNoSpace(s[..w]);
      assert s[..w] == s;
    } else {
      var g := RunLength(s[w..]);
      assert s[w..w + g] == s[w..][..g];
      SqueezeWordRun(s, w, g);
      var rest := s[w + g..];
      SegmentsKeepText(rest);
      var r := Segments(rest);
      assert Segments(s) == [s[..w]] + r;
      assert ([s[..w]] + r)[1..] == r;
    }
  }

  lemma {:induction false} ConcatEmpties(r: seq<string>)
    requires forall k :: 0 <= k < |r| ==> r[k] == ""
    ensures Concat(r) == ""
  {
    if r != [] {
      ConcatEmpties(r[1..]);
    }
  }

  // ---------------------------------------------------------------------------
  // Split: the properties the tokenizer relies on

  /** No token contains a whitespace character. */
  lemma SplitNoSpace(s: string)
    ensures forall k :: 0 <= k < |Split(s)| ==> NoSpace(Split(s)[k])
  {
    if !NoSpace(s) {
      SegmentsNoSpace(s);
    }
  }

  /** Every token after the first is non-empty. */
  lemma SplitNonEmptyAfterFirst(s: string)
    ensures forall k :: 0 < k < |Split(s)| ==> Split(s)[k] != ""
  {
    if !NoSpace(s) {
      var seg := Segments(s);
      SegmentsShape(s);
      var t := DropTrailingEmpty(seg);
      forall k | 0 < k < |t|
        ensures t[k] != ""
      {
        if k == |t| - 1 {
        } else {
          assert t[k] == seg[k];
        }
      }
    }
  }

  /** The text yields no token at all exactly when it is non-empty and made of
      whitespace only. */
  lemma SplitEmpty(s: string)
    ensures Split(s) == [] <==> s != "" && AllSpace(s)
  {
    if s != "" && AllSpace(s) {
      assert !IsSpace(s[0]) ==> false;
      AllSpaceSegments(s);
      assert DropTrailingEmpty(["", ""]) == [];
    } else if !NoSpace(s) {
      var i :| 0 <= i < |s| && !IsSpace(s[i]);
      var k := SegmentsHaveWord(s, i);
      assert k < |Split(s)|;
    }
  }

  /** The first token is empty exactly when the text is empty, or starts with
      whitespace and is not whitespace only. */
  lemma SplitFirstEmpty(s: string)
    ensures |Split(s)| > 0 && Split(s)[0] == "" <==> s == "" || (IsSpace(s[0]) && !AllSpace(s))
  {
    SplitEmpty(s);
    if !NoSpace(s) && Split(s) != [] {
      SegmentsShape(s);
      assert Split(s)[0] == Segments(s)[0];
    }
  }

  /** Splitting keeps every non-whitespace character, in order. */
  lemma SplitKeepsText(s: string)
    ensures Concat(Split(s)) == Squeeze(s)
  {
    if NoSpace(s) {
      SqueezeNoSpace(s);
      assert Concat([s]) == s + Concat([]);
    } else {
      var seg := Segments(s);
      var t := DropTrailingEmpty(seg);
      assert seg == t + seg[|t|..];
      ConcatAppend(t, seg[|t|..]);
      ConcatEmpties(seg[|t|..]);
      SegmentsKeepText(s);
    }
  }

  // ---------------------------------------------------------------------------
  // Round trip

  lemma WordLengthPrefix(t: string, x: string)
    requires NoSpace(t) && (x == [] || IsSpace(x[0]))
    ensures WordLength(t + x) == |t|
  {
    var n := WordLength(t + x);
    assert forall k :: 0 <= k < |t| ==> (t + x)[k] == t[k];
    assert forall k :: 0 <= k < n ==> (t + x)[..n][k] == (t + x)[k];
    assert x != [] ==> (t + x)[|t|] == x[0];
  }

  lemma {:induction false} JoinStartsWithWord(tokens: seq<string>)
    requires |tokens| >= 1 && tokens[0] != "" && NoSpace(tokens[0])
    ensures Join(tokens) != "" && !IsSpace(Join(tokens)[0])
  {
    if |tokens| > 1 {
      assert Join(tokens)[0] == tokens[0][0];
    }
  }

  /** A single space before a word is a run of length 1. */
  lemma SingleSpaceRun(rest: string)
    requires rest != "" && !IsSpace(rest[0])
    ensures RunLength(" " + rest) == 1
  {
    assert (" " + rest)[1..] == rest;
  }

  lemma {:induction false} JoinSegments(tokens: seq<string>)
    requires |tokens| >= 1
    requires forall k :: 0 <= k < |tokens| ==> tokens[k] != "" && NoSpace(tokens[k])
    ensures Segments(Join(tokens)) == tokens
    decreases |tokens|
  {
    var s := Join(tokens);
    var t := tokens[0];
    if |tokens| == 1 {
      WordLengthPrefix(t, "");
      assert t + "" == t;
    } else {
      var rest := Join(tokens[1..]);
      JoinStartsWithWord(tokens[1..]);
      assert s == t + (" " + rest);
      WordLengthPrefix(t, " " + rest);
      assert s[..|t|] == t;
      assert s[|t|..] == " " + rest;
      SingleSpaceRun(rest);
      assert s[|t| + 1..] == rest;
      JoinSegments(tokens[1..]);
      assert tokens == [t] + tokens[1..];
    }
  }

  lemma JoinHasSpace(tokens: seq<string>)
    requires |tokens| >= 2
    ensures !NoSpace(Join(tokens))
  {
    assert Join(tokens)[|tokens[0]|] == ' ';
  }

  /** Joining non-empty, whitespace-free tokens with single spaces and
      splitting again gives the tokens back. */
  lemma SplitJoin(tokens: seq<string>)
    requires |tokens| >= 1
    requires forall k :: 0 <= k < |tokens| ==> tokens[k] != "" && NoSpace(tokens[k])
    ensures Split(Join(tokens)) == tokens
  {
    if |tokens| == 1 {
      assert Join(tokens) == tokens[0];
    } else {
      JoinHasSpace(tokens);
      JoinSegments(tokens);
    }
  }

  /** The behaviours that a reader of the Java documentation might not expect:
      an empty text gives one empty token, a whitespace-only text none, and a
      leading run of whitespace an empty first token. */
  lemma SplitEmptyText()
    ensures Split("") == [""]
  {
    assert NoSpace("");
  }

  lemma SplitBlank()
    ensures Split(" \t") == []
  {
    SplitEmpty(" \t");
  }

  lemma SplitLeadingSpace()
    ensures Split(" a") == ["", "a"]
  {
    assert !NoSpace(" a") by { assert IsSpace(" a"[0]); }
    assert WordLength(" a") == 0;
    assert RunLength(" a") == 1;
    assert " a"[1..] == "a";
    assert WordLength("a") == 1;
    assert Segments(" a") == ["", "a"];
  }

  lemma SplitRepeatedWord()
    ensures Split("a a b") == ["a", "a", "b"]
  {
    var toks := ["a", "a", "b"];
    assert Join(toks[2..]) == "b";
    assert Join(toks[1..]) == "a b";
    assert Join(toks) == "a a b";
    SplitJoin(toks);
  }
}
