/** The list update behind a multiple-choice answer: an id that is present
    is filtered out (every occurrence), an absent id is appended. */
module AnswerToggle {
  import opened QuizTypes

  /** `s` with every occurrence of `x` dropped, the rest in order. */
  function RemoveAll(s: seq<string>, x: string): (r: seq<string>)
    ensures x !in r
    ensures forall y :: y in r <==> y in s && y != x
    ensures |r| <= |s|
  {
    if s == [] then []
    else (if s[0] == x then [] else [s[0]]) + RemoveAll(s[1..], x)
  }

  /** The toggle of one answer id in a list of selected ids. */
  function Toggle(s: seq<string>, x: string): (r: seq<string>)
    ensures x in r <==> x !in s
    ensures forall y :: y != x ==> (y in r <==> y in s)
    ensures x in s ==> r == RemoveAll(s, x)
    ensures x !in s ==> r == s + [x]
  {
    if x in s then RemoveAll(s, x) else s + [x]
  }

  /** Filtering distributes over concatenation. */
  lemma {:induction false} RemoveAllAppend(a: seq<string>, b: seq<string>, x: string)
    ensures RemoveAll(a + b, x) == RemoveAll(a, x) + RemoveAll(b, x)
  {
    if a == [] {
      assert a + b == b;
    } else {
      assert (a + b)[1..] == a[1..] + b;
      RemoveAllAppend(a[1..], b, x);
    }
  }

  /** Filtering out an absent id changes nothing. */
  lemma {:induction false} RemoveAllAbsent(s: seq<string>, x: string)
    requires x !in s
    ensures RemoveAll(s, x) == s
  {
    if s != [] {
      RemoveAllAbsent(s[1..], x);
    }
  }

  /** Filtering removes exactly the occurrences of `x` and keeps every other
      element with its multiplicity. */
  lemma {:induction false} RemoveAllMultiset(s: seq<string>, x: string)
    ensures multiset(RemoveAll(s, x)) == multiset(s)[x := 0]
  {
    if s != [] {
      var head := if s[0] == x then [] else [s[0]];
      assert RemoveAll(s, x) == head + RemoveAll(s[1..], x);
      RemoveAllMultiset(s[1..], x);
      assert multiset(head) == multiset([s[0]])[x := 0];
      assert s == [s[0]] + s[1..];
      ZeroSum(multiset([s[0]]), multiset(s[1..]), x);
    }
  }

  lemma ZeroSum(a: multiset<string>, b: multiset<string>, x: string)
    ensures (a + b)[x := 0] == a[x := 0] + b[x := 0]
  {
  }

  /** In a list without duplicates, filtering `x` out deletes the one
      position holding it and leaves the others in their order. */
  lemma RemoveAllAt(s: seq<string>, k: nat)
    requires NoDuplicates(s) && k < |s|
    ensures RemoveAll(s, s[k]) == s[..k] + s[k + 1..]
  {
    UniqueAt(s, k);
    RemoveAllSplit(s[..k], s[k + 1..], s[k]);
    SplitAt(s, k);
  }

  lemma SplitAt(s: seq<string>, k: nat)
    requires k < |s|
    ensures s == s[..k] + ([s[k]] + s[k + 1..])
  {
  }

  /** In a list without duplicates, an element occurs neither before nor after its position. */
  lemma UniqueAt(s: seq<string>, k: nat)
    requires NoDuplicates(s) && k < |s|
    ensures s[k] !in s[..k] && s[k] !in s[k + 1..]
  {
  }

  /** Filtering out the one occurrence of `x` between `pre` and `post` joins them. */
  lemma RemoveAllSplit(pre: seq<string>, post: seq<string>, x: string)
    requires x !in pre && x !in post
    ensures RemoveAll(pre + ([x] + post), x) == pre + post
  {
    RemoveAllAppend(pre, [x] + post, x);
    RemoveAllAbsent(pre, x);
    RemoveAllHead(post, x);
  }

  /** Filtering `x` out of `x` followed by a list without it leaves that list. */
  lemma RemoveAllHead(post: seq<string>, x: string)
    requires x !in post
    ensures RemoveAll([x] + post, x) == post
  {
    assert ([x] + post)[1..] == post;
    RemoveAllAbsent(post, x);
  }

  /** Toggling keeps a list free of duplicates. */
  lemma ToggleNoDuplicates(s: seq<string>, x: string)
    requires NoDuplicates(s)
    ensures NoDuplicates(Toggle(s, x))
  {
    if x in s {
      var k :| 0 <= k < |s| && s[k] == x;
      RemoveAllAt(s, k);
      DeleteNoDuplicates(s, k);
    } else {
      AppendNoDuplicates(s, x);
    }
  }

  lemma DeleteNoDuplicates(s: seq<string>, k: nat)
    requires NoDuplicates(s) && k < |s|
    ensures NoDuplicates(s[..k] + s[k + 1..])
  {
  }

  lemma AppendNoDuplicates(s: seq<string>, x: string)
    requires NoDuplicates(s) && x !in s
    ensures NoDuplicates(s + [x])
  {
  }

  /** Toggling the same id twice restores which ids are selected. */
  lemma ToggleTwiceMembership(s: seq<string>, x: string)
    ensures forall y :: y in Toggle(Toggle(s, x), x) <==> y in s
  {
  }

  /** Toggling an absent id twice restores the exact list. */
  lemma ToggleTwiceAbsent(s: seq<string>, x: string)
    requires x !in s
    ensures Toggle(Toggle(s, x), x) == s
  {
    RemoveAllAppend(s, [x], x);
    RemoveAllAbsent(s, x);
  }

  /** Toggling a present id twice moves it to the end (once). */
  lemma ToggleTwicePresent(s: seq<string>, x: string)
    requires x in s
    ensures Toggle(Toggle(s, x), x) == RemoveAll(s, x) + [x]
  {
  }

  /** Two toggles give back the exact list if and only if `x` was absent or
      was the last element and occurred nowhere else. */
  lemma {:induction false} ToggleTwiceIdentity(s: seq<string>, x: string)
    ensures Toggle(Toggle(s, x), x) == s <==>
      x !in s || (|s| > 0 && s[|s| - 1] == x && x !in s[..|s| - 1])
  {
    if x !in s {
      ToggleTwiceAbsent(s, x);
    } else {
      ToggleTwicePresent(s, x);
      var r := RemoveAll(s, x);
      if r + [x] == s {
        // the list ends in `x`, and what precedes it is `r`, free of `x`
        assert s[..|s| - 1] == r;
      }
      if |s| > 0 && s[|s| - 1] == x && x !in s[..|s| - 1] {
        var pre := s[..|s| - 1];
        assert s == pre + [x];
        RemoveAllAppend(pre, [x], x);
        RemoveAllAbsent(pre, x);
        assert RemoveAll([x], x) == [];
      }
    }
  }

  /** So a present `x` that is not last alone does not restore the list:
      with "a" first, two toggles of "a" reorder the list. */
  lemma ToggleTwiceReorders()
    ensures Toggle(Toggle(["a", "b"], "a"), "a") == ["b", "a"]
    ensures Toggle(Toggle(["a", "b"], "a"), "a") != ["a", "b"]
  {
  }
}
