/** `get_duplicates`: the values that occur more than once in a list. */
module Duplicates {

  /** The distinct values that occur at least twice in `s`. */
  function DuplicateSet(s: seq<string>): set<string> {
    set x | x in s && multiset(s)[x] >= 2
  }

  /**
   * `get_duplicates(thelist)`: walks the list once, remembering the values
   * seen so far and collecting those seen again.
   */
  method GetDuplicates(thelist: seq<string>) returns (dupes: set<string>)
    ensures forall x :: x in dupes <==> multiset(thelist)[x] >= 2
    ensures dupes == DuplicateSet(thelist)
  {
    var items: set<string> := {};
    dupes := {};
    for i := 0 to |thelist|
      invariant forall x :: x in items <==> multiset(thelist[..i])[x] >= 1
      invariant forall x :: x in dupes <==> multiset(thelist[..i])[x] >= 2
    {
      assert thelist[..i + 1] == thelist[..i] + [thelist[i]];
      if thelist[i] in items {
        dupes := dupes + {thelist[i]};
      } else {
        items := items + {thelist[i]};
      }
    }
    assert thelist[..|thelist|] == thelist;
  }

  /** The result depends only on how often each value occurs, so sorting the list first changes nothing. */
  lemma DuplicatesOrderFree(a: seq<string>, b: seq<string>)
    requires multiset(a) == multiset(b)
    ensures DuplicateSet(a) == DuplicateSet(b)
  {
    forall x ensures x in DuplicateSet(a) <==> x in DuplicateSet(b) {
      assert x in a <==> x in multiset(a);
      assert x in b <==> x in multiset(b);
    }
  }

  /** The entries of `urls` that belong to `dupes`, in order and with repetitions. */
  function Flagged(urls: seq<string>, dupes: set<string>): (f: seq<string>)
    ensures forall x :: x in f ==> x in dupes
    ensures |f| <= |urls|
  {
    if |urls| == 0 then []
    else Flagged(urls[..|urls| - 1], dupes) + (if urls[|urls| - 1] in dupes then [urls[|urls| - 1]] else [])
  }

  /** Every occurrence of a value of `dupes` is flagged, and nothing else is. */
  lemma {:induction false} FlaggedCounts(urls: seq<string>, dupes: set<string>)
    ensures forall x :: multiset(Flagged(urls, dupes))[x] == if x in dupes then multiset(urls)[x] else 0
  {
    if |urls| > 0 {
      var init := urls[..|urls| - 1];
      FlaggedCounts(init, dupes);
      assert urls == init + [urls[|urls| - 1]];
    }
  }

  /** Against the duplicates of the list itself: a value occurring `n >= 2` times is flagged `n` times, a single one never. */
  lemma DuplicatesFlaggedPerOccurrence(urls: seq<string>)
    ensures forall x ::
      var n := multiset(urls)[x]; multiset(Flagged(urls, DuplicateSet(urls)))[x] == if n >= 2 then n else 0
  {
    FlaggedCounts(urls, DuplicateSet(urls));
    forall x ensures x in DuplicateSet(urls) <==> multiset(urls)[x] >= 2 {
      assert x in urls <==> x in multiset(urls);
    }
  }

  /** `[A, A, B]` flags `A` twice and `B` never. */
  lemma DuplicatesExample(a: string, b: string)
    requires a != b
    ensures DuplicateSet([a, a, b]) == {a}
    ensures Flagged([a, a, b], DuplicateSet([a, a, b])) == [a, a]
  {
    var s := [a, a, b];
    assert multiset(s)[a] == 2 && multiset(s)[b] == 1;
    forall x ensures x in DuplicateSet(s) <==> x == a {
      if x != a && x != b {
        assert x !in s;
      }
    }
    assert DuplicateSet(s) == {a};
    assert s[..2] == [a, a] && s[..2][..1] == [a] && s[..2][..1][..0] == [];
    assert Flagged([a], {a}) == [a];
    assert Flagged([a, a], {a}) == [a, a];
  }
}
