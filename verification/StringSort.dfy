/** sort.Strings: sorting strings that occur once gives their strictly sorted sequence. */
module StringSort {
  import opened Strings
  import opened Sorting

  lemma StringOrderIsTotal()
    ensures TotalPreorder(AtMost)
  {
    forall a, b ensures AtMost(a, b) || AtMost(b, a) {
      LessTrichotomy(a, b);
    }
    forall a, b, c | AtMost(a, b) && AtMost(b, c) ensures AtMost(a, c) {
      if Less(a, b) && Less(b, c) {
        LessTransitive(a, b, c);
      }
    }
  }

  predicate NoDuplicates(s: seq<string>) {
    forall i, j | 0 <= i < j < |s| :: s[i] != s[j]
  }

  lemma {:induction false} NoDuplicatesCount(s: seq<string>, x: string)
    requires NoDuplicates(s)
    ensures multiset(s)[x] <= 1
  {
    if s != [] {
      assert s == [s[0]] + s[1..];
      NoDuplicatesCount(s[1..], x);
      if x == s[0] {
        assert forall j | 0 <= j < |s[1..]| :: s[1..][j] == s[j + 1] != x;
        assert x !in s[1..];
        assert x !in multiset(s[1..]);
      }
    }
  }

  lemma SortedDistinct(s: seq<string>)
    requires NoDuplicates(s)
    ensures StrictlySorted(Sort(AtMost, s))
    ensures forall x :: x in Sort(AtMost, s) <==> x in s
  {
    StringOrderIsTotal();
    SortIsSortedPermutation(AtMost, s);
    SortMembers(AtMost, s);
    var t := Sort(AtMost, s);
    forall i, j | 0 <= i < j < |t| ensures Less(t[i], t[j]) {
      assert AtMost(t[i], t[j]);
      if t[i] == t[j] {
        RepeatedElement(t, i, j);
        NoDuplicatesCount(s, t[i]);
      }
    }
  }

  /** So the result is determined by the set of strings. */
  lemma SortedDistinctIs(s: seq<string>, ids: set<string>)
    requires NoDuplicates(s) && forall x :: x in s <==> x in ids
    ensures Sort(AtMost, s) == SortedOf(ids)
  {
    SortedDistinct(s);
    StrictlySortedUnique(Sort(AtMost, s), SortedOf(ids));
  }
}
