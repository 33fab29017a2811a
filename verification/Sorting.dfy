/** A stable sort standing for Go's sort.SliceStable and sort.Strings. */
module Sorting {

  ghost predicate TotalPreorder<T(!new)>(le: (T, T) -> bool) {
    && (forall a, b :: le(a, b) || le(b, a))
    && (forall a, b, c :: le(a, b) && le(b, c) ==> le(a, c))
  }

  ghost predicate Sorted<T>(le: (T, T) -> bool, s: seq<T>) {
    forall i, j | 0 <= i < j < |s| :: le(s[i], s[j])
  }

  /** Puts `x` after every element that is at most `x`. */
  function Insert<T>(le: (T, T) -> bool, x: T, s: seq<T>): seq<T> {
    if s == [] then [x]
    else if le(s[0], x) then [s[0]] + Insert(le, x, s[1..])
    else [x] + s
  }

  function Sort<T>(le: (T, T) -> bool, s: seq<T>): seq<T> {
    if s == [] then [] else Insert(le, s[|s| - 1], Sort(le, s[..|s| - 1]))
  }

  lemma {:induction false} InsertPermutes<T>(le: (T, T) -> bool, x: T, s: seq<T>)
    ensures multiset(Insert(le, x, s)) == multiset(s) + multiset{x}
    ensures |Insert(le, x, s)| == |s| + 1
  {
    if s != [] {
      assert s == [s[0]] + s[1..];
      InsertPermutes(le, x, s[1..]);
    }
  }

  lemma {:induction false} InsertSorted<T(!new)>(le: (T, T) -> bool, x: T, s: seq<T>)
    requires TotalPreorder(le) && Sorted(le, s)
    ensures Sorted(le, Insert(le, x, s))
  {
    if s != [] {
      if le(s[0], x) {
        InsertSorted(le, x, s[1..]);
        InsertPermutes(le, x, s[1..]);
        var t := Insert(le, x, s[1..]);
        forall j | 0 <= j < |t| ensures le(s[0], t[j]) {
          assert t[j] in multiset(t);
          assert t[j] in multiset(s[1..]) || t[j] == x;
        }
      } else {
        assert le(x, s[0]);
        forall j | 0 <= j < |s| ensures le(x, s[j]) {
          if j > 0 {
            assert le(s[0], s[j]);
          }
        }
      }
    }
  }

  lemma {:induction false} SortIsSortedPermutation<T(!new)>(le: (T, T) -> bool, s: seq<T>)
    requires TotalPreorder(le)
    ensures Sorted(le, Sort(le, s))
    ensures multiset(Sort(le, s)) == multiset(s)
    ensures |Sort(le, s)| == |s|
  {
    if s != [] {
      var n := |s| - 1;
      SortIsSortedPermutation(le, s[..n]);
      InsertSorted(le, s[n], Sort(le, s[..n]));
      InsertPermutes(le, s[n], Sort(le, s[..n]));
      assert s == s[..n] + [s[n]];
    }
  }

  ghost predicate TiesAreEqual<T>(le: (T, T) -> bool, s: seq<T>) {
    forall a, b | a in s && b in s :: le(a, b) && le(b, a) ==> a == b
  }

  lemma TailPermutes<T>(s: seq<T>, t: seq<T>)
    requires multiset(s) == multiset(t)
    requires |s| > 0 && |t| > 0 && s[0] == t[0]
    ensures multiset(s[1..]) == multiset(t[1..])
  {
    assert s == [s[0]] + s[1..] && t == [t[0]] + t[1..];
    assert multiset(s) == multiset{s[0]} + multiset(s[1..]);
    assert multiset(t) == multiset{t[0]} + multiset(t[1..]);
    calc {
      multiset(s[1..]);
      multiset(s) - multiset{s[0]};
      multiset(t) - multiset{t[0]};
      multiset(t[1..]);
    }
  }

  /** Two sorted arrangements of the same elements agree once ties are only between equal elements. */
  lemma {:induction false} SortedUnique<T>(le: (T, T) -> bool, s: seq<T>, t: seq<T>)
    requires Sorted(le, s) && Sorted(le, t)
    requires multiset(s) == multiset(t)
    requires TiesAreEqual(le, s)
    ensures s == t
  {
    SameLength(s, t);
    if s != [] {
      SameFirst(le, s, t);
      TailPermutes(s, t);
      SortedUnique(le, s[1..], t[1..]);
      assert s == [s[0]] + s[1..] && t == [t[0]] + t[1..];
    }
  }

  lemma SameLength<T>(s: seq<T>, t: seq<T>)
    requires multiset(s) == multiset(t)
    ensures |s| == |t|
  {
    assert |s| == |multiset(s)| == |multiset(t)| == |t|;
  }

  lemma SameFirst<T>(le: (T, T) -> bool, s: seq<T>, t: seq<T>)
    requires Sorted(le, s) && Sorted(le, t)
    requires multiset(s) == multiset(t) && |s| == |t| > 0
    requires TiesAreEqual(le, s)
    ensures s[0] == t[0]
  {
    assert s[0] in multiset(t) && t[0] in multiset(s);
    var i :| 0 <= i < |t| && t[i] == s[0];
    var j :| 0 <= j < |s| && s[j] == t[0];
    if i > 0 && j > 0 {
      assert le(t[0], t[i]) && le(s[0], s[j]);
    }
  }

  /** Membership carries through a permutation. */
  lemma SortMembers<T(!new)>(le: (T, T) -> bool, s: seq<T>)
    requires TotalPreorder(le)
    ensures forall x :: x in Sort(le, s) <==> x in s
  {
    SortIsSortedPermutation(le, s);
    forall x ensures x in Sort(le, s) <==> x in s {
      assert x in Sort(le, s) <==> x in multiset(Sort(le, s));
      assert x in s <==> x in multiset(s);
    }
  }

  // ----- Repeated elements -----

  lemma {:induction false} RepeatedElement<T>(s: seq<T>, i: int, j: int)
    requires 0 <= i < j < |s| && s[i] == s[j]
    ensures multiset(s)[s[i]] >= 2
  {
    assert s == s[..j] + [s[j]] + s[j + 1..];
    assert s[..j][i] in multiset(s[..j]);
  }

  lemma {:induction false} CountedTwice<T>(s: seq<T>, x: T)
    requires multiset(s)[x] >= 2
    ensures exists i, j :: 0 <= i < j < |s| && s[i] == x && s[j] == x
  {
    assert x in multiset(s) && x in s;
    var i :| 0 <= i < |s| && s[i] == x;
    assert s == s[..i] + [x] + s[i + 1..];
    if x in multiset(s[..i]) {
      var j :| 0 <= j < i && s[..i][j] == x;
      assert s[j] == x;
    } else {
      assert multiset(s)[x] == multiset(s[..i])[x] + 1 + multiset(s[i + 1..])[x];
      assert x in s[i + 1..];
      var j :| 0 <= j < |s[i + 1..]| && s[i + 1..][j] == x;
      assert s[i + 1 + j] == x;
    }
  }
}
