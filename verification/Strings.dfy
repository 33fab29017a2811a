/** Go's order on strings, and the one sorted sequence of a finite set of strings. */
module Strings {

  /** Strict lexicographic order, element by element (Go's `<` on strings). */
  predicate Less(a: string, b: string) {
    b != [] && (a == [] || a[0] < b[0] || (a[0] == b[0] && Less(a[1..], b[1..])))
  }

  predicate AtMost(a: string, b: string) {
    a == b || Less(a, b)
  }

  lemma {:induction false} LessTransitive(a: string, b: string, c: string)
    requires Less(a, b) && Less(b, c)
    ensures Less(a, c)
  {
    if a != [] && a[0] == b[0] && b[0] == c[0] {
      LessTransitive(a[1..], b[1..], c[1..]);
    }
  }

  lemma {:induction false} LessTrichotomy(a: string, b: string)
    ensures Less(a, b) || a == b || Less(b, a)
    ensures !(Less(a, b) && Less(b, a))
    ensures !Less(a, a)
  {
    if a != [] && b != [] {
      LessTrichotomy(a[1..], b[1..]);
      if a[1..] == b[1..] && a[0] == b[0] {
        assert a == [a[0]] + a[1..] == b;
      }
    }
    if a != [] {
      LessIrreflexive(a[1..]);
    }
  }

  lemma {:induction false} LessIrreflexive(a: string)
    ensures !Less(a, a)
  {
    if a != [] {
      LessIrreflexive(a[1..]);
    }
  }

  ghost predicate StrictlySorted(s: seq<string>) {
    forall i, j | 0 <= i < j < |s| :: Less(s[i], s[j])
  }

  lemma StrictlySortedDistinct(s: seq<string>)
    requires StrictlySorted(s)
    ensures forall i, j | 0 <= i < j < |s| :: s[i] != s[j]
  {
    forall i, j | 0 <= i < j < |s| ensures s[i] != s[j] {
      LessIrreflexive(s[i]);
    }
  }

  /** A strictly sorted sequence is determined by its set of elements. */
  lemma {:induction false} StrictlySortedUnique(s: seq<string>, t: seq<string>)
    requires StrictlySorted(s) && StrictlySorted(t)
    requires forall x :: x in s <==> x in t
    ensures s == t
  {
    if s != [] {
      assert s[0] in s;
    }
    if t != [] {
      assert t[0] in t;
    }
    if s != [] {
      var i :| 0 <= i < |t| && t[i] == s[0];
      var j :| 0 <= j < |s| && s[j] == t[0];
      if i > 0 && j > 0 {
        LessTrichotomy(s[0], t[0]);
      }
      assert s[0] == t[0];
      StrictlySortedDistinct(s);
      StrictlySortedDistinct(t);
      forall x
        ensures x in s[1..] <==> x in t[1..]
      {
        if x in s[1..] {
          assert x in s && x != s[0];
          assert x in t;
        }
        if x in t[1..] {
          assert x in t && x != t[0];
          assert x in s;
        }
      }
      StrictlySortedUnique(s[1..], t[1..]);
      assert s == [s[0]] + s[1..] == [t[0]] + t[1..] == t;
    }
  }

  lemma {:induction false} LeastExists(ids: set<string>) returns (least: string)
    requires ids != {}
    ensures least in ids && forall y | y in ids :: AtMost(least, y)
  {
    var x :| x in ids;
    if ids == {x} {
      return x;
    }
    var m := LeastExists(ids - {x});
    LessTrichotomy(x, m);
    least := if Less(x, m) then x else m;
    forall y | y in ids ensures AtMost(least, y) {
      if y != x {
        assert y in ids - {x} && AtMost(m, y);
        if least == x && Less(m, y) {
          LessTransitive(x, m, y);
        }
      }
    }
  }

  lemma LeastInFront(least: string, ids: set<string>, rest: seq<string>)
    requires least in ids && forall y | y in ids :: AtMost(least, y)
    requires StrictlySorted(rest) && forall x :: x in rest <==> x in ids - {least}
    ensures StrictlySorted([least] + rest) && forall x :: x in [least] + rest <==> x in ids
  {
    forall i | 0 <= i < |rest| ensures Less(least, rest[i]) {
      assert rest[i] in rest;
    }
  }

  /** The elements of a finite set in order. */
  ghost function SortedOf(ids: set<string>): (s: seq<string>)
    ensures StrictlySorted(s)
    ensures forall x :: x in s <==> x in ids
    ensures |s| == |ids|
  {
    if ids == {} then []
    else
      assert exists least :: least in ids && forall y | y in ids :: AtMost(least, y) by {
        var least := LeastExists(ids);
      }
      var least :| least in ids && forall y | y in ids :: AtMost(least, y);
      var rest := SortedOf(ids - {least});
      LeastInFront(least, ids, rest);
      [least] + rest
  }

  /** The first place where two strings differ, or the end of the shorter one. */
  ghost predicate Diverge(a: string, b: string, i: int) {
    && 0 <= i <= |a| && i <= |b| && a[..i] == b[..i]
    && (i < |a| && i < |b| ==> a[i] != b[i])
  }

  /** Less is decided there: by the characters, or by which string ends. */
  lemma {:induction false} LessWhereTheyDiverge(a: string, b: string, i: int)
    requires Diverge(a, b, i)
    ensures Less(a, b) <==> i < |b| && (i == |a| || a[i] < b[i])
  {
    if i > 0 {
      assert a[0] == a[..i][0] == b[..i][0] == b[0];
      assert a[1..][..i - 1] == a[..i][1..] == b[..i][1..] == b[1..][..i - 1];
      LessWhereTheyDiverge(a[1..], b[1..], i - 1);
    }
  }
}
