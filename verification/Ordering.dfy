/** Python's ordering of strings and of tuples of strings, and sorting by it. */
module Ordering {

  /** Strictly smaller, character by character; a proper prefix comes first. */
  predicate Before(a: string, b: string) {
    b != [] && (a == [] || a[0] < b[0] || (a[0] == b[0] && Before(a[1..], b[1..])))
  }

  predicate AtMost(a: string, b: string) {
    a == b || Before(a, b)
  }

  lemma {:induction false} OneOrder(a: string, b: string)
    ensures a == b ==> !Before(a, b)
    ensures a != b ==> (Before(a, b) <==> !Before(b, a))
  {
    if a != [] && b != [] && a[0] == b[0] {
      OneOrder(a[1..], b[1..]);
      assert a == [a[0]] + a[1..] && b == [b[0]] + b[1..];
    }
  }

  lemma {:induction false} BeforeTransitive(a: string, b: string, c: string)
    requires Before(a, b) && Before(b, c)
    ensures Before(a, c)
  {
    if a != [] && a[0] == b[0] && b[0] == c[0] {
      BeforeTransitive(a[1..], b[1..], c[1..]);
    }
  }

  /** Up to some position both are the same; there the one has ended, or has the smaller character. */
  ghost predicate DiffersAt(a: string, b: string, n: nat) {
    n <= |a| && n < |b| && a[..n] == b[..n] && (n < |a| ==> a[n] < b[n])
  }

  /** One string comes before another exactly when it does at the first position where they differ. */
  lemma {:induction false} BeforeExactly(a: string, b: string)
    ensures Before(a, b) <==> exists n: nat :: DiffersAt(a, b, n)
  {
    if b != [] {
      if a == [] || a[0] < b[0] {
        assert DiffersAt(a, b, 0);
      } else if a[0] == b[0] {
        BeforeExactly(a[1..], b[1..]);
        if n: nat :| DiffersAt(a[1..], b[1..], n) {
          assert a[..n + 1] == [a[0]] + a[1..][..n] && b[..n + 1] == [b[0]] + b[1..][..n];
          assert DiffersAt(a, b, n + 1);
        }
        if n: nat :| DiffersAt(a, b, n) {
          assert a[1..][..n - 1] == a[..n][1..] && b[1..][..n - 1] == b[..n][1..];
          assert DiffersAt(a[1..], b[1..], n - 1);
        }
      } else {
        assert forall n: nat :: n > 0 && DiffersAt(a, b, n) ==> a[..n][0] == b[..n][0];
      }
    }
  }

  ghost predicate TupleDiffersAt(a: seq<string>, b: seq<string>, n: nat) {
    n <= |a| && n < |b| && a[..n] == b[..n] && (n < |a| ==> Before(a[n], b[n]))
  }

  lemma {:induction false} TupleBeforeExactly(a: seq<string>, b: seq<string>)
    ensures TupleBefore(a, b) <==> exists n: nat :: TupleDiffersAt(a, b, n)
  {
    hide Before;
    if b != [] {
      if a == [] || Before(a[0], b[0]) {
        assert TupleDiffersAt(a, b, 0);
      } else if a[0] == b[0] {
        TupleBeforeExactly(a[1..], b[1..]);
        OneOrder(a[0], b[0]);
        if n: nat :| TupleDiffersAt(a[1..], b[1..], n) {
          assert a[..n + 1] == [a[0]] + a[1..][..n] && b[..n + 1] == [b[0]] + b[1..][..n];
          assert TupleDiffersAt(a, b, n + 1);
        }
        if n: nat :| TupleDiffersAt(a, b, n) {
          assert a[1..][..n - 1] == a[..n][1..] && b[1..][..n - 1] == b[..n][1..];
          assert TupleDiffersAt(a[1..], b[1..], n - 1);
        }
      } else {
        assert forall n: nat :: n > 0 && TupleDiffersAt(a, b, n) ==> a[..n][0] == b[..n][0];
      }
    }
  }

  predicate TupleBefore(a: seq<string>, b: seq<string>) {
    b != [] && (a == [] || Before(a[0], b[0]) || (a[0] == b[0] && TupleBefore(a[1..], b[1..])))
  }

  lemma {:induction false} OneTupleOrder(a: seq<string>, b: seq<string>)
    ensures a == b ==> !TupleBefore(a, b)
    ensures a != b ==> (TupleBefore(a, b) <==> !TupleBefore(b, a))
  {
    if a != [] && b != [] {
      OneOrder(a[0], b[0]);
      OneTupleOrder(a[1..], b[1..]);
      assert a == [a[0]] + a[1..] && b == [b[0]] + b[1..];
    }
  }

  lemma {:induction false} TupleBeforeTransitive(a: seq<string>, b: seq<string>, c: seq<string>)
    requires TupleBefore(a, b) && TupleBefore(b, c)
    ensures TupleBefore(a, c)
  {
    if a != [] {
      if Before(a[0], b[0]) && Before(b[0], c[0]) {
        BeforeTransitive(a[0], b[0], c[0]);
      } else if a[0] == b[0] && b[0] == c[0] {
        TupleBeforeTransitive(a[1..], b[1..], c[1..]);
      }
    }
  }

  predicate TuplesAscend(s: seq<seq<string>>) {
    forall i, j :: 0 <= i < j < |s| ==> TupleBefore(s[i], s[j])
  }

  function InsertTuple(x: seq<string>, s: seq<seq<string>>): seq<seq<string>> {
    if s == [] || !TupleBefore(s[0], x) then [x] + s else [s[0]] + InsertTuple(x, s[1..])
  }

  function SortedTuples(s: seq<seq<string>>): seq<seq<string>> {
    if s == [] then [] else InsertTuple(s[0], SortedTuples(s[1..]))
  }

  lemma {:induction false} SortingAscendingTuples(s: seq<seq<string>>)
    requires TuplesAscend(s)
    ensures SortedTuples(s) == s
  {
    if s != [] {
      SortingAscendingTuples(s[1..]);
      if |s| > 1 { OneTupleOrder(s[0], s[1]); }
    }
  }

  // ---------- sorting ----------

  predicate IsSorted(s: seq<string>) {
    forall i, j :: 0 <= i < j < |s| ==> AtMost(s[i], s[j])
  }

  function Insert(x: string, s: seq<string>): (r: seq<string>)
    ensures multiset(r) == multiset(s) + multiset{x}
  {
    if s == [] then [x]
    else
      assert s == [s[0]] + s[1..];
      if AtMost(x, s[0]) then [x] + s else [s[0]] + Insert(x, s[1..])
  }

  function Sorted(s: seq<string>): (r: seq<string>)
    ensures multiset(r) == multiset(s)
  {
    if s == [] then [] else
      assert s == [s[0]] + s[1..];
      Insert(s[0], Sorted(s[1..]))
  }

  lemma {:induction false} InsertKeepsOrder(x: string, s: seq<string>)
    requires IsSorted(s)
    ensures IsSorted(Insert(x, s))
  {
    if s != [] && !AtMost(x, s[0]) {
      var rest := Insert(x, s[1..]);
      InsertKeepsOrder(x, s[1..]);
      OneOrder(x, s[0]);
      forall j | 0 <= j < |rest| ensures AtMost(s[0], rest[j]) {
        assert rest[j] in multiset(rest);
        assert rest[j] == x || rest[j] in s[1..];
      }
    } else if s != [] {
      forall j | 0 <= j < |s| ensures AtMost(x, s[j]) {
        if j > 0 && Before(x, s[0]) && Before(s[0], s[j]) { BeforeTransitive(x, s[0], s[j]); }
      }
    }
  }

  lemma {:induction false} SortedIsSorted(s: seq<string>)
    ensures IsSorted(Sorted(s))
    ensures forall x :: x in Sorted(s) <==> x in s
  {
    if s != [] {
      SortedIsSorted(s[1..]);
      InsertKeepsOrder(s[0], Sorted(s[1..]));
    }
    forall x ensures x in Sorted(s) <==> x in s {
      assert x in Sorted(s) <==> x in multiset(Sorted(s));
    }
  }

  lemma RestOfMultiset(a: seq<string>)
    requires a != []
    ensures multiset(a[1..]) == multiset(a) - multiset{a[0]} && a[0] in multiset(a) && a == [a[0]] + a[1..]
  {
    assert a == [a[0]] + a[1..];
    assert multiset(a) == multiset{a[0]} + multiset(a[1..]);
  }

  lemma SameFirst(a: seq<string>, b: seq<string>)
    requires IsSorted(a) && IsSorted(b) && a != [] && b != [] && a[0] in b && b[0] in a
    ensures a[0] == b[0]
  {
    hide Before;
    OneOrder(a[0], b[0]);
  }

  /** Two sorted lists of the same strings are the same list, so sorting forgets the order it was given. */
  lemma {:induction false} SortedIsUnique(a: seq<string>, b: seq<string>)
    requires IsSorted(a) && IsSorted(b) && multiset(a) == multiset(b)
    ensures a == b
  {
    hide AtMost;
    if a == [] {
      assert |multiset(b)| == 0;
    } else {
      assert |multiset(b)| == |multiset(a)| == |a|;
      RestOfMultiset(a);
      RestOfMultiset(b);
      assert a[0] in multiset(b) && b[0] in multiset(a);
      SameFirst(a, b);
      SortedIsUnique(a[1..], b[1..]);
    }
  }

  // ---------- the elements of a set in order ----------

  predicate IsFirst(x: string, s: set<string>) {
    x in s && forall y :: y in s ==> AtMost(x, y)
  }

  lemma {:induction false} FirstExists(s: set<string>)
    requires s != {}
    ensures exists x :: IsFirst(x, s)
    decreases |s|
  {
    var y :| y in s;
    var rest := s - {y};
    if rest == {} {
      assert s == {y};
      assert IsFirst(y, s);
    } else {
      FirstExists(rest);
      var z :| IsFirst(z, rest);
      OneOrder(y, z);
      var first := if AtMost(y, z) then y else z;
      forall x | x in s ensures AtMost(first, x) {
        assert x == y || x in rest;
        if Before(y, z) && Before(z, x) { BeforeTransitive(y, z, x); }
      }
      assert IsFirst(first, s);
    }
  }

  lemma FirstIsUnique(x: string, y: string, s: set<string>)
    requires IsFirst(x, s) && IsFirst(y, s)
    ensures x == y
  {
    OneOrder(x, y);
  }

  function SortedSet(s: set<string>): (r: seq<string>)
    ensures forall x :: x in r <==> x in s
    ensures |r| == |s|
    decreases |s|
  {
    if s == {} then [] else
      FirstExists(s);
      assert forall x, y | IsFirst(x, s) && IsFirst(y, s) :: x == y by {
        forall x, y | IsFirst(x, s) && IsFirst(y, s) ensures x == y { FirstIsUnique(x, y, s); }
      }
      var first :| first in s && IsFirst(first, s);
      [first] + SortedSet(s - {first})
  }

  lemma {:induction false} SortedSetIsOrdered(s: set<string>)
    ensures forall i, j :: 0 <= i < j < |SortedSet(s)| ==> Before(SortedSet(s)[i], SortedSet(s)[j])
    ensures forall i, j :: 0 <= i < j < |SortedSet(s)| ==> SortedSet(s)[i] != SortedSet(s)[j]
    decreases |s|
  {
    if s != {} {
      var r := SortedSet(s);
      assert IsFirst(r[0], s) && r[1..] == SortedSet(s - {r[0]});
      SortedSetIsOrdered(s - {r[0]});
      forall i, j | 0 <= i < j < |r| ensures Before(r[i], r[j]) && r[i] != r[j] {
        assert r[j] == r[1..][j - 1];
        if i > 0 { assert r[i] == r[1..][i - 1]; } else { assert r[j] in r[1..]; }
        OneOrder(r[i], r[j]);
      }
    }
  }
}
