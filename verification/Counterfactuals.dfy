/** The search for the smallest set of private facts whose removal changes the selected plan. The
    evaluation is any function from the removed facts to the winner. */
module Counterfactuals {
  import opened Outcomes
  import opened Ordering

  datatype Fact = Fact(id: string, private: bool)

  datatype Error = LimitOutOfRange

  datatype Verdict =
    | WinnerChanged(removed: seq<string>, alternatives: seq<seq<string>>)
    | NoSmallCounterfactualFound

  predicate DistinctFacts(facts: seq<Fact>) {
    forall i, j :: 0 <= i < j < |facts| ==> facts[i].id != facts[j].id
  }

  predicate Ascends(s: seq<string>) {
    forall i, j :: 0 <= i < j < |s| ==> Before(s[i], s[j])
  }

  function Elements(s: seq<string>): (r: set<string>)
    ensures forall x :: x in r <==> x in s
  {
    set x | x in s
  }

  // ---------- the private facts ----------

  function PrivateIds(facts: seq<Fact>, removed: set<string>): (r: seq<string>)
    ensures forall x :: x in r <==> exists f :: f in facts && f.private && f.id !in removed && f.id == x
  {
    if facts == [] then []
    else
      assert forall f :: f in facts <==> f == facts[0] || f in facts[1..];
      (if facts[0].private && facts[0].id !in removed then [facts[0].id] else []) + PrivateIds(facts[1..], removed)
  }

  predicate NoRepeats(s: seq<string>) {
    forall i, j :: 0 <= i < j < |s| ==> s[i] != s[j]
  }

  lemma {:induction false} PrivateIdsDiffer(facts: seq<Fact>, removed: set<string>)
    requires DistinctFacts(facts)
    ensures NoRepeats(PrivateIds(facts, removed))
  {
    if facts != [] {
      PrivateIdsDiffer(facts[1..], removed);
      var rest := PrivateIds(facts[1..], removed);
      forall x | x in rest ensures x != facts[0].id {
        var f :| f in facts[1..] && f.id == x;
        var i :| 0 <= i < |facts[1..]| && facts[1..][i] == f;
        assert facts[i + 1] == f;
      }
      forall i, j | 0 <= i < j < |[facts[0].id] + rest| ensures ([facts[0].id] + rest)[i] != ([facts[0].id] + rest)[j] {
        assert rest[j - 1] in rest;
      }
    }
  }

  lemma {:induction false} DistinctByCount(s: seq<string>)
    ensures NoRepeats(s) <==> forall x :: multiset(s)[x] <= 1
  {
    if s != [] {
      DistinctByCount(s[1..]);
      assert s == [s[0]] + s[1..];
      assert multiset(s) == multiset{s[0]} + multiset(s[1..]);
      if NoRepeats(s) {
        assert s[0] !in s[1..];
      }
      if forall x :: multiset(s)[x] <= 1 {
        forall x ensures multiset(s[1..])[x] <= 1 { assert multiset(s)[x] <= 1; }
        assert multiset(s)[s[0]] <= 1;
        assert s[0] !in s[1..];
        forall i, j | 0 <= i < j < |s| ensures s[i] != s[j] {
          assert s[j] == s[1..][j - 1];
          if i > 0 { assert s[i] == s[1..][i - 1]; }
        }
      }
    }
  }

  /** The identifiers the search combines, in ascending order. */
  function SearchIds(facts: seq<Fact>, removed: set<string>): seq<string> {
    Sorted(PrivateIds(facts, removed))
  }

  lemma SearchIdsAscend(facts: seq<Fact>, removed: set<string>)
    requires DistinctFacts(facts)
    ensures Ascends(SearchIds(facts, removed))
    ensures forall x :: x in SearchIds(facts, removed) <==> x in PrivateIds(facts, removed)
  {
    var ids, sorted := PrivateIds(facts, removed), SearchIds(facts, removed);
    PrivateIdsDiffer(facts, removed);
    SortedIsSorted(ids);
    DistinctByCount(ids);
    DistinctByCount(sorted);
    forall i, j | 0 <= i < j < |sorted| ensures Before(sorted[i], sorted[j]) {
      assert AtMost(sorted[i], sorted[j]);
    }
  }

  // ---------- combinations ----------

  function Prefixed(x: string, lists: seq<seq<string>>): (r: seq<seq<string>>)
    ensures |r| == |lists|
    ensures forall i :: 0 <= i < |r| ==> r[i] == [x] + lists[i]
  {
    seq(|lists|, i requires 0 <= i < |lists| => [x] + lists[i])
  }

  /** The combinations of a given size, in the order of `itertools.combinations`. */
  function Combinations(ids: seq<string>, k: nat): seq<seq<string>>
    decreases |ids|
  {
    if k == 0 then [[]]
    else if ids == [] then []
    else Prefixed(ids[0], Combinations(ids[1..], k - 1)) + Combinations(ids[1..], k)
  }

  /** An ascending choice among the identifiers. */
  predicate IsChoice(ids: seq<string>, c: seq<string>) {
    Ascends(c) && forall x :: x in c ==> x in ids
  }

  lemma PrefixedExactly(x: string, lists: seq<seq<string>>, c: seq<string>)
    ensures c in Prefixed(x, lists) <==> c != [] && c[0] == x && c[1..] in lists
  {
    var r := Prefixed(x, lists);
    if c in r {
      var i :| 0 <= i < |r| && r[i] == c;
      assert c[1..] == lists[i];
    }
    if c != [] && c[0] == x && c[1..] in lists {
      var i :| 0 <= i < |lists| && lists[i] == c[1..];
      assert c == [x] + c[1..];
      assert r[i] == c;
    }
  }

  lemma NoOtherChoice(ids: seq<string>, k: nat, c: seq<string>)
    requires k == 0 || ids == []
    ensures c in Combinations(ids, k) <==> IsChoice(ids, c) && |c| == k
  {
    assert c != [] ==> c[0] in c;
  }

  lemma CombinationSplits(ids: seq<string>, k: nat, c: seq<string>)
    requires k > 0 && ids != []
    ensures c in Combinations(ids, k) <==>
      (c != [] && c[0] == ids[0] && c[1..] in Combinations(ids[1..], k - 1)) || c in Combinations(ids[1..], k)
  {
    UnfoldCombinations(ids, k);
    hide Combinations;
    PrefixedExactly(ids[0], Combinations(ids[1..], k - 1), c);
  }

  /** The combinations are exactly the ascending choices of the size. */
  lemma {:induction false} CombinationsExactly(ids: seq<string>, k: nat, c: seq<string>)
    requires Ascends(ids)
    ensures c in Combinations(ids, k) <==> IsChoice(ids, c) && |c| == k
    decreases |ids|
  {
    hide IsChoice, Combinations, Ascends;
    if k == 0 || ids == [] {
      NoOtherChoice(ids, k, c);
    } else {
      ChoiceSplits(ids, c, k);
      CombinationSplits(ids, k, c);
      RestAscends(ids);
      if c != [] { CombinationsExactly(ids[1..], k - 1, c[1..]); }
      CombinationsExactly(ids[1..], k, c);
    }
  }

  /** They are listed in ascending order, hence each once. */
  lemma {:induction false} CombinationsAscend(ids: seq<string>, k: nat)
    requires Ascends(ids)
    ensures TuplesAscend(Combinations(ids, k))
    decreases |ids|
  {
    if k > 0 && ids != [] {
      hide Ascends, Combinations, TupleBefore, TuplesAscend;
      var with := Prefixed(ids[0], Combinations(ids[1..], k - 1));
      var without := Combinations(ids[1..], k);
      RestAscends(ids);
      CombinationsAscend(ids[1..], k - 1);
      CombinationsAscend(ids[1..], k);
      PrefixingKeepsOrder(ids[0], Combinations(ids[1..], k - 1));
      forall i, j | 0 <= i < |with| && 0 <= j < |without| ensures TupleBefore(with[i], without[j]) {
        LaterStart(ids, k, without[j]);
        StartDecides(with[i], without[j]);
      }
      UnfoldCombinations(ids, k);
      JoiningKeepsOrder(with, without);
    } else {
      hide Ascends;
    }
  }

  lemma StartDecides(a: seq<string>, b: seq<string>)
    requires a != [] && b != [] && Before(a[0], b[0])
    ensures TupleBefore(a, b)
  {}

  lemma JoiningKeepsOrder(a: seq<seq<string>>, b: seq<seq<string>>)
    requires TuplesAscend(a) && TuplesAscend(b)
    requires forall i, j :: 0 <= i < |a| && 0 <= j < |b| ==> TupleBefore(a[i], b[j])
    ensures TuplesAscend(a + b)
  {
    hide TupleBefore;
  }

  lemma RestAscends(ids: seq<string>)
    requires Ascends(ids) && ids != []
    ensures Ascends(ids[1..])
  {}

  lemma UnfoldCombinations(ids: seq<string>, k: nat)
    requires k > 0 && ids != []
    ensures Combinations(ids, k) == Prefixed(ids[0], Combinations(ids[1..], k - 1)) + Combinations(ids[1..], k)
  {}

  lemma PrefixingKeepsOrder(x: string, lists: seq<seq<string>>)
    requires TuplesAscend(lists)
    ensures TuplesAscend(Prefixed(x, lists))
  {
    var r := Prefixed(x, lists);
    forall i, j | 0 <= i < j < |r| ensures TupleBefore(r[i], r[j]) {
      assert r[i][1..] == lists[i] && r[j][1..] == lists[j];
    }
  }

  lemma LaterStart(ids: seq<string>, k: nat, c: seq<string>)
    requires Ascends(ids) && ids != [] && k > 0 && c in Combinations(ids[1..], k)
    ensures c != [] && Before(ids[0], c[0])
  {
    CombinationsExactly(ids[1..], k, c);
    assert c[0] in c && c[0] in ids[1..];
    var m :| 0 < m < |ids| && ids[m] == c[0];
  }

  /** A choice either starts with the first identifier or leaves it out. */
  lemma ChoiceSplits(ids: seq<string>, c: seq<string>, k: nat)
    requires Ascends(ids) && ids != [] && k > 0
    ensures IsChoice(ids, c) && |c| == k <==>
      (c != [] && c[0] == ids[0] && IsChoice(ids[1..], c[1..]) && |c[1..]| == k - 1) || (IsChoice(ids[1..], c) && |c| == k)
  {
    assert ids == [ids[0]] + ids[1..];
    if IsChoice(ids, c) && |c| == k {
      if c[0] == ids[0] {
        forall x | x in c[1..] ensures x in ids[1..] {
          var i :| 0 <= i < |c[1..]| && c[1..][i] == x;
          assert Before(c[0], c[i + 1]);
          OneOrder(c[0], x);
          assert x in ids;
        }
      } else {
        assert c[0] in c && c[0] in ids[1..];
        var m :| 0 < m < |ids| && ids[m] == c[0];
        forall x | x in c ensures x in ids[1..] {
          var i :| 0 <= i < |c| && c[i] == x;
          if i > 0 { BeforeTransitive(ids[0], c[0], x); }
          OneOrder(ids[0], x);
          assert x in ids;
        }
      }
    }
    if c != [] && c[0] == ids[0] && IsChoice(ids[1..], c[1..]) && |c[1..]| == k - 1 {
      forall i, j | 0 <= i < j < |c| ensures Before(c[i], c[j]) {
        if i == 0 {
          assert c[j] == c[1..][j - 1] && c[j] in ids[1..];
          var m :| 0 < m < |ids| && ids[m] == c[j];
        } else {
          assert c[i] == c[1..][i - 1] && c[j] == c[1..][j - 1];
        }
      }
      forall x | x in c ensures x in ids { assert c == [c[0]] + c[1..]; }
    }
  }

  // ---------- the search ----------

  /** Removing these facts changes the winner. */
  predicate Changes(winner: set<string> -> Option<string>, already: set<string>, base: Option<string>, removal: seq<string>) {
    winner(already + Elements(removal)) != base
  }

  /** The choices of one size that change the winner, in order. */
  ghost predicate ListsWinners(
    winner: set<string> -> Option<string>, already: set<string>, base: Option<string>,
    ids: seq<string>, size: nat, winners: seq<seq<string>>)
  {
    && TuplesAscend(winners)
    && forall c :: c in winners <==> IsChoice(ids, c) && |c| == size && Changes(winner, already, base, c)
  }

  /** No choice of a size in the range changes the winner. */
  ghost predicate NoneUpTo(
    winner: set<string> -> Option<string>, already: set<string>, base: Option<string>, ids: seq<string>, size: int)
  {
    forall c :: IsChoice(ids, c) && 1 <= |c| <= size ==> !Changes(winner, already, base, c)
  }

  /** A removal of least size, the first of its size, and all the others of that size in order. */
  ghost predicate IsMinimal(
    winner: set<string> -> Option<string>, already: set<string>, base: Option<string>, ids: seq<string>, limit: nat,
    removed: seq<string>, alternatives: seq<seq<string>>)
  {
    && 1 <= |removed| <= limit
    && NoneUpTo(winner, already, base, ids, |removed| - 1)
    && ListsWinners(winner, already, base, ids, |removed|, [removed] + alternatives)
  }

  method WinnersOfSize(
    winner: set<string> -> Option<string>, already: set<string>, base: Option<string>, ids: seq<string>, size: nat)
    returns (winners: seq<seq<string>>)
    requires Ascends(ids)
    ensures ListsWinners(winner, already, base, ids, size, winners)
  {
    hide IsChoice, Changes, Combinations, TupleBefore, Ascends;
    CombinationsAscend(ids, size);
    var candidates := Combinations(ids, size);
    winners := [];
    ghost var from: seq<nat> := [];
    for i := 0 to |candidates|
      invariant forall c :: c in winners <==> c in candidates[..i] && Changes(winner, already, base, c)
      invariant |from| == |winners|
      invariant forall j :: 0 <= j < |from| ==> from[j] < i && winners[j] == candidates[from[j]]
      invariant forall j, m :: 0 <= j < m < |from| ==> from[j] < from[m]
    {
      if Changes(winner, already, base, candidates[i]) {
        winners, from := winners + [candidates[i]], from + [i];
      }
      assert candidates[..i + 1] == candidates[..i] + [candidates[i]];
    }
    assert candidates[..|candidates|] == candidates;
    forall c ensures c in winners <==> IsChoice(ids, c) && |c| == size && Changes(winner, already, base, c) {
      CombinationsExactly(ids, size, c);
    }
  }

  /** The search returns a removal of minimum cardinality, lexicographically first, with the other removals of
      that size as alternatives, and finds nothing exactly when no set within the limit changes the winner. */
  method Search(facts: seq<Fact>, already: set<string>, base: Option<string>, limit: int, winner: set<string> -> Option<string>)
    returns (r: Result<Verdict, Error>)
    requires DistinctFacts(facts)
    ensures r.Success? <==> 1 <= limit <= 3
    ensures r.Success? && r.value.WinnerChanged? ==>
      IsMinimal(winner, already, base, SearchIds(facts, already), limit, r.value.removed, r.value.alternatives)
    ensures r.Success? && r.value.NoSmallCounterfactualFound? ==>
      NoneUpTo(winner, already, base, SearchIds(facts, already), limit)
  {
    hide SearchIds;
    if !(1 <= limit <= 3) { return Failure(LimitOutOfRange); }
    var ids := SearchIds(facts, already);
    SearchIdsAscend(facts, already);
    var last := if limit <= |ids| then limit else |ids|;
    for size := 1 to last + 1
      invariant NoneUpTo(winner, already, base, ids, size - 1)
    {
      var winners := WinnersOfSize(winner, already, base, ids, size);
      if winners != [] {
        SortingAscendingTuples(winners);
        var sorted := SortedTuples(winners);
        assert [sorted[0]] + sorted[1..] == winners;
        assert sorted[0] in winners;
        return Success(WinnerChanged(sorted[0], sorted[1..]));
      }
      forall c | IsChoice(ids, c) && 1 <= |c| <= size ensures !Changes(winner, already, base, c) {
        assert c !in winners;
      }
    }
    forall c | IsChoice(ids, c) && 1 <= |c| <= limit ensures !Changes(winner, already, base, c) {
      ChoicesAreNoLonger(ids, c);
    }
    return Success(NoSmallCounterfactualFound);
  }

  lemma ChoicesAreNoLonger(ids: seq<string>, c: seq<string>)
    requires Ascends(ids) && IsChoice(ids, c)
    ensures |c| <= |ids|
    decreases |ids|
  {
    if c != [] {
      assert c[0] in ids;
      ChoiceSplits(ids, c, |c|);
      if c[0] == ids[0] && IsChoice(ids[1..], c[1..]) {
        ChoicesAreNoLonger(ids[1..], c[1..]);
      } else {
        ChoicesAreNoLonger(ids[1..], c);
      }
    }
  }

  // ---------- in terms of sets of facts ----------

  /** Every set of the identifiers is the set of one ascending choice of its size. */
  lemma EverySetIsAChoice(ids: seq<string>, s: set<string>)
    requires s <= Elements(ids)
    ensures IsChoice(ids, SortedSet(s)) && |SortedSet(s)| == |s| && Elements(SortedSet(s)) == s
  {
    SortedSetIsOrdered(s);
  }

  lemma {:induction false} ChoiceHasItsSize(c: seq<string>)
    requires Ascends(c)
    ensures |Elements(c)| == |c|
  {
    if c != [] {
      ChoiceHasItsSize(c[1..]);
      assert Elements(c) == {c[0]} + Elements(c[1..]);
      if c[0] in c[1..] {
        var i :| 0 < i < |c| && c[i] == c[0];
        OneOrder(c[0], c[i]);
        assert false;
      }
    }
  }

  /** Nothing within the limit is found exactly when no set of that many private facts changes the winner. */
  lemma NoneFoundExactly(
    winner: set<string> -> Option<string>, already: set<string>, base: Option<string>, ids: seq<string>, limit: nat)
    ensures NoneUpTo(winner, already, base, ids, limit) <==>
      forall s: set<string> :: s <= Elements(ids) && 1 <= |s| <= limit ==> winner(already + s) == base
  {
    if NoneUpTo(winner, already, base, ids, limit) {
      forall s: set<string> | s <= Elements(ids) && 1 <= |s| <= limit ensures winner(already + s) == base {
        EverySetIsAChoice(ids, s);
        assert !Changes(winner, already, base, SortedSet(s));
      }
    }
    if forall s: set<string> :: s <= Elements(ids) && 1 <= |s| <= limit ==> winner(already + s) == base {
      forall c | IsChoice(ids, c) && 1 <= |c| <= limit ensures !Changes(winner, already, base, c) {
        ChoiceHasItsSize(c);
      }
    }
  }

  /** No smaller set of private facts changes the winner, and no set of the same size that does comes first. */
  lemma MinimalAmongSets(
    winner: set<string> -> Option<string>, already: set<string>, base: Option<string>, ids: seq<string>, limit: nat,
    removed: seq<string>, alternatives: seq<seq<string>>, s: set<string>)
    requires IsMinimal(winner, already, base, ids, limit, removed, alternatives)
    requires s <= Elements(ids) && s != {} && winner(already + s) != base
    ensures |removed| <= |s|
    ensures |s| == |removed| ==>
      SortedSet(s) == removed || (SortedSet(s) in alternatives && TupleBefore(removed, SortedSet(s)))
  {
    hide Changes, IsChoice;
    EverySetIsAChoice(ids, s);
    var c := SortedSet(s);
    assert Changes(winner, already, base, c) by { ChangesAsSet(winner, already, base, c, s); }
    if |s| == |removed| {
      var all := [removed] + alternatives;
      assert c in all;
      var i :| 0 <= i < |all| && all[i] == c;
      assert i > 0 ==> c == alternatives[i - 1] && TupleBefore(all[0], all[i]);
    }
  }

  lemma ChangesAsSet(
    winner: set<string> -> Option<string>, already: set<string>, base: Option<string>, c: seq<string>, s: set<string>)
    requires Elements(c) == s
    ensures Changes(winner, already, base, c) <==> winner(already + s) != base
  {}
}
