/** Recall loses nothing, counts its merges, ignores the order of its candidates and is idempotent. */
module RecallTheorems {
  import opened Outcomes
  import opened Ordering
  import opened Recall

  // ---------- partition ----------

  lemma {:induction false} ExclusionsExactly(input: Input, rs: seq<Record>, e: Exclusion)
    ensures e in ExclusionsOf(input, rs) <==> exists r :: r in rs && VerdictOf(input, r) == Excluded(e.reason) && r.id == e.id
    decreases |rs|
  {
    hide VerdictOf;
    if rs != [] {
      var earlier, last := rs[..|rs| - 1], rs[|rs| - 1];
      assert rs == earlier + [last];
      ExclusionsExactly(input, earlier, e);
      if VerdictOf(input, last) == Excluded(e.reason) && last.id == e.id { assert last in rs; }
      if e in ExclusionsOf(input, earlier) {
        var r :| r in earlier && VerdictOf(input, r) == Excluded(e.reason) && r.id == e.id;
        assert r in rs;
      }
    }
  }

  ghost predicate ExclusionsInOrder(es: seq<Exclusion>) {
    forall i, j :: 0 <= i < j < |es| ==> Before(es[i].id, es[j].id)
  }

  /** Exclusions are listed in the order of their identifiers, so none is listed twice. */
  lemma {:induction false} ExclusionsAscend(input: Input, rs: seq<Record>)
    requires ById(rs)
    ensures ExclusionsInOrder(ExclusionsOf(input, rs))
    decreases |rs|
  {
    hide VerdictOf;
    if rs != [] {
      var earlier, last := rs[..|rs| - 1], rs[|rs| - 1];
      ExclusionsAscend(input, earlier);
      forall e | e in ExclusionsOf(input, earlier) ensures Before(e.id, last.id) {
        ExclusionsExactly(input, earlier, e);
        var r :| r in earlier && VerdictOf(input, r) == Excluded(e.reason) && r.id == e.id;
        var i :| 0 <= i < |earlier| && earlier[i] == r;
        assert rs[i] == r;
      }
    }
  }

  lemma ExclusionsAreDistinct(input: Input, r: RecallResult)
    requires WellFormed(input) && RecallOk(input, r)
    ensures forall i, j :: 0 <= i < j < |r.exclusions| ==> r.exclusions[i].id != r.exclusions[j].id
  {
    hide VerdictOf, GroupsOk, RepresentativesOk, MergesOk, NoneRaises;
    SortByIdSorts(input.candidates);
    ExclusionsAscend(input, SortById(input.candidates));
    hide WellFormed;
    forall i, j | 0 <= i < j < |r.exclusions| ensures r.exclusions[i].id != r.exclusions[j].id {
      OneOrder(r.exclusions[i].id, r.exclusions[j].id);
    }
  }

  lemma SameRecords(input: Input, x: Record)
    requires WellFormed(input)
    ensures x in SortById(input.candidates) <==> x in input.candidates
  {
    SortByIdSorts(input.candidates);
  }

  lemma SameIdSameRecord(input: Input, x: Record, y: Record)
    requires WellFormed(input) && x in input.candidates && y in input.candidates && x.id == y.id
    ensures x == y
  {
    var i :| 0 <= i < |input.candidates| && input.candidates[i] == x;
    var j :| 0 <= j < |input.candidates| && input.candidates[j] == y;
  }

  /** The record is excluded for this reason. */
  predicate IsExcluded(r: RecallResult, x: Record) {
    exists e :: e in r.exclusions && e.id == x.id
  }

  predicate IsGrouped(r: RecallResult, x: Record) {
    exists k :: k in r.groups && x in r.groups[k]
  }

  lemma ExclusionIsOfCandidate(input: Input, r: RecallResult, e: Exclusion) returns (y: Record)
    requires WellFormed(input) && RecallOk(input, r) && e in r.exclusions
    ensures y in input.candidates && y.id == e.id && VerdictOf(input, y) == Excluded(e.reason)
  {
    hide VerdictOf, GroupsOk, RepresentativesOk, MergesOk, NoneRaises, WellFormed;
    var sorted := SortById(input.candidates);
    ExclusionsExactly(input, sorted, e);
    y :| y in sorted && VerdictOf(input, y) == Excluded(e.reason) && y.id == e.id;
    SameRecords(input, y);
  }

  lemma CandidateIsPlaced(input: Input, r: RecallResult, x: Record)
    requires WellFormed(input) && RecallOk(input, r) && x in input.candidates
    ensures VerdictOf(input, x).Excluded? ==> IsExcluded(r, x)
    ensures VerdictOf(input, x).Included? ==> IsGrouped(r, x) && !IsExcluded(r, x)
    ensures !VerdictOf(input, x).Raises?
  {
    hide VerdictOf, RepresentativesOk, MergesOk, WellFormed;
    SameRecords(input, x);
    match VerdictOf(input, x)
    case Raises =>
    case Excluded(reason) =>
      ExclusionsExactly(input, SortById(input.candidates), Exclusion(x.id, reason));
      assert Exclusion(x.id, reason) in r.exclusions;
    case Included(k) =>
      assert x in r.groups[k];
      forall e | e in r.exclusions ensures e.id != x.id {
        var y := ExclusionIsOfCandidate(input, r, e);
        if y.id == x.id { SameIdSameRecord(input, x, y); }
      }
  }

  lemma GroupedIsIncluded(input: Input, r: RecallResult, x: Record)
    requires WellFormed(input) && RecallOk(input, r)
    ensures forall k :: k in r.groups && x in r.groups[k] ==> x in input.candidates && VerdictOf(input, x) == Included(k)
  {
    hide VerdictOf, RepresentativesOk, MergesOk, WellFormed, NoneRaises;
    SameRecords(input, x);
  }

  /** Lossless partition: every candidate is excluded or in a group, never both, never in two groups and never
      excluded twice; groups and exclusions hold nothing else. */
  lemma EveryCandidateHasOnePlace(input: Input, r: RecallResult, x: Record)
    requires WellFormed(input) && RecallOk(input, r)
    ensures x in input.candidates ==> (IsExcluded(r, x) <==> !IsGrouped(r, x))
    ensures IsGrouped(r, x) ==> x in input.candidates
    ensures forall k, l :: k in r.groups && l in r.groups && x in r.groups[k] && x in r.groups[l] ==> k == l
    ensures forall e :: e in r.exclusions ==> exists y :: y in input.candidates && y.id == e.id
    ensures forall i, j :: 0 <= i < j < |r.exclusions| ==> r.exclusions[i].id != r.exclusions[j].id
  {
    hide VerdictOf, RecallOk, WellFormed;
    ExclusionsAreDistinct(input, r);
    GroupedIsIncluded(input, r, x);
    if x in input.candidates { CandidateIsPlaced(input, r, x); }
    forall e | e in r.exclusions ensures exists y :: y in input.candidates && y.id == e.id {
      var y := ExclusionIsOfCandidate(input, r, e);
    }
  }

  // ---------- merges ----------

  function FirstIds(groups: map<Key, seq<Record>>, keys: set<Key>): (r: set<string>)
    requires forall k :: k in keys ==> k in groups && groups[k] != []
    ensures forall id :: id in r <==> exists k :: k in keys && groups[k][0].id == id
  {
    set k | k in keys :: groups[k][0].id
  }

  lemma {:induction false} OneFirstPerGroup(groups: map<Key, seq<Record>>, keys: set<Key>)
    requires forall k :: k in keys ==> k in groups && groups[k] != []
    requires forall k, l :: k in keys && l in keys && groups[k][0].id == groups[l][0].id ==> k == l
    ensures |FirstIds(groups, keys)| == |keys|
    decreases |keys|
  {
    if keys == {} {
      assert FirstIds(groups, keys) == {};
    } else {
      var k :| k in keys;
      OneFirstPerGroup(groups, keys - {k});
      assert FirstIds(groups, keys) == FirstIds(groups, keys - {k}) + {groups[k][0].id};
    }
  }

  function IncludedIds(input: Input): (r: set<string>)
    ensures forall id :: id in r <==> exists x :: x in input.candidates && VerdictOf(input, x).Included? && x.id == id
  {
    set x | x in input.candidates && VerdictOf(input, x).Included? :: x.id
  }

  lemma MemberOfOneGroup(input: Input, r: RecallResult, k: Key, l: Key, i: int, j: int)
    requires WellFormed(input) && RecallOk(input, r) && k in r.groups && l in r.groups
    requires 0 <= i < |r.groups[k]| && 0 <= j < |r.groups[l]| && r.groups[k][i].id == r.groups[l][j].id
    ensures k == l && i == j
  {
    hide VerdictOf, RepresentativesOk, MergesOk, WellFormed;
    var x, y := r.groups[k][i], r.groups[l][j];
    assert x in r.groups[k] && y in r.groups[l];
    SameRecords(input, x);
    SameRecords(input, y);
    SameIdSameRecord(input, x, y);
    SortedGroups(input, r, k);
    if i != j { OneOrder(x.id, y.id); }
  }

  lemma SortedGroups(input: Input, r: RecallResult, k: Key)
    requires WellFormed(input) && RecallOk(input, r) && k in r.groups
    ensures ById(r.groups[k])
  {
    SortByIdSorts(input.candidates);
    GroupKeepsOrder(input, SortById(input.candidates), k);
  }

  lemma NoEmptyGroup(input: Input, r: RecallResult)
    requires RecallOk(input, r)
    ensures forall k :: k in r.groups ==> r.groups[k] != []
  {
    hide GroupOf, VerdictOf, RepresentativesOk, MergesOk;
    forall k | k in r.groups ensures r.groups[k] != [] { GroupsResolve(input, r.groups, k); }
  }

  lemma MergePlace(input: Input, r: RecallResult, id: string) returns (k: Key, i: int)
    requires RecallOk(input, r) && id in r.merges
    ensures IsMerge(input, r.groups, k, i, id, r.merges[id])
  {
    hide GroupsOk, RepresentativesOk, IsMerge, NoneRaises;
    k, i :| k in r.groups.Keys && IsMerge(input, r.groups, k, i, id, r.merges[id]);
  }

  lemma MergedIdIsIn(input: Input, r: RecallResult, k: Key, i: int)
    requires RecallOk(input, r) && IsDuplicate(r.groups, k, i)
    ensures r.groups[k][i].id in r.merges
  {
    hide GroupsOk, RepresentativesOk, NoneRaises;
  }

  lemma MemberIsIncluded(input: Input, r: RecallResult, k: Key, x: Record)
    requires WellFormed(input) && RecallOk(input, r) && k in r.groups
    ensures x in r.groups[k] <==> x in input.candidates && VerdictOf(input, x) == Included(k)
  {
    hide VerdictOf, RepresentativesOk, MergesOk, WellFormed;
    SameRecords(input, x);
  }

  lemma IncludedHasGroup(input: Input, r: RecallResult, x: Record)
    requires RecallOk(input, r) && x in input.candidates && VerdictOf(input, x).Included?
    ensures VerdictOf(input, x).key in r.groups
  {
    hide VerdictOf, RepresentativesOk, MergesOk;
  }

  lemma PlaceOfId(input: Input, r: RecallResult, id: string)
    requires WellFormed(input) && RecallOk(input, r)
    requires forall k :: k in r.groups ==> r.groups[k] != []
    ensures id in IncludedIds(input) <==> id in FirstIds(r.groups, r.groups.Keys) || id in r.merges.Keys
  {
    hide VerdictOf, RecallOk, WellFormed;
    if id in IncludedIds(input) {
      var x :| x in input.candidates && VerdictOf(input, x).Included? && x.id == id;
      IncludedHasGroup(input, r, x);
      var k := VerdictOf(input, x).key;
      MemberIsIncluded(input, r, k, x);
      var i :| 0 <= i < |r.groups[k]| && r.groups[k][i] == x;
      if i > 0 { MergedIdIsIn(input, r, k, i); }
    }
    if id in FirstIds(r.groups, r.groups.Keys) {
      var k :| k in r.groups.Keys && r.groups[k][0].id == id;
      MemberIsIncluded(input, r, k, r.groups[k][0]);
    }
    if id in r.merges.Keys {
      var k, i := MergePlace(input, r, id);
      MemberIsIncluded(input, r, k, r.groups[k][i]);
    }
  }

  lemma FirstIsNotMerged(input: Input, r: RecallResult, k: Key)
    requires WellFormed(input) && RecallOk(input, r) && k in r.groups && r.groups[k] != []
    ensures r.groups[k][0].id !in r.merges
  {
    hide RecallOk, WellFormed, MergeOf;
    if r.groups[k][0].id in r.merges {
      var l, j := MergePlace(input, r, r.groups[k][0].id);
      MemberOfOneGroup(input, r, k, l, 0, j);
    }
  }

  lemma FirstsDiffer(input: Input, r: RecallResult)
    requires WellFormed(input) && RecallOk(input, r)
    requires forall k :: k in r.groups ==> r.groups[k] != []
    ensures |FirstIds(r.groups, r.groups.Keys)| == |r.groups.Keys|
  {
    hide RecallOk, WellFormed, FirstIds;
    forall k, l | k in r.groups && l in r.groups && r.groups[k][0].id == r.groups[l][0].id ensures k == l {
      MemberOfOneGroup(input, r, k, l, 0, 0);
    }
    OneFirstPerGroup(r.groups, r.groups.Keys);
  }

  lemma UnionCount(a: set<string>, b: set<string>, c: set<string>)
    requires a !! b && forall x :: x in c <==> x in a || x in b
    ensures |c| == |a| + |b|
  {
    assert c == a + b;
  }

  /** Every included record but the first of its group is merged: merges are included records minus groups. */
  lemma MergesCountDuplicates(input: Input, r: RecallResult)
    requires WellFormed(input) && RecallOk(input, r)
    ensures |r.merges| == |IncludedIds(input)| - |r.groups|
  {
    hide RecallOk, WellFormed, FirstIds, IncludedIds;
    NoEmptyGroup(input, r);
    FirstsDiffer(input, r);
    var firsts := FirstIds(r.groups, r.groups.Keys);
    forall id ensures id in IncludedIds(input) <==> id in firsts || id in r.merges.Keys {
      PlaceOfId(input, r, id);
    }
    forall id | id in firsts ensures id !in r.merges.Keys {
      var k :| k in r.groups.Keys && r.groups[k][0].id == id;
      FirstIsNotMerged(input, r, k);
    }
    UnionCount(firsts, r.merges.Keys, IncludedIds(input));
  }

  // ---------- facts ----------

  /** Every value of every field of a group survives exactly once, with the union of its evidence. */
  lemma FactsSurviveOnce(group: seq<Record>, component: string, field: string, value: string)
    ensures var merged := MergedFacts(AllFacts(group), component);
      && ((exists m, f :: m in group && f in m.facts && f.field == field && f.value == value)
          <==> exists x :: x in merged && x.field == field && x.value == value)
      && (forall x, y :: x in merged && y in merged && x.field == y.field && x.value == y.value ==> x == y)
      && (forall x, e :: x in merged && x.field == field && x.value == value ==>
           (e in x.evidence <==> exists m, f :: m in group && f in m.facts && f.field == field && f.value == value && e in f.evidence))
  {
    var facts := AllFacts(group);
    var merged := MergedFacts(facts, component);
    if m, f :| m in group && f in m.facts && f.field == field && f.value == value {
      assert f in facts;
      assert Fact(field, value, EvidenceFor(facts, field, value), Some(component)) in merged;
    }
    if x :| x in merged && x.field == field && x.value == value {
      var f :| f in facts && x == Fact(f.field, f.value, EvidenceFor(facts, f.field, f.value), Some(component));
      var m :| m in group && f in m.facts;
    }
    forall x, e | x in merged && x.field == field && x.value == value
      ensures e in x.evidence <==> exists m, f :: m in group && f in m.facts && f.field == field && f.value == value && e in f.evidence
    {
      if e in x.evidence {
        var f :| f in facts && f.field == field && f.value == value && e in f.evidence;
        var m :| m in group && f in m.facts;
      }
      if m, f :| m in group && f in m.facts && f.field == field && f.value == value && e in f.evidence {
        assert f in facts;
      }
    }
  }

  // ---------- order and repetition ----------

  ghost predicate SameButOrder(a: Input, b: Input) {
    b == a.(candidates := b.candidates) && multiset(a.candidates) == multiset(b.candidates)
  }

  lemma SameElements(a: seq<Record>, b: seq<Record>)
    requires multiset(a) == multiset(b)
    ensures forall x :: x in a <==> x in b
  {
    forall x ensures x in a <==> x in b { assert x in multiset(a) <==> x in multiset(b); }
  }

  lemma SameSorting(a: Input, b: Input)
    requires WellFormed(a) && WellFormed(b) && SameButOrder(a, b)
    ensures SortById(a.candidates) == SortById(b.candidates)
  {
    hide WellFormed;
    UniqueIds(a);
    UniqueIds(b);
    SameElements(a.candidates, b.candidates);
    SortByIdSorts(a.candidates);
    SortByIdSorts(b.candidates);
    ByIdIsUnique(SortById(a.candidates), SortById(b.candidates));
  }

  lemma SameGroups(a: Input, b: Input, ra: RecallResult, rb: RecallResult)
    requires WellFormed(a) && WellFormed(b) && SameButOrder(a, b) && RecallOk(a, ra) && RecallOk(b, rb)
    ensures ra.groups == rb.groups && ra.exclusions == rb.exclusions
  {
    hide WellFormed, VerdictOf, GroupOf, RepresentativesOk, MergesOk, Canonical;
    SameSorting(a, b);
    VerdictsAgree(a, b);
    ExclusionsAgree(a, b, SortById(a.candidates));
    forall k ensures k in ra.groups <==> k in rb.groups { SameKeys(a, b, ra, rb, k); }
    forall k | k in ra.groups ensures ra.groups[k] == rb.groups[k] { GroupsAgree(a, b, SortById(a.candidates), k); }
  }

  lemma SameKeys(a: Input, b: Input, ra: RecallResult, rb: RecallResult, k: Key)
    requires SameButOrder(a, b) && GroupsOk(a, ra.groups) && GroupsOk(b, rb.groups)
    requires forall x :: VerdictOf(a, x) == VerdictOf(b, x)
    ensures k in ra.groups <==> k in rb.groups
  {
    hide VerdictOf, GroupOf;
    SameElements(a.candidates, b.candidates);
  }

  lemma SameFailures(a: Input, b: Input)
    requires WellFormed(a) && WellFormed(b) && SameButOrder(a, b)
    ensures NoneRaises(a) <==> NoneRaises(b)
    ensures NoneMisnamed(a) <==> NoneMisnamed(b)
  {
    SameSorting(a, b);
    VerdictsAgree(a, b);
    SameElements(a.candidates, b.candidates);
    hide WellFormed, VerdictOf, Canonical, KeyAdmitted, IsIdentifier, GroupOf, SortById;
    forall k ensures Misnamed(a, k) <==> Misnamed(b, k) { GroupsAgree(a, b, SortById(a.candidates), k); }
  }

  /** The order of the candidates does not matter: recall succeeds or fails alike, and the whole result is the same. */
  lemma OrderDoesNotMatter(a: Input, b: Input)
    requires WellFormed(a) && WellFormed(b) && SameButOrder(a, b)
    ensures NoneRaises(a) <==> NoneRaises(b)
    ensures NoneMisnamed(a) <==> NoneMisnamed(b)
    ensures forall ra, rb :: RecallOk(a, ra) && RecallOk(b, rb) ==> ra == rb
  {
    SameFailures(a, b);
    hide WellFormed, RecallOk;
    forall ra, rb | RecallOk(a, ra) && RecallOk(b, rb) ensures ra == rb { SameResult(a, b, ra, rb); }
  }

  lemma SameResult(a: Input, b: Input, ra: RecallResult, rb: RecallResult)
    requires WellFormed(a) && WellFormed(b) && SameButOrder(a, b) && RecallOk(a, ra) && RecallOk(b, rb)
    ensures ra == rb
  {
    hide WellFormed, GroupsOk, MergesOk, NoneRaises, VerdictOf, Canonical;
    SameGroups(a, b, ra, rb);
    VerdictsAgree(a, b);
    forall x ensures x in ra.representatives <==> x in rb.representatives { RepresentativesAgree(a, b, ra, rb, x); }
    ByIdIsUnique(ra.representatives, rb.representatives);
    MergesAgree(a, b, ra, rb);
  }

  lemma UniqueIds(input: Input)
    requires WellFormed(input)
    ensures DistinctIds(input.candidates)
  {}

  lemma VerdictsAgree(a: Input, b: Input)
    requires b == a.(candidates := b.candidates)
    ensures forall x :: VerdictOf(a, x) == VerdictOf(b, x)
    ensures forall s :: Canonical(a, s) == Canonical(b, s)
  {
    forall x ensures VerdictOf(a, x) == VerdictOf(b, x) {
      assert KeyOf(a, x) == KeyOf(b, x);
      assert forall p :: RegionsResolve(a, p) == RegionsResolve(b, p);
      assert forall p, s :: RegionAllowed(a, p, s) == RegionAllowed(b, p, s);
    }
  }

  lemma {:induction false} GroupsAgree(a: Input, b: Input, rs: seq<Record>, k: Key)
    requires forall x :: VerdictOf(a, x) == VerdictOf(b, x)
    ensures GroupOf(a, rs, k) == GroupOf(b, rs, k)
    decreases |rs|
  {
    hide VerdictOf;
    if rs != [] { GroupsAgree(a, b, rs[..|rs| - 1], k); }
  }

  lemma {:induction false} ExclusionsAgree(a: Input, b: Input, rs: seq<Record>)
    requires forall x :: VerdictOf(a, x) == VerdictOf(b, x)
    ensures ExclusionsOf(a, rs) == ExclusionsOf(b, rs)
    decreases |rs|
  {
    hide VerdictOf;
    if rs != [] { ExclusionsAgree(a, b, rs[..|rs| - 1]); }
  }

  lemma RepresentativesAgree(a: Input, b: Input, ra: RecallResult, rb: RecallResult, x: Record)
    requires b == a.(candidates := b.candidates) && ra.groups == rb.groups
    requires RepresentativesOk(a, ra.groups, ra.representatives) && RepresentativesOk(b, rb.groups, rb.representatives)
    requires forall s :: Canonical(a, s) == Canonical(b, s)
    ensures x in ra.representatives <==> x in rb.representatives
  {
    hide ById, Canonical;
    forall k ensures IsRepresentative(a, ra.groups, x, k) <==> IsRepresentative(b, rb.groups, x, k) {}
  }

  lemma MergesAgree(a: Input, b: Input, ra: RecallResult, rb: RecallResult)
    requires WellFormed(a) && RecallOk(a, ra) && RecallOk(b, rb)
    requires b == a.(candidates := b.candidates) && ra.groups == rb.groups
    ensures ra.merges == rb.merges
  {
    hide WellFormed, RecallOk;
    forall id ensures id in ra.merges <==> id in rb.merges {
      if id in ra.merges {
        var k, i := MergePlace(a, ra, id);
        MergedIdIsIn(b, rb, k, i);
      }
      if id in rb.merges {
        var k, i := MergePlace(b, rb, id);
        MergedIdIsIn(a, ra, k, i);
      }
    }
    forall id | id in ra.merges ensures ra.merges[id] == rb.merges[id] {
      var k, i := MergePlace(a, ra, id);
      var l, j := MergePlace(b, rb, id);
      MemberOfOneGroup(a, ra, k, l, i, j);
    }
  }

  // ---------- recalling the representatives ----------

  /** The same input over its own representatives. */
  function Again(input: Input, r: RecallResult): Input {
    input.(candidates := r.representatives)
  }

  lemma AgainIsWellFormed(input: Input, r: RecallResult)
    requires WellFormed(input) && ById(r.representatives)
    ensures WellFormed(Again(input, r))
  {
    forall i, j | 0 <= i < j < |r.representatives| ensures r.representatives[i].id != r.representatives[j].id {
      OneOrder(r.representatives[i].id, r.representatives[j].id);
    }
  }

  /** Identity parts are canonical text. */
  lemma KeyPartsAreCanonical(input: Input, m: Record, k: Key)
    requires WellFormed(input) && KeyOf(input, m) == Some(k)
    ensures Canonical(input, k.seller) == Some(k.seller) && Canonical(input, k.product) == Some(k.product)
    ensures Canonical(input, k.edition) == Some(k.edition) && Canonical(input, k.region) == Some(k.region)
  {
    hide WellFormed, Canonical;
    CanonicalIsIdempotent(input, m.seller);
    CanonicalIsIdempotent(input, m.product);
    CanonicalIsIdempotent(input, m.edition);
    CanonicalIsIdempotent(input, m.region);
  }

  /** A representative has the identity of its group, passes the policy as every member did, and is published. */
  lemma RepresentativeKeepsIdentity(input: Input, group: seq<Record>, m: Record, k: Key)
    requires WellFormed(input) && m in group && VerdictOf(input, m) == Included(k)
    requires group != [] && forall x :: x in group ==> Canonical(input, x.offer).Some?
    ensures var x := Representative(input, k, group);
      VerdictOf(input, x) == Included(k) && Canonical(input, x.offer) == Some(x.offer)
  {
    hide WellFormed, Canonical, RegionsResolve;
    var x := Representative(input, k, group);
    KeyPartsAreCanonical(input, m, k);
    CanonicalIsIdempotent(input, Anchor(group).offer);
    assert KeyOf(input, x) == Some(k);
    assert m.categories <= x.categories && m.jtbds <= x.jtbds;
  }

  /** Merged facts have one fact for every field and value, all of the component. */
  predicate FactsAreMerged(facts: set<Fact>, component: string) {
    && (forall f :: f in facts ==> f.component == Some(component))
    && (forall f, g :: f in facts && g in facts && f.field == g.field && f.value == g.value ==> f == g)
  }

  lemma MergingMergedFacts(facts: set<Fact>, component: string)
    requires FactsAreMerged(facts, component)
    ensures MergedFacts(facts, component) == facts
  {
    forall f | f in facts ensures Fact(f.field, f.value, EvidenceFor(facts, f.field, f.value), Some(component)) == f {
      assert EvidenceFor(facts, f.field, f.value) == f.evidence;
    }
  }

  lemma AloneInGroup(x: Record)
    ensures AllFacts([x]) == x.facts && AuthorityFloor([x]) == x.authority && Anchor([x]) == x
    ensures forall part: Record -> set<string> :: Union([x], part) == part(x)
    ensures (forall m :: m in [x] ==> m.available) <==> x.available
  {
    assert x in [x];
    assert [x][..0] == [];
    forall part: Record -> set<string> ensures Union([x], part) == part(x) {}
  }

  /** A representative alone in its group represents itself. */
  lemma RepresentsItself(input: Input, group: seq<Record>, k: Key)
    requires group != [] && forall m :: m in group ==> Canonical(input, m.offer).Some?
    requires var x := Representative(input, k, group); Canonical(input, x.offer) == Some(x.offer)
    ensures var x := Representative(input, k, group); Representative(input, k, [x]) == x
  {
    hide Canonical, AllFacts, Union, Anchor, AuthorityFloor;
    var x := Representative(input, k, group);
    AloneInGroup(x);
    var facts := AllFacts(group);
    assert FactsAreMerged(x.facts, k.product);
    MergingMergedFacts(x.facts, k.product);
  }

  lemma RepresentativeOfGroup(input: Input, r: RecallResult, x: Record, k: Key)
    requires WellFormed(input) && RecallOk(input, r) && IsRepresentative(input, r.groups, x, k)
    ensures VerdictOf(Again(input, r), x) == Included(k) && x.id == input.name(k)
    ensures Canonical(input, x.offer) == Some(x.offer) && Canonical(Again(input, r), x.offer) == Some(x.offer)
    ensures Representative(Again(input, r), k, [x]) == x
  {
    hide WellFormed, VerdictOf, RepresentativesOk, MergesOk;
    var m := r.groups[k][0];
    assert m in r.groups[k];
    MemberIsIncluded(input, r, k, m);
    RepresentativeKeepsIdentity(input, r.groups[k], m, k);
    RepresentsItself(input, r.groups[k], k);
    VerdictsAgree(input, Again(input, r));
  }

  lemma RepresentativeHasKey(input: Input, r: RecallResult, x: Record) returns (k: Key)
    requires RecallOk(input, r) && x in r.representatives
    ensures k in r.groups && IsRepresentative(input, r.groups, x, k)
  {
    hide GroupsOk, MergesOk, NoneRaises;
    k :| IsRepresentative(input, r.groups, x, k);
  }

  lemma KeyHasRepresentative(input: Input, r: RecallResult, k: Key) returns (x: Record)
    requires RecallOk(input, r) && k in r.groups
    ensures x in r.representatives && IsRepresentative(input, r.groups, x, k)
  {
    hide VerdictOf, MergesOk, NoneRaises, Representative;
    GroupsResolve(input, r.groups, k);
    x := Representative(input, k, r.groups[k]);
    assert IsRepresentative(input, r.groups, x, k);
  }

  lemma OnlyOne(group: seq<Record>, x: Record)
    requires ById(group) && x in group && forall y :: y in group ==> y == x
    ensures group == [x]
  {
    if |group| > 1 {
      assert group[0] in group && group[1] in group;
      OneOrder(group[0].id, group[1].id);
    }
  }

  /** A record grouped when recalling again is the representative of that very group. */
  lemma RegroupedRepresentative(input: Input, r: RecallResult, again: RecallResult, k: Key, y: Record)
    requires WellFormed(input) && RecallOk(input, r) && RecallOk(Again(input, r), again)
    requires WellFormed(Again(input, r)) && k in again.groups && y in again.groups[k]
    ensures k in r.groups && y in r.representatives && IsRepresentative(input, r.groups, y, k)
  {
    hide WellFormed, RecallOk, VerdictOf, IsRepresentative, Representative, Canonical;
    MemberIsIncluded(Again(input, r), again, k, y);
    var l := RepresentativeHasKey(input, r, y);
    RepresentativeOfGroup(input, r, y, l);
  }

  lemma RegroupedAlone(input: Input, r: RecallResult, again: RecallResult, k: Key, x: Record)
    requires WellFormed(input) && RecallOk(input, r) && RecallOk(Again(input, r), again)
    requires WellFormed(Again(input, r)) && x in r.representatives && IsRepresentative(input, r.groups, x, k)
    ensures k in again.groups && again.groups[k] == [x] && IsRepresentative(Again(input, r), again.groups, x, k)
  {
    hide WellFormed, RecallOk, VerdictOf, IsRepresentative, Representative, Canonical, ById;
    var b := Again(input, r);
    RepresentativeOfGroup(input, r, x, k);
    IncludedHasGroup(b, again, x);
    MemberIsIncluded(b, again, k, x);
    SortedGroups(b, again, k);
    forall y | y in again.groups[k] ensures y == x {
      RegroupedRepresentative(input, r, again, k, y);
      OneRepresentative(input, r.groups, k, x, y);
    }
    OnlyOne(again.groups[k], x);
    RepresentsAlone(b, again.groups, k, x);
  }

  lemma RepresentsAlone(input: Input, groups: map<Key, seq<Record>>, k: Key, x: Record)
    requires k in groups && groups[k] == [x] && Canonical(input, x.offer) == Some(x.offer)
    requires Representative(input, k, [x]) == x
    ensures IsRepresentative(input, groups, x, k)
  {}

  /** Recalling the representatives does not raise. */
  lemma AgainRaisesNothing(input: Input, r: RecallResult)
    requires WellFormed(input) && RecallOk(input, r)
    ensures NoneRaises(Again(input, r))
  {
    hide WellFormed, RecallOk, VerdictOf, IsRepresentative, Representative, Canonical;
    forall x | x in Again(input, r).candidates ensures VerdictOf(Again(input, r), x) != Raises {
      var k := RepresentativeHasKey(input, r, x);
      RepresentativeOfGroup(input, r, x, k);
    }
  }

  /** A representative of the first recall, grouped by its own identity, is admissible as it was. */
  lemma AgainIsAdmitted(input: Input, r: RecallResult, k: Key)
    requires WellFormed(input) && RecallOk(input, r)
    ensures !Misnamed(Again(input, r), k)
  {
    var b := Again(input, r);
    var group := GroupOf(b, SortById(b.candidates), k);
    AgainIsWellFormed(input, r);
    if group != [] {
      var x := Anchor(group);
      SameRecords(b, x);
      hide WellFormed, VerdictOf, IsRepresentative, Representative, Canonical, GroupsOk, RepresentativesOk, MergesOk, IsIdentifier, SortById, GroupOf, Anchor;
      var l := RepresentativeHasKey(input, r, x);
      RepresentativeOfGroup(input, r, x, l);
      PartsOfRepresentative(input, r.groups, x, l);
      assert Admitted(x);
    }
  }

  lemma PartsOfRepresentative(input: Input, groups: map<Key, seq<Record>>, x: Record, k: Key)
    requires IsRepresentative(input, groups, x, k)
    ensures Key(x.seller, x.product, x.edition, x.region) == k
  {
    hide AllFacts, Union, AuthorityFloor, MergedFacts, Canonical;
  }

  /** Recall is idempotent: recalling the representatives succeeds and gives the same representatives, merging and
      excluding nothing. */
  lemma RecallIsIdempotent(input: Input, r: RecallResult)
    requires WellFormed(input) && RecallOk(input, r)
    ensures WellFormed(Again(input, r)) && NoneRaises(Again(input, r)) && NoneMisnamed(Again(input, r))
    ensures forall again :: RecallOk(Again(input, r), again) ==>
      again.representatives == r.representatives && again.merges == map[] && again.exclusions == []
  {
    AgainIsWellFormed(input, r);
    AgainRaisesNothing(input, r);
    hide WellFormed, RecallOk, NoneRaises, Again, Misnamed;
    forall k ensures !Misnamed(Again(input, r), k) { AgainIsAdmitted(input, r, k); }
    forall again | RecallOk(Again(input, r), again)
      ensures again.representatives == r.representatives && again.merges == map[] && again.exclusions == []
    {
      AgainIsTheSame(input, r, again);
    }
  }

  lemma AgainIsTheSame(input: Input, r: RecallResult, again: RecallResult)
    requires WellFormed(input) && RecallOk(input, r) && RecallOk(Again(input, r), again)
    ensures again.representatives == r.representatives && again.merges == map[] && again.exclusions == []
  {
    hide WellFormed, RecallOk, VerdictOf, IsRepresentative, Again, ById;
    var b := Again(input, r);
    RepresentativesAreSorted(input, r);
    RepresentativesAreSorted(b, again);
    AgainIsWellFormed(input, r);
    forall x ensures x in again.representatives <==> x in r.representatives {
      SameRepresentative(input, r, again, x);
    }
    ByIdIsUnique(again.representatives, r.representatives);
    forall id ensures id !in again.merges { NothingMerged(input, r, again, id); }
    NothingExcluded(input, r, again);
  }

  lemma SameRepresentative(input: Input, r: RecallResult, again: RecallResult, x: Record)
    requires WellFormed(input) && RecallOk(input, r) && RecallOk(Again(input, r), again) && WellFormed(Again(input, r))
    ensures x in again.representatives <==> x in r.representatives
  {
    hide WellFormed, RecallOk, VerdictOf, IsRepresentative, Again;
    var b := Again(input, r);
    if x in again.representatives {
      var k := RepresentativeHasKey(b, again, x);
      var y := HeadOfGroup(input, r, again, k);
      OneRepresentative(b, again.groups, k, x, y);
    }
    if x in r.representatives {
      var k := RepresentativeHasKey(input, r, x);
      RegroupedAlone(input, r, again, k, x);
      var y := KeyHasRepresentative(b, again, k);
      OneRepresentative(b, again.groups, k, x, y);
    }
  }

  lemma HeadOfGroup(input: Input, r: RecallResult, again: RecallResult, k: Key) returns (y: Record)
    requires WellFormed(input) && RecallOk(input, r) && RecallOk(Again(input, r), again) && WellFormed(Again(input, r))
    requires k in again.groups
    ensures y in r.representatives && again.groups[k] == [y] && IsRepresentative(Again(input, r), again.groups, y, k)
  {
    hide WellFormed, RecallOk, VerdictOf, IsRepresentative, Again;
    NoEmptyGroup(Again(input, r), again);
    y := again.groups[k][0];
    RegroupedRepresentative(input, r, again, k, y);
    RegroupedAlone(input, r, again, k, y);
  }

  lemma NothingMerged(input: Input, r: RecallResult, again: RecallResult, id: string)
    requires WellFormed(input) && RecallOk(input, r) && RecallOk(Again(input, r), again) && WellFormed(Again(input, r))
    ensures id !in again.merges
  {
    hide WellFormed, RecallOk, VerdictOf, IsRepresentative, Again;
    if id in again.merges {
      var k, i := MergePlace(Again(input, r), again, id);
      var y := HeadOfGroup(input, r, again, k);
    }
  }

  lemma RepresentativesAreSorted(input: Input, r: RecallResult)
    requires RecallOk(input, r)
    ensures ById(r.representatives)
  {}

  lemma NothingExcluded(input: Input, r: RecallResult, again: RecallResult)
    requires WellFormed(input) && RecallOk(input, r) && RecallOk(Again(input, r), again) && WellFormed(Again(input, r))
    ensures again.exclusions == []
  {
    hide WellFormed, VerdictOf, IsRepresentative, GroupsOk, RepresentativesOk, MergesOk;
    var b := Again(input, r);
    if again.exclusions != [] {
      var e := again.exclusions[0];
      ExclusionsExactly(b, SortById(b.candidates), e);
      var x :| x in SortById(b.candidates) && VerdictOf(b, x) == Excluded(e.reason) && x.id == e.id;
      SameRecords(b, x);
      var k := RepresentativeHasKey(input, r, x);
      RepresentativeOfGroup(input, r, x, k);
    }
  }
}
