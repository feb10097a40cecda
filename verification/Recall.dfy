/** Recall: candidates are excluded with a reason or grouped by canonical identity, and every group is merged into
    one representative. Text is normalized by any function; canonical identifiers are named injectively. */
module Recall {
  import opened Outcomes
  import opened Ordering

  datatype PackStatus = Published | PackRevoked | PackSuperseded

  datatype Fact = Fact(field: string, value: string, evidence: set<string>, component: Option<string>)

  datatype Record = Record(
    id: string, pack: string, packVersion: nat, seller: string, product: string, edition: string, region: string,
    offer: string, authority: nat, available: bool, facts: set<Fact>, sellerGates: set<string>, aliases: set<string>,
    categories: set<string>, jtbds: set<string>, status: PackStatus, required: set<string>)

  datatype Key = Key(seller: string, product: string, edition: string, region: string)

  datatype Policy = Policy(category: string, jtbd: string, regions: set<string>)

  datatype Input = Input(
    candidates: seq<Record>, aliases: map<string, string>, policy: Option<Policy>,
    normalize: string -> string, name: Key -> string)

  datatype Reason = Revoked | Superseded | CategoryMismatch | JtbdMismatch | RegionUnsupported

  datatype Exclusion = Exclusion(id: string, reason: Reason)

  datatype Merge = Merge(canonical: string, offerAlias: bool, editionAlias: bool)

  datatype RecallResult = RecallResult(
    groups: map<Key, seq<Record>>, representatives: seq<Record>, merges: map<string, Merge>, exclusions: seq<Exclusion>)

  datatype Error = AliasCycle | InvalidIdentity

  /** The normalizer is idempotent, aliases hold normalized text, and names tell identities apart. */
  ghost predicate WellFormed(input: Input) {
    && (forall s :: input.normalize(input.normalize(s)) == input.normalize(s))
    && (forall a :: a in input.aliases ==> input.normalize(input.aliases[a]) == input.aliases[a])
    && (forall k, l :: input.name(k) == input.name(l) ==> k == l)
    && (forall i, j :: 0 <= i < j < |input.candidates| ==> input.candidates[i].id != input.candidates[j].id)
  }

  // ---------- canonical text ----------

  /** Follows aliases; a chain that returns to itself raises. */
  function Follow(aliases: map<string, string>, current: string, visited: set<string>): Option<string>
    requires visited <= aliases.Keys
    decreases aliases.Keys - visited
  {
    if current !in aliases then Some(current)
    else if current in visited then None
    else Follow(aliases, aliases[current], visited + {current})
  }

  function Canonical(input: Input, value: string): Option<string> {
    Follow(input.aliases, input.normalize(value), {})
  }

  method CanonicalText(input: Input, value: string) returns (r: Option<string>)
    ensures r == Canonical(input, value)
  {
    var current := input.normalize(value);
    var visited: set<string> := {};
    while current in input.aliases
      invariant visited <= input.aliases.Keys
      invariant Canonical(input, value) == Follow(input.aliases, current, visited)
      decreases input.aliases.Keys - visited
    {
      if current in visited { return None; }
      visited := visited + {current};
      current := input.aliases[current];
    }
    return Some(current);
  }

  lemma {:induction false} FollowedIsFixed(input: Input, current: string, visited: set<string>)
    requires visited <= input.aliases.Keys && input.normalize(current) == current
    requires forall a :: a in input.aliases ==> input.normalize(input.aliases[a]) == input.aliases[a]
    requires Follow(input.aliases, current, visited).Some?
    ensures var end := Follow(input.aliases, current, visited).value;
      end !in input.aliases && input.normalize(end) == end
    decreases input.aliases.Keys - visited
  {
    if current in input.aliases {
      FollowedIsFixed(input, input.aliases[current], visited + {current});
    }
  }

  /** Canonical text is its own canonical text. */
  lemma CanonicalIsIdempotent(input: Input, value: string)
    requires WellFormed(input) && Canonical(input, value).Some?
    ensures Canonical(input, Canonical(input, value).value) == Canonical(input, value)
  {
    FollowedIsFixed(input, input.normalize(value), {});
  }

  // ---------- exclusion and identity ----------

  datatype Verdict = Raises | Excluded(reason: Reason) | Included(key: Key)

  function KeyOf(input: Input, r: Record): Option<Key> {
    var seller, product := Canonical(input, r.seller), Canonical(input, r.product);
    var edition, region := Canonical(input, r.edition), Canonical(input, r.region);
    if seller.None? || product.None? || edition.None? || region.None? then None
    else Some(Key(seller.value, product.value, edition.value, region.value))
  }

  predicate RegionsResolve(input: Input, p: Policy) {
    forall x :: x in p.regions ==> Canonical(input, x).Some?
  }

  predicate RegionAllowed(input: Input, p: Policy, region: string) {
    exists x :: x in p.regions && Canonical(input, x) == Some(region)
  }

  function Identify(input: Input, r: Record): Verdict {
    if KeyOf(input, r).None? || Canonical(input, r.offer).None? then Raises else Included(KeyOf(input, r).value)
  }

  function VerdictOf(input: Input, r: Record): Verdict {
    if r.status == PackRevoked then Excluded(Revoked)
    else if r.status == PackSuperseded then Excluded(Superseded)
    else if input.policy.None? then Identify(input, r)
    else
      var p := input.policy.value;
      if p.category !in r.categories then Excluded(CategoryMismatch)
      else if p.jtbd !in r.jtbds then Excluded(JtbdMismatch)
      else if Canonical(input, r.region).None? || !RegionsResolve(input, p) then Raises
      else if !RegionAllowed(input, p, Canonical(input, r.region).value) then Excluded(RegionUnsupported)
      else Identify(input, r)
  }

  // ---------- order by identifier ----------

  predicate ById(rs: seq<Record>) {
    forall i, j :: 0 <= i < j < |rs| ==> Before(rs[i].id, rs[j].id)
  }

  function InsertById(r: Record, rs: seq<Record>): (s: seq<Record>)
    ensures multiset(s) == multiset(rs) + multiset{r}
  {
    if rs == [] then [r]
    else
      assert rs == [rs[0]] + rs[1..];
      if AtMost(r.id, rs[0].id) then [r] + rs else [rs[0]] + InsertById(r, rs[1..])
  }

  function SortById(rs: seq<Record>): (s: seq<Record>)
    ensures multiset(s) == multiset(rs)
  {
    if rs == [] then [] else
      assert rs == [rs[0]] + rs[1..];
      InsertById(rs[0], SortById(rs[1..]))
  }

  predicate DistinctIds(rs: seq<Record>) {
    forall i, j :: 0 <= i < j < |rs| ==> rs[i].id != rs[j].id
  }

  lemma InsertedMembers(r: Record, rs: seq<Record>)
    ensures forall x :: x in InsertById(r, rs) <==> x == r || x in rs
  {
    hide InsertById;
    var s := InsertById(r, rs);
    forall x ensures x in s <==> x == r || x in rs { assert x in s <==> x in multiset(s); }
  }

  lemma FirstKeepsById(r: Record, rs: seq<Record>)
    requires ById(rs) && rs != [] && Before(r.id, rs[0].id)
    ensures ById([r] + rs)
  {
    hide Before;
    forall j | 0 <= j < |rs| ensures Before(r.id, rs[j].id) {
      if j > 0 { BeforeTransitive(r.id, rs[0].id, rs[j].id); }
    }
  }

  lemma {:induction false} InsertKeepsById(r: Record, rs: seq<Record>)
    requires ById(rs) && forall x :: x in rs ==> x.id != r.id
    ensures ById(InsertById(r, rs))
    ensures forall x :: x in InsertById(r, rs) <==> x == r || x in rs
  {
    hide Before;
    InsertedMembers(r, rs);
    if rs != [] {
      OneOrder(r.id, rs[0].id);
      if AtMost(r.id, rs[0].id) {
        FirstKeepsById(r, rs);
      } else {
        var rest := InsertById(r, rs[1..]);
        InsertKeepsById(r, rs[1..]);
        forall j | 0 <= j < |rest| ensures Before(rs[0].id, rest[j].id) {
          assert rest[j] in rest;
        }
      }
    }
  }

  lemma {:induction false} SortByIdSorts(rs: seq<Record>)
    requires DistinctIds(rs)
    ensures ById(SortById(rs))
    ensures forall x :: x in SortById(rs) <==> x in rs
  {
    if rs != [] {
      SortByIdSorts(rs[1..]);
      forall x | x in SortById(rs[1..]) ensures x.id != rs[0].id {
        var i :| 0 <= i < |rs[1..]| && rs[1..][i] == x;
        assert rs[i + 1] == x;
      }
      InsertKeepsById(rs[0], SortById(rs[1..]));
    }
  }

  /** A list in the order of its identifiers is determined by its elements. */
  lemma {:induction false} ByIdIsUnique(a: seq<Record>, b: seq<Record>)
    requires ById(a) && ById(b) && forall x :: x in a <==> x in b
    ensures a == b
  {
    assert b != [] ==> b[0] in a;
    if a != [] {
      assert a[0] in b;
      assert b[0] in a;
      OneOrder(a[0].id, b[0].id);
      var i :| 0 <= i < |b| && b[i] == a[0];
      var j :| 0 <= j < |a| && a[j] == b[0];
      assert a[0] == b[0];
      forall x ensures x in a[1..] <==> x in b[1..] {
        OneOrder(x.id, x.id);
        assert x in a[1..] ==> x in a && x != a[0] by {
          if x in a[1..] { var k :| 0 < k < |a| && a[k] == x; }
        }
        assert x in b[1..] ==> x in b && x != b[0] by {
          if x in b[1..] { var k :| 0 < k < |b| && b[k] == x; }
        }
      }
      ByIdIsUnique(a[1..], b[1..]);
    }
  }

  // ---------- groups and their representatives ----------

  /** The records of one identity, in the given order. */
  function GroupOf(input: Input, rs: seq<Record>, key: Key): (g: seq<Record>)
    ensures forall x :: x in g <==> x in rs && VerdictOf(input, x) == Included(key)
    decreases |rs|
  {
    if rs == [] then []
    else
      var last := rs[|rs| - 1];
      assert rs == rs[..|rs| - 1] + [last];
      GroupOf(input, rs[..|rs| - 1], key) + if VerdictOf(input, last) == Included(key) then [last] else []
  }

  lemma {:induction false} GroupKeepsOrder(input: Input, rs: seq<Record>, key: Key)
    requires ById(rs)
    ensures ById(GroupOf(input, rs, key))
    decreases |rs|
  {
    if rs != [] {
      var earlier := rs[..|rs| - 1];
      GroupKeepsOrder(input, earlier, key);
      forall x | x in GroupOf(input, earlier, key) ensures Before(x.id, rs[|rs| - 1].id) {
        var i :| 0 <= i < |earlier| && earlier[i] == x;
      }
    }
  }

  /** The highest pack version, and among these the smallest identifier. */
  function Anchor(group: seq<Record>): (r: Record)
    requires group != []
    ensures r in group
  {
    if |group| == 1 then group[0]
    else
      var earlier, last := Anchor(group[..|group| - 1]), group[|group| - 1];
      if last.packVersion > earlier.packVersion then last else earlier
  }

  function Union(group: seq<Record>, part: Record -> set<string>): (r: set<string>)
    ensures forall x :: x in r <==> exists m :: m in group && x in part(m)
  {
    set m, x | m in group && x in part(m) :: x
  }

  /** The least trusted authority, with the highest rank. */
  function AuthorityFloor(group: seq<Record>): nat {
    if group == [] then 0
    else
      var floor, last := AuthorityFloor(group[..|group| - 1]), group[|group| - 1];
      if last.authority >= floor then last.authority else floor
  }

  lemma {:induction false} AuthorityFloorIsHighest(group: seq<Record>)
    ensures forall m :: m in group ==> m.authority <= AuthorityFloor(group)
    ensures group != [] ==> exists m :: m in group && m.authority == AuthorityFloor(group)
  {
    if group != [] {
      var earlier, last := group[..|group| - 1], group[|group| - 1];
      AuthorityFloorIsHighest(earlier);
      assert group == earlier + [last];
      assert last in group;
      if last.authority < AuthorityFloor(earlier) {
        var m :| m in earlier && m.authority == AuthorityFloor(earlier);
        assert m in group;
      }
    }
  }

  function AllFacts(group: seq<Record>): (r: set<Fact>)
    ensures forall f :: f in r <==> exists m :: m in group && f in m.facts
  {
    set m, f | m in group && f in m.facts :: f
  }

  /** All evidence there is for one value of one field. */
  function EvidenceFor(facts: set<Fact>, field: string, value: string): (r: set<string>)
    ensures forall e :: e in r <==> exists f :: f in facts && f.field == field && f.value == value && e in f.evidence
  {
    set f, e | f in facts && f.field == field && f.value == value && e in f.evidence :: e
  }

  /** Every value of every field once, with the union of its evidence; different values stay apart. */
  function MergedFacts(facts: set<Fact>, component: string): (r: set<Fact>)
    ensures forall x :: x in r <==>
      exists f :: f in facts && x == Fact(f.field, f.value, EvidenceFor(facts, f.field, f.value), Some(component))
  {
    set f | f in facts :: Fact(f.field, f.value, EvidenceFor(facts, f.field, f.value), Some(component))
  }

  function Representative(input: Input, key: Key, group: seq<Record>): Record
    requires group != [] && forall m :: m in group ==> Canonical(input, m.offer).Some?
  {
    var anchor := Anchor(group);
    Record(
      input.name(key), anchor.pack, anchor.packVersion, key.seller, key.product, key.edition, key.region,
      Canonical(input, anchor.offer).value, AuthorityFloor(group), forall m :: m in group ==> m.available,
      MergedFacts(AllFacts(group), key.product),
      Union(group, (m: Record) => m.sellerGates), Union(group, (m: Record) => m.aliases),
      Union(group, (m: Record) => m.categories), Union(group, (m: Record) => m.jtbds), Published,
      Union(group, (m: Record) => m.required))
  }

  // ---------- the result ----------

  predicate NoneRaises(input: Input) {
    forall r :: r in input.candidates ==> VerdictOf(input, r) != Raises
  }

  ghost predicate GroupsOk(input: Input, groups: map<Key, seq<Record>>) {
    && (forall k :: k in groups <==> exists r :: r in input.candidates && VerdictOf(input, r) == Included(k))
    && (forall k :: k in groups ==> groups[k] == GroupOf(input, SortById(input.candidates), k))
  }

  lemma IncludedResolves(input: Input, r: Record)
    ensures VerdictOf(input, r).Included? ==> Canonical(input, r.offer).Some? && KeyOf(input, r) == Some(VerdictOf(input, r).key)
  {}

  lemma GroupsResolve(input: Input, groups: map<Key, seq<Record>>, k: Key)
    requires GroupsOk(input, groups) && k in groups
    ensures groups[k] != [] && forall m :: m in groups[k] ==> Canonical(input, m.offer).Some?
  {
    hide VerdictOf;
    var sorted := SortById(input.candidates);
    var r :| r in input.candidates && VerdictOf(input, r) == Included(k);
    assert r in multiset(input.candidates) && r in multiset(sorted);
    assert r in groups[k];
    forall m | m in groups[k] ensures Canonical(input, m.offer).Some? { IncludedResolves(input, m); }
  }

  ghost predicate IsRepresentative(input: Input, groups: map<Key, seq<Record>>, x: Record, k: Key) {
    && k in groups && groups[k] != [] && (forall m :: m in groups[k] ==> Canonical(input, m.offer).Some?)
    && x == Representative(input, k, groups[k])
  }

  ghost predicate RepresentativesOk(input: Input, groups: map<Key, seq<Record>>, representatives: seq<Record>) {
    ById(representatives) && forall x :: x in representatives <==> exists k :: IsRepresentative(input, groups, x, k)
  }

  /** The record is a later member of its group. */
  predicate IsDuplicate(groups: map<Key, seq<Record>>, k: Key, i: int) {
    k in groups && 1 <= i < |groups[k]|
  }

  function MergeOf(input: Input, k: Key, group: seq<Record>, i: nat): Merge
    requires 1 <= i < |group|
  {
    Merge(input.name(k), group[i].offer != group[0].offer, group[i].edition != group[0].edition)
  }

  ghost predicate IsMerge(input: Input, groups: map<Key, seq<Record>>, k: Key, i: int, id: string, merge: Merge) {
    IsDuplicate(groups, k, i) && groups[k][i].id == id && merge == MergeOf(input, k, groups[k], i)
  }

  /** The merges of some of the groups: one for every later member. */
  ghost predicate MergesOf(input: Input, groups: map<Key, seq<Record>>, done: set<Key>, merges: map<string, Merge>) {
    && (forall id :: id in merges ==> exists k, i :: k in done && IsMerge(input, groups, k, i, id, merges[id]))
    && (forall k, i :: k in done && IsDuplicate(groups, k, i) ==> groups[k][i].id in merges)
  }

  ghost predicate MergesOk(input: Input, groups: map<Key, seq<Record>>, merges: map<string, Merge>) {
    MergesOf(input, groups, groups.Keys, merges)
  }

  /** The exclusions in the order of the records. */
  function ExclusionsOf(input: Input, rs: seq<Record>): seq<Exclusion>
    decreases |rs|
  {
    if rs == [] then []
    else
      var last := rs[|rs| - 1];
      ExclusionsOf(input, rs[..|rs| - 1])
      + if VerdictOf(input, last).Excluded? then [Exclusion(last.id, VerdictOf(input, last).reason)] else []
  }

  // ---------- what the constructor of a record admits ----------

  predicate IsAlphanumeric(c: char) {
    'A' <= c <= 'Z' || 'a' <= c <= 'z' || '0' <= c <= '9'
  }

  /** A stable identifier: 1 to 128 characters, the first a letter or a digit, the others also `_`, `.`, `:` or `-`. */
  predicate IsIdentifier(s: string) {
    && 1 <= |s| <= 128 && IsAlphanumeric(s[0])
    && forall i :: 0 <= i < |s| ==> IsAlphanumeric(s[i]) || s[i] in "_.:-"
  }

  predicate KeyAdmitted(k: Key) {
    IsIdentifier(k.seller) && IsIdentifier(k.product) && k.edition != "" && k.region != ""
  }

  /** The parts of a record that normalization and aliases may have changed. */
  predicate Admitted(x: Record) {
    KeyAdmitted(Key(x.seller, x.product, x.edition, x.region)) && IsIdentifier(x.offer)
  }

  /** There is such a group, and its identity or the offer of its anchor is no admissible one. */
  predicate Misnamed(input: Input, k: Key) {
    var group := GroupOf(input, SortById(input.candidates), k);
    group != []
    && (!KeyAdmitted(k)
        || (Canonical(input, Anchor(group).offer).Some? && !IsIdentifier(Canonical(input, Anchor(group).offer).value)))
  }

  ghost predicate NoneMisnamed(input: Input) {
    forall k :: !Misnamed(input, k)
  }

  ghost predicate AllAdmitted(representatives: seq<Record>) {
    forall x :: x in representatives ==> Admitted(x)
  }

  lemma AdmittedExactly(input: Input, groups: map<Key, seq<Record>>, x: Record, k: Key)
    requires IsRepresentative(input, groups, x, k) && groups[k] == GroupOf(input, SortById(input.candidates), k)
    ensures Admitted(x) <==> !Misnamed(input, k)
  {
    hide KeyAdmitted, IsIdentifier, Canonical, GroupOf, SortById, AllFacts, Union, AuthorityFloor, MergedFacts;
  }

  ghost predicate RecallOk(input: Input, r: RecallResult) {
    && NoneRaises(input)
    && AllAdmitted(r.representatives)
    && GroupsOk(input, r.groups)
    && RepresentativesOk(input, r.groups, r.representatives)
    && MergesOk(input, r.groups, r.merges)
    && r.exclusions == ExclusionsOf(input, SortById(input.candidates))
  }

  // ---------- the loops ----------

  datatype Pair = Pair(field: string, value: string)

  /** The dictionary holds exactly the evidence of the facts so far. */
  ghost predicate Gathered(facts: set<Fact>, unique: map<Pair, set<string>>) {
    && (forall f :: f in facts ==> Pair(f.field, f.value) in unique)
    && (forall p :: p in unique ==> exists f :: f in facts && p == Pair(f.field, f.value))
    && (forall p :: p in unique ==> unique[p] == EvidenceFor(facts, p.field, p.value))
  }

  lemma OneMoreFact(facts: set<Fact>, f: Fact, unique: map<Pair, set<string>>)
    requires Gathered(facts, unique)
    ensures var p := Pair(f.field, f.value);
      Gathered(facts + {f}, unique[p := (if p in unique then unique[p] else {}) + f.evidence])
  {
    var p := Pair(f.field, f.value);
    var unique1 := unique[p := (if p in unique then unique[p] else {}) + f.evidence];
    if p !in unique {
      assert EvidenceFor(facts, f.field, f.value) == {};
    }
    forall q | q in unique1 ensures unique1[q] == EvidenceFor(facts + {f}, q.field, q.value) {
      assert EvidenceFor(facts + {f}, q.field, q.value)
          == EvidenceFor(facts, q.field, q.value) + (if q == p then f.evidence else {});
    }
    forall q | q in unique1 ensures exists x :: x in facts + {f} && q == Pair(x.field, x.value) {
      if q == p { assert f in facts + {f}; } else {
        var x :| x in facts && q == Pair(x.field, x.value);
        assert x in facts + {f};
      }
    }
  }

  /** The facts of a group, gathered in a dictionary from field and value to evidence. */
  method MergeFacts(group: seq<Record>, component: string) returns (facts: set<Fact>)
    ensures facts == MergedFacts(AllFacts(group), component)
  {
    hide Gathered, MergedFacts, AllFacts;
    var unique: map<Pair, set<string>> := map[];
    assert AllFacts(group[..0]) == {};
    NothingGathered();
    for i := 0 to |group|
      invariant Gathered(AllFacts(group[..i]), unique)
    {
      assert group[..i + 1] == group[..i] + [group[i]];
      unique := GatherFacts(AllFacts(group[..i]), group[i].facts, unique);
      assert AllFacts(group[..i]) + group[i].facts == AllFacts(group[..i + 1]);
    }
    assert group[..|group|] == group;
    facts := set p | p in unique :: Fact(p.field, p.value, unique[p], Some(component));
    GatheredIsMerged(AllFacts(group), unique, component);
  }

  method GatherFacts(ghost done: set<Fact>, facts: set<Fact>, before: map<Pair, set<string>>) returns (unique: map<Pair, set<string>>)
    requires Gathered(done, before)
    ensures Gathered(done + facts, unique)
  {
    hide Gathered;
    unique := before;
    var left := facts;
    ghost var seen := done;
    while left != {}
      invariant left <= facts && seen == done + (facts - left) && Gathered(seen, unique)
      decreases |left|
    {
      var f :| f in left;
      var p := Pair(f.field, f.value);
      OneMoreFact(seen, f, unique);
      unique := unique[p := (if p in unique then unique[p] else {}) + f.evidence];
      left := left - {f};
      seen := seen + {f};
    }
    assert seen == done + facts;
  }

  lemma NothingGathered()
    ensures Gathered({}, map[])
  {}

  lemma GatheredIsMerged(facts: set<Fact>, unique: map<Pair, set<string>>, component: string)
    requires Gathered(facts, unique)
    ensures (set p | p in unique :: Fact(p.field, p.value, unique[p], Some(component))) == MergedFacts(facts, component)
  {
    var listed := set p | p in unique :: Fact(p.field, p.value, unique[p], Some(component));
    forall x ensures x in listed <==> x in MergedFacts(facts, component) {
      if x in listed {
        var p :| p in unique && x == Fact(p.field, p.value, unique[p], Some(component));
        var f :| f in facts && p == Pair(f.field, f.value);
        assert x == Fact(f.field, f.value, EvidenceFor(facts, f.field, f.value), Some(component));
      }
      if x in MergedFacts(facts, component) {
        var f :| f in facts && x == Fact(f.field, f.value, EvidenceFor(facts, f.field, f.value), Some(component));
        assert x == Fact(f.field, f.value, unique[Pair(f.field, f.value)], Some(component));
      }
    }
  }

  /** The dictionary from identity to its records, for the records so far. */
  ghost predicate Grouped(input: Input, rs: seq<Record>, groups: map<Key, seq<Record>>) {
    && (forall k :: k in groups <==> exists x :: x in rs && VerdictOf(input, x) == Included(k))
    && (forall k :: k in groups ==> groups[k] == GroupOf(input, rs, k))
  }

  lemma NoneGrouped(input: Input)
    ensures Grouped(input, [], map[])
  {}

  lemma UnfoldGroup(input: Input, rs: seq<Record>, x: Record, k: Key)
    ensures GroupOf(input, rs + [x], k) == GroupOf(input, rs, k) + if VerdictOf(input, x) == Included(k) then [x] else []
  {
    assert (rs + [x])[..|rs + [x]| - 1] == rs;
  }

  lemma GroupedOneMore(input: Input, rs: seq<Record>, groups: map<Key, seq<Record>>, x: Record)
    requires Grouped(input, rs, groups)
    ensures var v := VerdictOf(input, x);
      Grouped(input, rs + [x],
        if v.Included? then groups[v.key := (if v.key in groups then groups[v.key] else []) + [x]] else groups)
  {
    hide VerdictOf, GroupOf;
    var v := VerdictOf(input, x);
    var groups1 := if v.Included? then groups[v.key := (if v.key in groups then groups[v.key] else []) + [x]] else groups;
    forall k ensures k in groups1 <==> exists y :: y in rs + [x] && VerdictOf(input, y) == Included(k) {
      if k in groups {
        var y :| y in rs && VerdictOf(input, y) == Included(k);
        assert y in rs + [x];
      }
      assert x in rs + [x];
    }
    forall k | k in groups1 ensures groups1[k] == GroupOf(input, rs + [x], k) {
      UnfoldGroup(input, rs, x, k);
      NoGroupYet(input, rs, k);
    }
  }

  method GroupCandidates(input: Input, sorted: seq<Record>) returns (r: Result<(map<Key, seq<Record>>, seq<Exclusion>), Error>)
    ensures r.Failure? <==> exists x :: x in sorted && VerdictOf(input, x) == Raises
    ensures r.Success? ==> Grouped(input, sorted, r.value.0) && r.value.1 == ExclusionsOf(input, sorted)
  {
    hide VerdictOf, Grouped;
    var groups: map<Key, seq<Record>> := map[];
    var exclusions: seq<Exclusion> := [];
    NoneGrouped(input);
    for i := 0 to |sorted|
      invariant forall x :: x in sorted[..i] ==> VerdictOf(input, x) != Raises
      invariant exclusions == ExclusionsOf(input, sorted[..i])
      invariant Grouped(input, sorted[..i], groups)
    {
      var x := sorted[i];
      assert sorted[..i + 1] == sorted[..i] + [x];
      assert sorted[..i + 1][..|sorted[..i + 1]| - 1] == sorted[..i];
      GroupedOneMore(input, sorted[..i], groups, x);
      match VerdictOf(input, x) {
        case Raises => return Failure(AliasCycle);
        case Excluded(reason) => exclusions := exclusions + [Exclusion(x.id, reason)];
        case Included(key) => groups := groups[key := (if key in groups then groups[key] else []) + [x]];
      }
    }
    assert sorted[..|sorted|] == sorted;
    return Success((groups, exclusions));
  }

  lemma NoGroupYet(input: Input, rs: seq<Record>, key: Key)
    ensures (exists x :: x in rs && VerdictOf(input, x) == Included(key)) || GroupOf(input, rs, key) == []
  {
    var g := GroupOf(input, rs, key);
    assert g != [] ==> g[0] in g;
  }

  /** The merges of one more group. */
  method MergeGroup(input: Input, groups: map<Key, seq<Record>>, ghost done: set<Key>, k: Key, before: map<string, Merge>)
    returns (merges: map<string, Merge>)
    requires k in groups && groups[k] != [] && MergesOf(input, groups, done, before)
    ensures MergesOf(input, groups, done + {k}, merges)
  {
    merges := before;
    var group := groups[k];
    for i := 1 to |group|
      invariant forall id :: id in merges ==> exists l, j :: l in done + {k} && IsMerge(input, groups, l, j, id, merges[id])
      invariant forall l, j :: l in done && IsDuplicate(groups, l, j) ==> groups[l][j].id in merges
      invariant forall j :: 1 <= j < i ==> group[j].id in merges
    {
      var id := group[i].id;
      ghost var earlier := merges;
      merges := merges[id := MergeOf(input, k, group, i)];
      assert IsMerge(input, groups, k, i, id, merges[id]);
      forall x | x in merges && x != id ensures exists l, j :: l in done + {k} && IsMerge(input, groups, l, j, x, merges[x]) {
        var l, j :| l in done + {k} && IsMerge(input, groups, l, j, x, earlier[x]);
      }
    }
  }

  ghost predicate RepresentsAll(input: Input, groups: map<Key, seq<Record>>, done: set<Key>, representatives: seq<Record>) {
    && DistinctIds(representatives)
    && forall x :: x in representatives <==> exists k :: k in done && IsRepresentative(input, groups, x, k)
  }

  lemma RepresentsOneMore(
    input: Input, groups: map<Key, seq<Record>>, done: set<Key>, representatives: seq<Record>, k: Key, x: Record)
    requires WellFormed(input) && RepresentsAll(input, groups, done, representatives)
    requires k !in done && IsRepresentative(input, groups, x, k)
    ensures RepresentsAll(input, groups, done + {k}, representatives + [x])
  {
    hide IsRepresentative;
    var longer := representatives + [x];
    forall y ensures y in longer <==> exists l :: l in done + {k} && IsRepresentative(input, groups, y, l) {
      if y in representatives {
        var l :| l in done && IsRepresentative(input, groups, y, l);
        assert l in done + {k};
      }
      if l :| l in done + {k} && IsRepresentative(input, groups, y, l) {
        if l == k { OneRepresentative(input, groups, k, x, y); }
      }
    }
    forall i | 0 <= i < |representatives| ensures representatives[i].id != x.id {
      assert representatives[i] in representatives;
      var l :| l in done && IsRepresentative(input, groups, representatives[i], l);
      NamedAfterKey(input, groups, representatives[i], l);
      NamedAfterKey(input, groups, x, k);
    }
  }

  lemma NamedAfterKey(input: Input, groups: map<Key, seq<Record>>, x: Record, k: Key)
    requires IsRepresentative(input, groups, x, k)
    ensures x.id == input.name(k)
  {}

  lemma OneRepresentative(input: Input, groups: map<Key, seq<Record>>, k: Key, x: Record, y: Record)
    requires IsRepresentative(input, groups, x, k) && IsRepresentative(input, groups, y, k)
    ensures x == y
  {}

  /** One representative and the merges of every group, whatever the order of the groups; the constructor refuses
      a representative whose identity is not admissible. */
  method Deduplicate(input: Input, groups: map<Key, seq<Record>>)
    returns (r: Result<(seq<Record>, map<string, Merge>), Error>)
    requires WellFormed(input) && GroupsOk(input, groups)
    ensures r.Success? ==> RepresentativesOk(input, groups, r.value.0) && MergesOk(input, groups, r.value.1) && AllAdmitted(r.value.0)
    ensures r.Failure? <==> !NoneMisnamed(input)
    ensures r.Failure? ==> r.error == InvalidIdentity
  {
    hide WellFormed, GroupsOk, MergesOf, RepresentsAll, Admitted, Misnamed, AllAdmitted, NoneMisnamed, VerdictOf, RepresentativesOk;
    var representatives: seq<Record>, merges: map<string, Merge> := [], map[];
    var left := groups.Keys;
    ghost var done: set<Key> := {};
    NothingDeduplicated(input, groups);
    assert AllAdmitted(representatives) by { NothingAdmitted(); }
    while left != {}
      invariant done == groups.Keys - left && left <= groups.Keys
      invariant RepresentsAll(input, groups, done, representatives) && MergesOf(input, groups, done, merges)
      invariant AllAdmitted(representatives) && forall k :: k in done ==> !Misnamed(input, k)
      decreases |left|
    {
      var k :| k in left;
      GroupsResolve(input, groups, k);
      var facts := MergeFacts(groups[k], k.product);
      var x := RepresentativeOf(input, groups, k, facts);
      GroupIsAsGrouped(input, groups, k);
      AdmittedExactly(input, groups, x, k);
      MisnamedIsFound(input, k);
      if !Admitted(x) { return Failure(InvalidIdentity); }
      AdmittedOneMore(representatives, x);
      RepresentsOneMore(input, groups, done, representatives, k, x);
      merges := MergeGroup(input, groups, done, k, merges);
      representatives := representatives + [x];
      left, done := left - {k}, done + {k};
    }
    assert done == groups.Keys;
    AllRepresented(input, groups, representatives);
    OnlyGroupsAreMisnamed(input, groups);
    SortedAdmitted(representatives);
    return Success((SortById(representatives), merges));
  }

  lemma GroupIsAsGrouped(input: Input, groups: map<Key, seq<Record>>, k: Key)
    requires GroupsOk(input, groups) && k in groups
    ensures groups[k] == GroupOf(input, SortById(input.candidates), k)
  {
    hide VerdictOf, GroupOf, SortById;
  }

  lemma NothingAdmitted()
    ensures AllAdmitted([])
  {
  }

  lemma AdmittedOneMore(representatives: seq<Record>, x: Record)
    requires AllAdmitted(representatives) && Admitted(x)
    ensures AllAdmitted(representatives + [x])
  {
    hide Admitted;
  }

  lemma MisnamedIsFound(input: Input, k: Key)
    ensures Misnamed(input, k) ==> !NoneMisnamed(input)
  {
    hide Misnamed;
  }

  lemma OnlyGroupsAreMisnamed(input: Input, groups: map<Key, seq<Record>>)
    requires GroupsOk(input, groups) && forall k :: k in groups ==> !Misnamed(input, k)
    ensures NoneMisnamed(input)
  {
    hide VerdictOf, KeyAdmitted, IsIdentifier, Canonical;
    forall k ensures !Misnamed(input, k) {
      var group := GroupOf(input, SortById(input.candidates), k);
      if group != [] {
        assert group[0] in group && group[0] in multiset(SortById(input.candidates)) && group[0] in multiset(input.candidates);
      }
    }
  }

  lemma SortedAdmitted(representatives: seq<Record>)
    requires AllAdmitted(representatives)
    ensures AllAdmitted(SortById(representatives))
  {
    hide Admitted, SortById;
    forall x | x in SortById(representatives) ensures Admitted(x) {
      assert x in multiset(SortById(representatives)) && x in multiset(representatives);
    }
  }

  lemma NothingDeduplicated(input: Input, groups: map<Key, seq<Record>>)
    ensures RepresentsAll(input, groups, {}, []) && MergesOf(input, groups, {}, map[])
  {}

  lemma AllRepresented(input: Input, groups: map<Key, seq<Record>>, representatives: seq<Record>)
    requires RepresentsAll(input, groups, groups.Keys, representatives)
    ensures RepresentativesOk(input, groups, SortById(representatives))
  {
    hide IsRepresentative;
    SortByIdSorts(representatives);
    forall x, k | IsRepresentative(input, groups, x, k) ensures k in groups { RepresentedKey(input, groups, x, k); }
  }

  lemma RepresentedKey(input: Input, groups: map<Key, seq<Record>>, x: Record, k: Key)
    requires IsRepresentative(input, groups, x, k)
    ensures k in groups
  {}

  method RepresentativeOf(input: Input, groups: map<Key, seq<Record>>, k: Key, facts: set<Fact>) returns (x: Record)
    requires k in groups && groups[k] != [] && forall m :: m in groups[k] ==> Canonical(input, m.offer).Some?
    requires facts == MergedFacts(AllFacts(groups[k]), k.product)
    ensures IsRepresentative(input, groups, x, k)
  {
    var group := groups[k];
    var anchor := Anchor(group);
    var offer := CanonicalText(input, anchor.offer);
    return Record(
      input.name(k), anchor.pack, anchor.packVersion, k.seller, k.product, k.edition, k.region,
      offer.value, AuthorityFloor(group), forall m :: m in group ==> m.available, facts,
      Union(group, (m: Record) => m.sellerGates), Union(group, (m: Record) => m.aliases),
      Union(group, (m: Record) => m.categories), Union(group, (m: Record) => m.jtbds), Published,
      Union(group, (m: Record) => m.required));
  }

  /** Recall fails exactly when some alias chain it has to follow returns to itself, or some group has an identity,
      or an anchor an offer, whose canonical text is not admissible. */
  method RecallAndDeduplicate(input: Input) returns (r: Result<RecallResult, Error>)
    requires WellFormed(input)
    ensures r.Success? ==> RecallOk(input, r.value)
    ensures r.Failure? <==> !NoneRaises(input) || !NoneMisnamed(input)
    ensures r.Failure? ==> r.error == if NoneRaises(input) then InvalidIdentity else AliasCycle
  {
    hide VerdictOf, Representative, Misnamed;
    SortByIdSorts(input.candidates);
    var sorted := SortById(input.candidates);
    var grouped := GroupCandidates(input, sorted);
    if grouped.Failure? { return Failure(AliasCycle); }
    var groups := grouped.value.0;
    assert GroupsOk(input, groups);
    var merged := Deduplicate(input, groups);
    if merged.Failure? { return Failure(InvalidIdentity); }
    return Success(RecallResult(groups, merged.value.0, merged.value.1, grouped.value.1));
  }

  // ---------- an alias that leads out of the identifiers ----------

  const ACME := Record(
    "record", "pack", 1, "acme", "product", "standard", "eu", "offer", 0, true, {}, {}, {}, {}, {}, Published, {})

  /** Without any cycle: an alias turns the seller of the only candidate into text that is no identifier. */
  lemma AliasTargetIsRefused(name: Key -> string)
    ensures var input := Input([ACME], map["acme" := "acme inc"], None, s => s, name);
      NoneRaises(input) && !NoneMisnamed(input)
  {
    var input := Input([ACME], map["acme" := "acme inc"], None, s => s, name);
    var key := Key("acme inc", "product", "standard", "eu");
    assert VerdictOf(input, ACME) == Included(key) by { AcmeIsIncluded(input); }
    assert [ACME][1..] == [] && SortById([ACME]) == [ACME];
    assert ACME in [ACME] && GroupOf(input, [ACME], key) != [];
    assert "acme inc"[4] == ' ' && !IsIdentifier("acme inc");
    assert Misnamed(input, key);
  }

  lemma AcmeIsIncluded(input: Input)
    requires input.aliases == map["acme" := "acme inc"] && input.policy.None? && forall s :: input.normalize(s) == s
    ensures VerdictOf(input, ACME) == Included(Key("acme inc", "product", "standard", "eu"))
  {
    assert "acme inc" !in input.aliases && "product" !in input.aliases && "standard" !in input.aliases;
    assert "eu" !in input.aliases && "offer" !in input.aliases;
    assert Follow(input.aliases, "acme", {}) == Follow(input.aliases, "acme inc", {"acme"}) by { assert {} + {"acme"} == {"acme"}; }
  }
}
