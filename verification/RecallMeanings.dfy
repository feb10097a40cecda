/** What canonical text is, why a candidate is excluded, and what a representative and a merge say, told by the alias
    table and the records. */
module RecallMeanings {
  import opened Outcomes
  import opened Ordering
  import opened Recall
  import opened RecallTheorems

  // ---------- canonical text ----------

  /** A chain of aliases, from one text to the next, that ends at a text that is no alias. */
  ghost predicate IsChain(aliases: map<string, string>, chain: seq<string>) {
    && chain != [] && chain[|chain| - 1] !in aliases
    && forall i :: 0 <= i < |chain| - 1 ==> chain[i] in aliases && aliases[chain[i]] == chain[i + 1]
  }

  ghost predicate LeadsTo(aliases: map<string, string>, start: string, end: string) {
    exists chain :: IsChain(aliases, chain) && chain[0] == start && chain[|chain| - 1] == end
  }

  lemma {:induction false} ChainIsFollowed(aliases: map<string, string>, chain: seq<string>, visited: set<string>)
    requires IsChain(aliases, chain) && visited <= aliases.Keys && forall x :: x in chain ==> x !in visited
    requires forall i, j :: 0 <= i < j < |chain| ==> chain[i] != chain[j]
    ensures Follow(aliases, chain[0], visited) == Some(chain[|chain| - 1])
    decreases |chain|
  {
    if |chain| > 1 {
      var rest := chain[1..];
      assert chain[0 + 1] == aliases[chain[0]];
      forall i | 0 <= i < |rest| - 1 ensures rest[i] in aliases && aliases[rest[i]] == rest[i + 1] {
        assert chain[i + 1] in aliases && aliases[chain[i + 1]] == chain[(i + 1) + 1];
      }
      ChainIsFollowed(aliases, rest, visited + {chain[0]});
    }
  }

  /** A chain that ends never returns: from two equal texts on it would go on alike. */
  lemma {:induction false} ChainsDoNotReturn(aliases: map<string, string>, chain: seq<string>, i: nat, j: nat)
    requires IsChain(aliases, chain) && i < j < |chain|
    ensures chain[i] != chain[j]
    decreases |chain| - j
  {
    assert chain[i] in aliases && aliases[chain[i]] == chain[i + 1];
    if j < |chain| - 1 {
      ChainsDoNotReturn(aliases, chain, i + 1, j + 1);
      assert chain[j] in aliases && aliases[chain[j]] == chain[j + 1];
    }
  }

  lemma {:induction false} FollowedChain(aliases: map<string, string>, start: string, visited: set<string>) returns (chain: seq<string>)
    requires visited <= aliases.Keys && Follow(aliases, start, visited).Some?
    ensures IsChain(aliases, chain) && chain[0] == start && chain[|chain| - 1] == Follow(aliases, start, visited).value
    decreases aliases.Keys - visited
  {
    if start !in aliases {
      chain := [start];
    } else {
      var rest := FollowedChain(aliases, aliases[start], visited + {start});
      chain := [start] + rest;
      forall i | 0 <= i < |chain| - 1 ensures chain[i] in aliases && aliases[chain[i]] == chain[i + 1] {
        if i > 0 { assert rest[i - 1] in aliases && aliases[rest[i - 1]] == rest[(i - 1) + 1]; }
      }
    }
  }

  /** Text has a canonical form exactly when the aliases lead from its normal form to an end, which is that form;
      there is none exactly when they lead round. */
  lemma CanonicalExactly(input: Input, value: string, end: string)
    ensures Canonical(input, value) == Some(end) <==> LeadsTo(input.aliases, input.normalize(value), end)
  {
    if Canonical(input, value) == Some(end) {
      var chain := FollowedChain(input.aliases, input.normalize(value), {});
    } else if LeadsTo(input.aliases, input.normalize(value), end) {
      var chain :| IsChain(input.aliases, chain) && chain[0] == input.normalize(value) && chain[|chain| - 1] == end;
      forall i, j | 0 <= i < j < |chain| ensures chain[i] != chain[j] { ChainsDoNotReturn(input.aliases, chain, i, j); }
      ChainIsFollowed(input.aliases, chain, {});
    }
  }

  // ---------- exclusions ----------

  ghost predicate IsCurrent(r: Record) {
    r.status == Published
  }

  /** The policy, if there is one, knows the category and the job of the record. */
  ghost predicate IsAskedFor(input: Input, r: Record) {
    input.policy.Some? ==> input.policy.value.category in r.categories && input.policy.value.jtbd in r.jtbds
  }

  ghost predicate RegionsAreKnown(input: Input, r: Record) {
    input.policy.Some? ==>
      Canonical(input, r.region).Some? && forall x :: x in input.policy.value.regions ==> Canonical(input, x).Some?
  }

  ghost predicate IsInRegion(input: Input, r: Record) {
    input.policy.Some? ==> exists x :: x in input.policy.value.regions && Canonical(input, x) == Canonical(input, r.region)
  }

  ghost predicate IsExcludedFor(input: Input, r: Record, reason: Reason) {
    match reason
    case Revoked => r.status == PackRevoked
    case Superseded => r.status == PackSuperseded
    case CategoryMismatch => IsCurrent(r) && input.policy.Some? && input.policy.value.category !in r.categories
    case JtbdMismatch =>
      && IsCurrent(r) && input.policy.Some?
      && input.policy.value.category in r.categories && input.policy.value.jtbd !in r.jtbds
    case RegionUnsupported => IsCurrent(r) && IsAskedFor(input, r) && RegionsAreKnown(input, r) && !IsInRegion(input, r)
  }

  ghost predicate HasIdentity(input: Input, r: Record, k: Key) {
    && Canonical(input, r.seller) == Some(k.seller) && Canonical(input, r.product) == Some(k.product)
    && Canonical(input, r.edition) == Some(k.edition) && Canonical(input, r.region) == Some(k.region)
    && Canonical(input, r.offer).Some?
  }

  /** Each reason excludes exactly the records it names; a record is in the group of an identity exactly when it is
      current, asked for, in the region and has that identity. */
  lemma PlacedExactly(input: Input, r: Record)
    ensures forall reason :: VerdictOf(input, r) == Excluded(reason) <==> IsExcludedFor(input, r, reason)
    ensures forall k :: VerdictOf(input, r) == Included(k) <==>
      && IsCurrent(r) && IsAskedFor(input, r) && RegionsAreKnown(input, r) && IsInRegion(input, r) && HasIdentity(input, r, k)
  {
    hide Canonical;
    forall k ensures KeyOf(input, r) == Some(k) && Canonical(input, r.offer).Some? <==> HasIdentity(input, r, k) {}
    hide KeyOf, HasIdentity;
  }

  // ---------- identifiers ----------

  /** Letters, digits and, after the first place, four marks; at most 128 of them. */
  lemma SomeIdentifiers()
    ensures IsIdentifier("A") && IsIdentifier("Z") && IsIdentifier("a") && IsIdentifier("z") && IsIdentifier("0") && IsIdentifier("9")
    ensures IsIdentifier("x_.:-Y7")
    ensures !IsIdentifier("") && !IsIdentifier("_x") && !IsIdentifier("-x") && !IsIdentifier("x y") && !IsIdentifier("x/y")
    ensures IsIdentifier(seq(128, _ => 'x')) && !IsIdentifier(seq(129, _ => 'x'))
  {
    var marked := "x_.:-Y7";
    assert marked[1] in "_.:-" && marked[2] in "_.:-" && marked[3] in "_.:-" && marked[4] in "_.:-";
    assert "x y"[1] == ' ' && "x/y"[1] == '/';
  }

  // ---------- representatives ----------

  /** The highest pack version, and among these the smallest identifier. */
  ghost predicate IsAnchor(group: seq<Record>, a: Record) {
    && a in group
    && forall m :: m in group ==> m.packVersion < a.packVersion || (m.packVersion == a.packVersion && (m == a || Before(a.id, m.id)))
  }

  lemma {:induction false} AnchorExactly(group: seq<Record>)
    requires ById(group) && group != []
    ensures IsAnchor(group, Anchor(group))
    decreases |group|
  {
    hide Before;
    if |group| > 1 {
      var earlier, last := group[..|group| - 1], group[|group| - 1];
      AnchorExactly(earlier);
      assert group == earlier + [last];
      forall m | m in earlier ensures Before(m.id, last.id) {
        var i :| 0 <= i < |earlier| && earlier[i] == m;
        assert group[i] == m;
      }
    }
  }

  ghost predicate IsUnion(part: Record -> set<string>, group: seq<Record>, whole: set<string>) {
    forall x :: x in whole <==> exists m :: m in group && x in part(m)
  }

  /** What a representative says: its identity, the pack of its anchor, the canonical offer of the anchor, the least
      trusted authority, available only if all are, and every gate, alias, category, job and requirement. */
  ghost predicate Represents(input: Input, k: Key, group: seq<Record>, x: Record) {
    && x.id == input.name(k) && x.seller == k.seller && x.product == k.product && x.edition == k.edition && x.region == k.region
    && x.status == Published
    && (exists a :: IsAnchor(group, a) && x.pack == a.pack && x.packVersion == a.packVersion && Canonical(input, a.offer) == Some(x.offer))
    && (forall m :: m in group ==> m.authority <= x.authority) && (exists m :: m in group && m.authority == x.authority)
    && (x.available <==> forall m :: m in group ==> m.available)
    && IsUnion((m: Record) => m.sellerGates, group, x.sellerGates) && IsUnion((m: Record) => m.aliases, group, x.aliases)
    && IsUnion((m: Record) => m.categories, group, x.categories) && IsUnion((m: Record) => m.jtbds, group, x.jtbds)
    && IsUnion((m: Record) => m.required, group, x.required)
  }

  lemma RepresentativeSays(input: Input, k: Key, group: seq<Record>)
    requires ById(group) && group != [] && forall m :: m in group ==> Canonical(input, m.offer).Some?
    ensures Represents(input, k, group, Representative(input, k, group))
  {
    AnchorExactly(group);
    AuthorityFloorIsHighest(group);
    hide Canonical, Anchor, AuthorityFloor, AllFacts, MergedFacts, ById, IsAnchor;
    assert IsAnchor(group, Anchor(group));
  }

  /** The candidates of an identity, in the order of their identifiers. */
  ghost predicate IsGroup(input: Input, k: Key, group: seq<Record>) {
    && ById(group) && group != []
    && forall m :: m in group <==>
         && m in input.candidates && IsCurrent(m) && IsAskedFor(input, m) && RegionsAreKnown(input, m) && IsInRegion(input, m)
         && HasIdentity(input, m, k)
  }

  lemma GroupExactly(input: Input, r: RecallResult, k: Key)
    requires WellFormed(input) && RecallOk(input, r) && k in r.groups
    ensures IsGroup(input, k, r.groups[k])
  {
    hide VerdictOf, IsCurrent, IsAskedFor, RegionsAreKnown, IsInRegion, HasIdentity;
    SortedGroups(input, r, k);
    NoEmptyGroup(input, r);
    forall m ensures m in r.groups[k] <==> m in input.candidates && VerdictOf(input, m) == Included(k) {
      MemberIsIncluded(input, r, k, m);
    }
    forall m { PlacedExactly(input, m); }
    hide WellFormed, RecallOk;
  }

  /** Every representative of a recall stands for all current candidates of one identity that the policy asks for, and
      says of them exactly what they say together. */
  lemma RepresentativesExactly(input: Input, r: RecallResult, x: Record)
    requires WellFormed(input) && RecallOk(input, r) && x in r.representatives
    ensures exists k :: k in r.groups && IsGroup(input, k, r.groups[k]) && Represents(input, k, r.groups[k], x)
  {
    hide WellFormed, Represents, IsGroup, Representative, GroupsOk, MergesOk;
    var k :| IsRepresentative(input, r.groups, x, k);
    GroupExactly(input, r, k);
    SortedGroups(input, r, k);
    RepresentativeSays(input, k, r.groups[k]);
  }

  // ---------- merges ----------

  /** A candidate that shares its identity with one of a smaller identifier, and whether its offer and its edition are
      written otherwise than in the first candidate of the identity. */
  ghost predicate IsMergedInto(input: Input, r: RecallResult, id: string, merge: Merge) {
    exists k, x :: IsLaterMember(r, k, x) && x.id == id && merge.canonical == input.name(k)
      && (merge.offerAlias <==> x.offer != r.groups[k][0].offer)
      && (merge.editionAlias <==> x.edition != r.groups[k][0].edition)
  }

  ghost predicate IsLaterMember(r: RecallResult, k: Key, x: Record) {
    k in r.groups && r.groups[k] != [] && x in r.groups[k] && Before(r.groups[k][0].id, x.id)
  }

  /** The merges are exactly those of the later members of the groups. */
  lemma MergesExactly(input: Input, r: RecallResult, id: string)
    requires WellFormed(input) && RecallOk(input, r)
    ensures id in r.merges ==> IsMergedInto(input, r, id, r.merges[id])
    ensures (exists k, x :: IsLaterMember(r, k, x) && x.id == id) ==> id in r.merges
  {
    hide WellFormed, GroupsOk, RepresentativesOk, MergesOk, Before;
    if id in r.merges {
      var k, i := MergePlace(input, r, id);
      SortedGroups(input, r, k);
      assert IsLaterMember(r, k, r.groups[k][i]);
    }
    if k, x :| IsLaterMember(r, k, x) && x.id == id {
      var i :| 0 <= i < |r.groups[k]| && r.groups[k][i] == x;
      OneOrder(r.groups[k][0].id, x.id);
      MergedIdIsIn(input, r, k, i);
    }
  }
}
