/**
 Splitting a release's domains into shards (internal/release/planner.go).
 */
module ShardPlanner {
  import opened Wrappers
  import opened Collections

  datatype PlanInput = PlanInput(id: int, hostGroup: Option<int>)

  datatype PlannedShard = PlannedShard(index: nat, domains: seq<int>, hostGroup: Option<int>)

  // ── Specification of a plan ────────────────────────────────────────────────

  /** The group a domain is planned into; nil and non-positive host groups mean "no group". */
  function GroupOf(d: PlanInput): Option<int> {
    if d.hostGroup.Some? && d.hostGroup.value > 0 then d.hostGroup else None
  }

  /** The ids planned into one group, in input order. */
  function Members(domains: seq<PlanInput>, group: Option<int>): seq<int> {
    if domains == [] then []
    else
      var n := |domains| - 1;
      Members(domains[..n], group) + (if GroupOf(domains[n]) == group then [domains[n].id] else [])
  }

  /** The members of a host group are the domains that name it, at the positions `at`; those of no group name none, or
      one that is not positive. */
  lemma {:induction false} MembersAre(domains: seq<PlanInput>, group: Option<int>) returns (at: seq<nat>)
    ensures Positions(at, |domains|) && |at| == |Members(domains, group)|
    ensures forall k :: 0 <= k < |at| ==> Members(domains, group)[k] == domains[at[k]].id
    ensures forall i :: 0 <= i < |domains| ==>
              (i in at <==> if group.Some? then domains[i].hostGroup == group && group.value > 0
                            else domains[i].hostGroup.None? || domains[i].hostGroup.value <= 0)
  {
    at := [];
    if domains != [] {
      var n := |domains| - 1;
      var was := Members(domains[..n], group);
      var front := MembersAre(domains[..n], group);
      PositionsGrow(front, n);
      assert forall i :: 0 <= i < n ==> domains[..n][i] == domains[i];
      if GroupOf(domains[n]) == group {
        at := front + [n];
        assert Members(domains, group) == was + [domains[n].id];
      } else {
        at := front;
        assert Members(domains, group) == was;
      }
    }
  }

  function Ids(domains: seq<PlanInput>): seq<int> {
    if domains == [] then [] else Ids(domains[..|domains| - 1]) + [domains[|domains| - 1].id]
  }

  predicate Ascending(xs: seq<int>) {
    forall i, j :: 0 <= i < j < |xs| ==> xs[i] < xs[j]
  }

  ghost predicate GroupShards(domains: seq<PlanInput>, shards: seq<PlannedShard>, groups: seq<int>) {
    && |groups| <= |shards|
    && Ascending(groups)
    && (forall i :: 0 <= i < |groups| ==> shards[i] == PlannedShard(i, Members(domains, Some(groups[i])), Some(groups[i])))
    && (forall g :: g in groups <==> g in GroupSet(domains))
  }

  /** The host groups that occur. */
  function GroupSet(domains: seq<PlanInput>): set<int> {
    set d | d in domains && GroupOf(d).Some? :: GroupOf(d).value
  }

  /** A plan: one shard per host group in strictly ascending order, then the ungrouped domains if
      there are any; with no domains at all, a single empty shard. */
  ghost predicate IsPlan(domains: seq<PlanInput>, shards: seq<PlannedShard>) {
    exists groups :: IsPlanWith(domains, shards, groups)
  }

  ghost predicate IsPlanWith(domains: seq<PlanInput>, shards: seq<PlannedShard>, groups: seq<int>) {
    && GroupShards(domains, shards, groups)
    && (var rest := Members(domains, None);
        var n := |groups|;
        if rest != [] then shards[n..] == [PlannedShard(n, rest, None)]
        else if n > 0 then |shards| == n
        else shards == [PlannedShard(0, [], None)])
  }

  // ── The planner ────────────────────────────────────────────────────────────

  lemma {:induction false} MembersOfUnseen(domains: seq<PlanInput>, g: int)
    requires g !in GroupSet(domains)
    ensures Members(domains, Some(g)) == []
  {
    if domains != [] {
      var n := |domains| - 1;
      assert domains[n] in domains;
      assert forall d :: d in domains[..n] ==> d in domains;
      MembersOfUnseen(domains[..n], g);
    }
  }

  /** The map of groups filled so far. */
  ghost predicate Filled(domains: seq<PlanInput>, groups: map<int, seq<int>>, noGroup: seq<int>) {
    && groups.Keys == GroupSet(domains)
    && (forall g :: g in groups ==> groups[g] == Members(domains, Some(g)))
    && noGroup == Members(domains, None)
  }

  lemma FilledStep(domains: seq<PlanInput>, d: PlanInput, groups: map<int, seq<int>>, noGroup: seq<int>)
    requires Filled(domains, groups, noGroup)
    ensures match GroupOf(d)
            case Some(g) => Filled(domains + [d], groups[g := (if g in groups then groups[g] else []) + [d.id]], noGroup)
            case None => Filled(domains + [d], groups, noGroup + [d.id])
  {
    var all := domains + [d];
    assert all[..|domains|] == domains;
    assert GroupSet(all) == GroupSet(domains) + (if GroupOf(d).Some? then {GroupOf(d).value} else {}) by {
      forall g | g in GroupSet(domains) + (if GroupOf(d).Some? then {GroupOf(d).value} else {})
        ensures g in GroupSet(all)
      {
        if g in GroupSet(domains) {
          var e :| e in domains && GroupOf(e) == Some(g);
          assert e in all;
        } else {
          assert d in all;
        }
      }
    }
    if GroupOf(d).Some? && GroupOf(d).value !in groups {
      MembersOfUnseen(domains, GroupOf(d).value);
    }
  }

  /** Where x belongs in an ascending sequence that does not contain it. */
  function InsertAscending(xs: seq<int>, x: int): seq<int> {
    if xs == [] then [x]
    else if x < xs[0] then [x] + xs
    else [xs[0]] + InsertAscending(xs[1..], x)
  }

  lemma {:induction false} InsertFacts(xs: seq<int>, x: int)
    requires Ascending(xs) && x !in xs
    ensures Ascending(InsertAscending(xs, x))
    ensures forall y :: y in InsertAscending(xs, x) <==> y in xs || y == x
  {
    if xs != [] && x >= xs[0] {
      InsertFacts(xs[1..], x);
      var r := InsertAscending(xs[1..], x);
      forall i | 0 <= i < |r|
        ensures xs[0] < r[i]
      {
        assert r[i] in r;
      }
    }
  }

  /** Collects the group ids and sorts them. */
  method SortedKeys(keys: set<int>) returns (sorted: seq<int>)
    ensures Ascending(sorted)
    ensures forall k :: k in sorted <==> k in keys
  {
    sorted := [];
    var todo := keys;
    while todo != {}
      invariant todo <= keys && Ascending(sorted)
      invariant forall k :: k in sorted <==> k in keys && k !in todo
      decreases |todo|
    {
      var k := AnyOf(todo);
      InsertFacts(sorted, k);
      sorted := InsertAscending(sorted, k);
      todo := todo - {k};
    }
  }

  method PlanByHostGroup(domains: seq<PlanInput>) returns (shards: seq<PlannedShard>)
    ensures IsPlan(domains, shards)
  {
    var groups: map<int, seq<int>> := map[];
    var noGroup: seq<int> := [];
    assert GroupSet(domains[..0]) == {};
    for i := 0 to |domains|
      invariant Filled(domains[..i], groups, noGroup)
    {
      var d := domains[i];
      FilledStep(domains[..i], d, groups, noGroup);
      assert domains[..i + 1] == domains[..i] + [d];
      if d.hostGroup.Some? && d.hostGroup.value > 0 {
        var g := d.hostGroup.value;
        groups := groups[g := (if g in groups then groups[g] else []) + [d.id]];
      } else {
        noGroup := noGroup + [d.id];
      }
    }
    assert domains[..|domains|] == domains;
    var hgIds := SortedKeys(groups.Keys);
    shards := [];
    for i := 0 to |hgIds|
      invariant |shards| == i
      invariant forall j :: 0 <= j < i ==> shards[j] == PlannedShard(j, Members(domains, Some(hgIds[j])), Some(hgIds[j]))
    {
      assert hgIds[i] in hgIds;
      shards := shards + [PlannedShard(i, groups[hgIds[i]], Some(hgIds[i]))];
    }
    if |noGroup| > 0 {
      shards := shards + [PlannedShard(|shards|, noGroup, None)];
    }
    if |shards| == 0 {
      shards := [PlannedShard(0, [], None)];
    }
    assert IsPlanWith(domains, shards, hgIds);
  }

  // ── What a plan guarantees ─────────────────────────────────────────────────

  function Flatten(shards: seq<PlannedShard>): seq<int> {
    if shards == [] then [] else Flatten(shards[..|shards| - 1]) + shards[|shards| - 1].domains
  }

  /** The ids planned into the given groups together. */
  function Spread(domains: seq<PlanInput>, groups: seq<int>): multiset<int> {
    if groups == [] then multiset{}
    else Spread(domains, groups[..|groups| - 1]) + multiset(Members(domains, Some(groups[|groups| - 1])))
  }

  lemma {:induction false} SpreadStep(domains: seq<PlanInput>, groups: seq<int>)
    requires domains != [] && Ascending(groups)
    ensures var n := |domains| - 1;
            var d := domains[n];
            Spread(domains, groups) == Spread(domains[..n], groups)
              + (if GroupOf(d).Some? && GroupOf(d).value in groups then multiset{d.id} else multiset{})
    decreases |groups|
  {
    if groups != [] {
      var k := |groups| - 1;
      SpreadStep(domains, groups[..k]);
      assert groups == groups[..k] + [groups[k]];
      assert groups[k] !in groups[..k];
    }
  }

  lemma {:induction false} SpreadCovers(domains: seq<PlanInput>, groups: seq<int>)
    requires Ascending(groups) && GroupSet(domains) <= (set g | g in groups)
    ensures Spread(domains, groups) + multiset(Members(domains, None)) == multiset(Ids(domains))
    decreases |domains|
  {
    if domains == [] {
      NothingSpread(groups);
    } else {
      var n := |domains| - 1;
      var d := domains[n];
      assert d in domains && (GroupOf(d).Some? ==> GroupOf(d).value in GroupSet(domains));
      assert GroupSet(domains[..n]) <= GroupSet(domains) by {
        assert forall e :: e in domains[..n] ==> e in domains;
      }
      SpreadCovers(domains[..n], groups);
      SpreadStep(domains, groups);
    }
  }

  lemma {:induction false} NothingSpread(groups: seq<int>)
    ensures Spread([], groups) == multiset{}
  {
    if groups != [] {
      NothingSpread(groups[..|groups| - 1]);
    }
  }

  lemma {:induction false} FlattenGroups(domains: seq<PlanInput>, shards: seq<PlannedShard>, groups: seq<int>, n: nat)
    requires GroupShards(domains, shards, groups) && n <= |groups|
    ensures multiset(Flatten(shards[..n])) == Spread(domains, groups[..n])
  {
    if n > 0 {
      FlattenGroups(domains, shards, groups, n - 1);
      assert shards[..n][..n - 1] == shards[..n - 1] && groups[..n][..n - 1] == groups[..n - 1];
    }
  }

  lemma PlanTail(domains: seq<PlanInput>, shards: seq<PlannedShard>, groups: seq<int>)
    requires IsPlanWith(domains, shards, groups)
    ensures var n, rest := |groups|, Members(domains, None);
            shards == shards[..n] + (if rest == [] && n > 0 then [] else [PlannedShard(n, rest, None)])
  {
  }

  /** The shards partition the input: every domain is planned exactly as often as it was given. */
  lemma PlanIsAPartition(domains: seq<PlanInput>, shards: seq<PlannedShard>)
    requires IsPlan(domains, shards)
    ensures multiset(Flatten(shards)) == multiset(Ids(domains))
  {
    var groups :| IsPlanWith(domains, shards, groups);
    var n := |groups|;
    FlattenGroups(domains, shards, groups, n);
    SpreadCovers(domains, groups);
    assert groups[..n] == groups;
    FlattenPlan(domains, shards, groups);
  }

  lemma FlattenPlan(domains: seq<PlanInput>, shards: seq<PlannedShard>, groups: seq<int>)
    requires IsPlanWith(domains, shards, groups)
    ensures multiset(Flatten(shards)) == multiset(Flatten(shards[..|groups|])) + multiset(Members(domains, None))
  {
    var front, rest := shards[..|groups|], Members(domains, None);
    PlanTail(domains, shards, groups);
    if rest == [] && |groups| > 0 {
      assert front == shards;
    } else {
      FlattenSnoc(front, PlannedShard(|groups|, rest, None));
    }
  }

  lemma FlattenSnoc(shards: seq<PlannedShard>, sh: PlannedShard)
    ensures multiset(Flatten(shards + [sh])) == multiset(Flatten(shards)) + multiset(sh.domains)
  {
    assert (shards + [sh])[..|shards|] == shards;
  }

  /** Shard indices count up from 0, host groups strictly ascend, and a shard without a host group
      can only be the last one. */
  lemma PlanIsOrdered(domains: seq<PlanInput>, shards: seq<PlannedShard>)
    requires IsPlan(domains, shards)
    ensures shards != []
    ensures forall i :: 0 <= i < |shards| ==> shards[i].index == i && (shards[i].hostGroup.None? ==> i == |shards| - 1)
    ensures forall i, j :: 0 <= i < j < |shards| && shards[j].hostGroup.Some? ==>
              shards[i].hostGroup.Some? && shards[i].hostGroup.value < shards[j].hostGroup.value
    ensures forall i :: 0 <= i < |shards| ==> shards[i].domains == Members(domains, shards[i].hostGroup)
  {
    var groups :| IsPlanWith(domains, shards, groups);
    var n := |groups|;
    if Members(domains, None) != [] || n == 0 {
      assert shards[n..][0] == shards[n];
    }
  }

  lemma {:induction false} OccurringGroupHasMembers(domains: seq<PlanInput>, d: PlanInput)
    requires d in domains
    ensures Members(domains, GroupOf(d)) != []
  {
    var n := |domains| - 1;
    if domains[n] != d {
      OccurringGroupHasMembers(domains[..n], d);
    }
  }

  /** A plan of at least one domain has no empty shard. */
  lemma PlanHasNoEmptyShard(domains: seq<PlanInput>, shards: seq<PlannedShard>)
    requires IsPlan(domains, shards) && domains != []
    ensures forall i :: 0 <= i < |shards| ==> shards[i].domains != []
  {
    var groups :| IsPlanWith(domains, shards, groups);
    OccurringGroupHasMembers(domains, domains[0]);
    assert GroupOf(domains[0]).Some? ==> GroupOf(domains[0]).value in GroupSet(domains);
    forall i | 0 <= i < |shards|
      ensures shards[i].domains != []
    {
      if i < |groups| {
        assert groups[i] in groups;
        var d :| d in domains && GroupOf(d) == Some(groups[i]);
        OccurringGroupHasMembers(domains, d);
      } else {
        assert |groups| < |shards| ==> shards[|groups|] == shards[|groups|..][0];
      }
    }
  }

  lemma {:induction false} AscendingIsUnique(xs: seq<int>, ys: seq<int>)
    requires Ascending(xs) && Ascending(ys)
    requires forall x :: x in xs <==> x in ys
    ensures xs == ys
    decreases |xs|
  {
    assert ys == [] || ys[0] in ys;
    if xs != [] {
      assert xs[0] in xs && ys != [];
      assert xs[0] == ys[0];
      assert xs == [xs[0]] + xs[1..] && ys == [ys[0]] + ys[1..];
      assert xs[0] !in xs[1..] && ys[0] !in ys[1..];
      assert forall x :: x in xs[1..] <==> x in xs && x != xs[0];
      assert forall x :: x in ys[1..] <==> x in ys && x != ys[0];
      AscendingIsUnique(xs[1..], ys[1..]);
    }
  }

  /** The plan is a function of the input: map order cannot show through. */
  lemma PlanIsDeterministic(domains: seq<PlanInput>, p: seq<PlannedShard>, q: seq<PlannedShard>)
    requires IsPlan(domains, p) && IsPlan(domains, q)
    ensures p == q
  {
    var gp :| IsPlanWith(domains, p, gp);
    var gq :| IsPlanWith(domains, q, gq);
    AscendingIsUnique(gp, gq);
    var n := |gp|;
    assert p == p[..n] + p[n..] && q == q[..n] + q[n..];
    assert p[..n] == q[..n];
  }
}
