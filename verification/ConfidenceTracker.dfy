/**
 The confidence tracker (internal/gfw/confidence.go): one small state per domain,
 updated by every observation, against the history it summarises.

 Scores are percentages.  A blocking type is its text; the empty text means the
 domain was accessible.
 */
module ConfidenceTracker {
  import opened Collections

  type Node = string

  /** count, unique_nodes and last_blocking of the stored state. */
  datatype Confidence = Confidence(count: nat, nodes: seq<Node>, last: string)

  const FRESH := Confidence(0, [], "")

  /** The distinct texts in first-seen order. */
  function Unique(xs: seq<Node>): seq<Node> {
    if xs == [] then []
    else
      var rest := Unique(xs[..|xs| - 1]);
      if xs[|xs| - 1] in rest then rest else rest + [xs[|xs| - 1]]
  }

  lemma {:induction false} UniqueFacts(xs: seq<Node>)
    ensures Distinct(Unique(xs))
    ensures forall x :: x in Unique(xs) <==> x in xs
  {
    if xs != [] {
      UniqueFacts(xs[..|xs| - 1]);
      assert xs == xs[..|xs| - 1] + [xs[|xs| - 1]];
    }
  }

  /** The entries stand in the order they are first seen: more input never changes what came before. */
  lemma {:induction false} UniqueGrows(xs: seq<Node>, n: nat)
    requires n <= |xs|
    ensures Unique(xs[..n]) <= Unique(xs)
  {
    if n < |xs| {
      UniqueGrows(xs[..|xs| - 1], n);
      assert xs[..|xs| - 1][..n] == xs[..n];
    } else {
      assert xs[..n] == xs;
    }
  }

  /** Deduplicating an already distinct list with one more entry. */
  lemma {:induction false} UniqueOfDistinct(xs: seq<Node>)
    requires Distinct(xs)
    ensures Unique(xs) == xs
  {
    if xs != [] {
      UniqueOfDistinct(xs[..|xs| - 1]);
      assert xs == xs[..|xs| - 1] + [xs[|xs| - 1]];
    }
  }

  /** Deduplicating again after every append changes nothing. */
  lemma UniqueAppend(xs: seq<Node>, x: Node)
    ensures Unique(Unique(xs) + [x]) == Unique(xs + [x])
  {
    var u := Unique(xs);
    UniqueFacts(xs);
    UniqueOfDistinct(u);
    assert (u + [x])[..|u|] == u && (xs + [x])[..|xs|] == xs;
  }

  method UniqueStrings(xs: seq<Node>) returns (out: seq<Node>)
    ensures out == Unique(xs)
  {
    var seen := {};
    out := [];
    for i := 0 to |xs|
      invariant out == Unique(xs[..i])
      invariant forall x :: x in seen <==> x in out
    {
      assert xs[..i + 1][..i] == xs[..i];
      if xs[i] !in seen {
        seen := seen + {xs[i]};
        out := out + [xs[i]];
      }
    }
    assert xs[..|xs|] == xs;
  }

  function ScoreFromState(s: Confidence): nat {
    var nodes := |Unique(s.nodes)|;
    if s.count >= 3 && nodes >= 2 then 90
    else if nodes >= 2 then 70
    else if s.count >= 2 then 50
    else if s.count >= 1 then 30
    else 0
  }

  function Observed(s: Confidence, node: Node, blocking: string): Confidence {
    if blocking == "" then FRESH
    else
      var kept := if blocking != s.last && s.last != "" then 0 else s.count;
      Confidence(kept + 1, Unique(s.nodes + [node]), blocking)
  }

  type Store = map<int, Confidence>

  function Load(store: Store, domain: int): Confidence {
    if domain in store then store[domain] else FRESH
  }

  /** Tracker calls, and the expiry of a stored state. */
  datatype Call =
    | Record(domain: int, node: Node, blocking: string)
    | Reset(domain: int)
    | Expire(domain: int)

  function Step(store: Store, c: Call): Store {
    match c
    case Record(d, node, blocking) => store[d := Observed(Load(store, d), node, blocking)]
    case Reset(d) => store - {d}
    case Expire(d) => store - {d}
  }

  function Run(calls: seq<Call>): Store {
    if calls == [] then map[] else Step(Run(calls[..|calls| - 1]), calls[|calls| - 1])
  }

  class MemoryTracker {
    var store: Store

    constructor ()
      ensures store == Run([])
    {
      store := map[];
    }

    method Record(domain: int, node: Node, blocking: string) returns (score: nat)
      modifies this
      ensures store == Step(old(store), Call.Record(domain, node, blocking))
      ensures score == ScoreFromState(Load(store, domain))
    {
      var s := Load(store, domain);
      ghost var was := s;
      if blocking == "" {
        s := FRESH;
      } else {
        if blocking != s.last && s.last != "" {
          s := s.(count := 0);
        }
        var nodes := UniqueStrings(s.nodes + [node]);
        s := Confidence(s.count + 1, nodes, blocking);
      }
      assert s == Observed(was, node, blocking);
      store := store[domain := s];
      return ScoreFromState(s);
    }

    method Score(domain: int) returns (score: nat)
      ensures score == ScoreFromState(Load(store, domain))
    {
      return ScoreFromState(Load(store, domain));
    }

    method Reset(domain: int)
      modifies this
      ensures store == Step(old(store), Call.Reset(domain))
    {
      store := store - {domain};
    }
  }

  // ── The history ────────────────────────────────────────────────────────────

  datatype Observation = Observation(node: Node, blocking: string)

  /** The call ends a domain's history: a reset, an expiry or an accessible observation. */
  predicate Clears(c: Call, domain: int) {
    c.domain == domain && (c.Reset? || c.Expire? || c.blocking == "")
  }

  /** Where the history of a domain starts: just after the last call that cleared it. */
  function Start(calls: seq<Call>, domain: int): (n: nat)
    ensures n <= |calls|
    ensures n > 0 ==> Clears(calls[n - 1], domain)
    ensures forall i :: n <= i < |calls| ==> !Clears(calls[i], domain)
  {
    if calls == [] then 0
    else if Clears(calls[|calls| - 1], domain) then |calls|
    else Start(calls[..|calls| - 1], domain)
  }

  /** The blocking observations of one domain among the given calls. */
  function About(calls: seq<Call>, domain: int): seq<Observation> {
    if calls == [] then []
    else
      var c := calls[|calls| - 1];
      About(calls[..|calls| - 1], domain)
      + (if c.Record? && c.domain == domain && c.blocking != "" then [Observation(c.node, c.blocking)] else [])
  }

  /** The blocking observations of a domain since it was last cleared. */
  function Since(calls: seq<Call>, domain: int): seq<Observation> {
    About(calls[Start(calls, domain)..], domain)
  }

  function Reporters(obs: seq<Observation>): seq<Node> {
    seq(|obs|, i requires 0 <= i < |obs| => obs[i].node)
  }

  /** `k` is the length of the longest suffix of one blocking type. */
  predicate IsStreak(obs: seq<Observation>, k: nat) {
    && k <= |obs|
    && (obs != [] ==> k >= 1)
    && (forall i :: |obs| - k <= i < |obs| ==> obs[i].blocking == obs[|obs| - 1].blocking)
    && (k < |obs| ==> obs[|obs| - k - 1].blocking != obs[|obs| - 1].blocking)
  }

  /** The state a history stands for. */
  predicate Summarises(s: Confidence, obs: seq<Observation>) {
    && IsStreak(obs, s.count)
    && s.nodes == Unique(Reporters(obs))
    && s.last == (if obs == [] then "" else obs[|obs| - 1].blocking)
    && (forall o :: o in obs ==> o.blocking != "")
  }

  lemma StreakExtends(obs: seq<Observation>, k: nat, o: Observation)
    requires IsStreak(obs, k)
    ensures IsStreak(obs + [o], 1 + if obs != [] && o.blocking != obs[|obs| - 1].blocking then 0 else k)
  {
    var all := obs + [o];
    assert forall i :: 0 <= i < |obs| ==> all[i] == obs[i];
  }

  lemma ReportersExtend(obs: seq<Observation>, o: Observation)
    ensures Unique(Unique(Reporters(obs)) + [o.node]) == Unique(Reporters(obs + [o]))
  {
    UniqueAppend(Reporters(obs), o.node);
    assert Reporters(obs + [o]) == Reporters(obs) + [o.node];
  }

  lemma ObservationExtends(s: Confidence, obs: seq<Observation>, node: Node, blocking: string)
    requires Summarises(s, obs) && blocking != ""
    ensures Summarises(Observed(s, node, blocking), obs + [Observation(node, blocking)])
  {
    var o, s' := Observation(node, blocking), Observed(s, node, blocking);
    ReportersExtend(obs, o);
    assert obs != [] ==> obs[|obs| - 1] in obs;
    assert s'.count == 1 + if obs != [] && blocking != obs[|obs| - 1].blocking then 0 else s.count;
    StreakExtends(obs, s.count, o);
  }

  lemma SinceStep(calls: seq<Call>, c: Call, domain: int)
    ensures Since(calls + [c], domain) ==
            if Clears(c, domain) then []
            else if c.domain == domain then Since(calls, domain) + [Observation(c.node, c.blocking)]
            else Since(calls, domain)
  {
    var all := calls + [c];
    assert all[..|calls|] == calls;
    var n := Start(all, domain);
    if !Clears(c, domain) {
      assert n == Start(calls, domain);
      var part := all[n..];
      assert part[..|part| - 1] == calls[n..];
      assert part[|part| - 1] == c;
    }
  }

  /** After any calls, a domain's state is the summary of its own history since it was last cleared:
      the length of the last same-type streak, the distinct reporters in first-seen order, and the last type. */
  lemma {:induction false} TrackerRefinesHistory(calls: seq<Call>, domain: int)
    ensures Summarises(Load(Run(calls), domain), Since(calls, domain))
  {
    if calls != [] {
      var before, c := calls[..|calls| - 1], calls[|calls| - 1];
      assert calls == before + [c];
      TrackerRefinesHistory(before, domain);
      SinceStep(before, c, domain);
      if c.Record? && c.domain == domain && c.blocking != "" {
        ObservationExtends(Load(Run(before), domain), Since(before, domain), c.node, c.blocking);
      }
    }
  }

  /** Calls about other domains leave a domain's state alone. */
  lemma {:induction false} OtherDomainsUntouched(calls: seq<Call>, more: seq<Call>, domain: int)
    requires forall c :: c in more ==> c.domain != domain
    ensures Load(Run(calls + more), domain) == Load(Run(calls), domain)
  {
    if more == [] {
      assert calls + more == calls;
    } else {
      var n := |more| - 1;
      OtherDomainsUntouched(calls, more[..n], domain);
      assert (calls + more)[..|calls| + n] == calls + more[..n];
      assert more[n] in more;
    }
  }

  /** At least two different nodes have reported. */
  predicate TwoReporters(obs: seq<Observation>) {
    exists i, j :: 0 <= i < j < |obs| && obs[i].node != obs[j].node
  }

  /** The last three observations have one type. */
  predicate ThreeAlike(obs: seq<Observation>) {
    && |obs| >= 3
    && obs[|obs| - 3].blocking == obs[|obs| - 1].blocking
    && obs[|obs| - 2].blocking == obs[|obs| - 1].blocking
  }

  lemma {:induction false} TwoReportersCount(obs: seq<Observation>)
    ensures |Unique(Reporters(obs))| >= 2 <==> TwoReporters(obs)
  {
    var rs := Reporters(obs);
    var us := Unique(rs);
    UniqueFacts(rs);
    if |us| >= 2 {
      assert us[0] in rs && us[1] in rs;
      var i :| 0 <= i < |rs| && rs[i] == us[0];
      var j :| 0 <= j < |rs| && rs[j] == us[1];
      assert obs[i].node != obs[j].node;
      assert i < j || j < i;
    }
    if i, j :| 0 <= i < j < |obs| && obs[i].node != obs[j].node {
      assert rs[i] in us && rs[j] in us;
      var a :| 0 <= a < |us| && us[a] == rs[i];
      var b :| 0 <= b < |us| && us[b] == rs[j];
      assert a != b;
    }
  }

  /** The last two observations have one type. */
  predicate TwoAlike(obs: seq<Observation>) {
    |obs| >= 2 && obs[|obs| - 2].blocking == obs[|obs| - 1].blocking
  }

  lemma StreakLengths(obs: seq<Observation>, k: nat)
    requires IsStreak(obs, k)
    ensures k >= 1 <==> obs != []
    ensures k >= 2 <==> TwoAlike(obs)
    ensures k >= 3 <==> ThreeAlike(obs)
  {
    if k < |obs| {
      assert obs[|obs| - k - 1].blocking != obs[|obs| - 1].blocking;
    }
  }

  lemma ReporterCount(s: Confidence, obs: seq<Observation>)
    requires s.nodes == Unique(Reporters(obs))
    ensures |Unique(s.nodes)| >= 2 <==> TwoReporters(obs)
  {
    UniqueFacts(Reporters(obs));
    UniqueOfDistinct(s.nodes);
    TwoReportersCount(obs);
  }

  lemma SummaryScore(s: Confidence, obs: seq<Observation>)
    requires Summarises(s, obs)
    ensures ScoreFromState(s) ==
            if TwoReporters(obs) then (if ThreeAlike(obs) then 90 else 70)
            else if TwoAlike(obs) then 50
            else if obs != [] then 30
            else 0
  {
    ReporterCount(s, obs);
    StreakLengths(obs, s.count);
  }

  /** What each score says about the history, exactly. */
  lemma ScoreMeans(calls: seq<Call>, domain: int)
    ensures var score, obs := ScoreFromState(Load(Run(calls), domain)), Since(calls, domain);
            && (score >= 70 <==> TwoReporters(obs))
            && (score == 90 <==> TwoReporters(obs) && ThreeAlike(obs))
            && (score <= 30 <==> !TwoReporters(obs) && !TwoAlike(obs))
            && (score == 0 <==> obs == [])
            && score == if TwoReporters(obs) then (if ThreeAlike(obs) then 90 else 70)
                        else if TwoAlike(obs) then 50 else if obs != [] then 30 else 0
  {
    TrackerRefinesHistory(calls, domain);
    SummaryScore(Load(Run(calls), domain), Since(calls, domain));
  }

  lemma {:induction false} HistoryOnlyGrows(calls: seq<Call>, more: seq<Call>, domain: int)
    requires forall c :: c in more ==> !Clears(c, domain)
    ensures Since(calls, domain) <= Since(calls + more, domain)
  {
    if more == [] {
      assert calls + more == calls;
    } else {
      var n := |more| - 1;
      HistoryOnlyGrows(calls, more[..n], domain);
      assert calls + more == calls + more[..n] + [more[n]];
      assert more[n] in more;
      SinceStep(calls + more[..n], more[n], domain);
    }
  }

  /** Once two nodes have reported, the score stays at 70 or more until the domain is cleared. */
  lemma CorroborationLasts(calls: seq<Call>, more: seq<Call>, domain: int)
    requires ScoreFromState(Load(Run(calls), domain)) >= 70
    requires forall c :: c in more ==> !Clears(c, domain)
    ensures ScoreFromState(Load(Run(calls + more), domain)) >= 70
  {
    ScoreMeans(calls, domain);
    ScoreMeans(calls + more, domain);
    HistoryOnlyGrows(calls, more, domain);
  }
}
