/**
 The evidence behind blocking alerts, told by what happened to a domain rather than by
 what the tracker remembers.  The two differ when an accessible verdict is stored but
 its tracker call fails: the tracker then keeps reports from before the verdict.
 */
module VerdictEvidence {
  import opened Wrappers
  import opened BlockingAnalyzer
  import opened VerdictPipeline
  import T = ConfidenceTracker
  import A = AlertEngine

  // ── The history of events ──────────────────────────────────────────────────

  /** An accessible analysis of the domain, recorded or not, or the loss of its tracker state. */
  ghost predicate Ends(asn: AsnDatabase, e: Event, domain: nat) {
    match e
    case Analyze(a) => a.domain == domain && a.probe.Some? && Blocking(asn, a) == ""
    case Clear(d) => d == domain
    case Other(_) => false
  }

  /** The recorded blocking report an event makes about the domain. */
  ghost function ReportOf(asn: AsnDatabase, e: Event, domain: nat): seq<T.Observation> {
    if e.Analyze? && e.a.domain == domain && e.a.probe.Some? && e.a.recordOk && Blocking(asn, e.a) != ""
    then [T.Observation(e.a.probe.value.node, Blocking(asn, e.a))]
    else []
  }

  /** The recorded reports since the last accessible analysis or loss of state. */
  ghost function Recent(asn: AsnDatabase, events: seq<Event>, domain: nat): seq<T.Observation> {
    if events == [] then []
    else
      var n := |events| - 1;
      if Ends(asn, events[n], domain) then [] else Recent(asn, events[..n], domain) + ReportOf(asn, events[n], domain)
  }

  /** What the tracker still remembered just after that analysis or loss. */
  ghost function Leftover(asn: AsnDatabase, events: seq<Event>, domain: nat): seq<T.Observation> {
    if events == [] then []
    else
      var n := |events| - 1;
      if Ends(asn, events[n], domain) then T.Since(Log(asn, events), domain) else Leftover(asn, events[..n], domain)
  }

  lemma LogStep(asn: AsnDatabase, log: seq<T.Call>, e: Event, domain: nat)
    requires !Ends(asn, e, domain)
    ensures T.Since(log + CallOf(asn, e), domain) == T.Since(log, domain) + ReportOf(asn, e, domain)
  {
    var calls := CallOf(asn, e);
    if calls == [] {
      assert log + calls == log;
    } else {
      assert calls == [calls[0]];
      T.SinceStep(log, calls[0], domain);
    }
  }

  /** The tracker remembers the leftover and the recent reports. */
  lemma {:induction false} MemorySplits(asn: AsnDatabase, events: seq<Event>, domain: nat)
    ensures T.Since(Log(asn, events), domain) == Leftover(asn, events, domain) + Recent(asn, events, domain)
  {
    if events != [] {
      var n := |events| - 1;
      MemorySplits(asn, events[..n], domain);
      if !Ends(asn, events[n], domain) {
        LogStep(asn, Log(asn, events[..n]), events[n], domain);
      }
    }
  }

  /** Exactly when an event that ends the evidence leaves something over: its tracker call failed and a report was
      still remembered. */
  lemma LeftoverExactly(asn: AsnDatabase, events: seq<Event>, e: Event, domain: nat)
    requires Ends(asn, e, domain)
    ensures Leftover(asn, events + [e], domain) == [] <==>
            e.Clear? || e.a.recordOk || T.Since(Log(asn, events), domain) == []
  {
    assert (events + [e])[..|events|] == events;
    var log, calls := Log(asn, events), CallOf(asn, e);
    if calls == [] {
      assert log + calls == log;
    } else {
      assert calls == [calls[0]];
      T.SinceStep(log, calls[0], domain);
    }
  }

  // ── A stale report can complete an alert ───────────────────────────────────

  lemma MoreReporters(obs: seq<T.Observation>, more: seq<T.Observation>)
    requires T.TwoReporters(obs)
    ensures T.TwoReporters(more + obs) && T.TwoReporters(obs + more)
  {
    var i, j :| 0 <= i < j < |obs| && obs[i].node != obs[j].node;
    assert (more + obs)[|more| + i] == obs[i] && (more + obs)[|more| + j] == obs[j];
    assert (obs + more)[i] == obs[i] && (obs + more)[j] == obs[j];
  }

  /** The analysis inserts an alert although fewer than two nodes have reported since the last accessible analysis. */
  ghost predicate FiresUnbacked(asn: AsnDatabase, events: seq<Event>, a: Analysis) {
    && a.probe.Some?
    && |Next(asn, Run(asn, events), Analyze(a)).table.alerts| == |Run(asn, events).table.alerts| + 1
    && !T.TwoReporters(Recent(asn, events + [Analyze(a)], a.domain))
  }

  /** Every reporter left over has reported again since. */
  predicate Covered(leftover: seq<T.Observation>, recent: seq<T.Observation>) {
    forall i :: 0 <= i < |leftover| ==> Reported(recent, leftover[i].node)
  }

  predicate Reported(obs: seq<T.Observation>, node: string) {
    exists i :: 0 <= i < |obs| && obs[i].node == node
  }

  /** The leftover cannot complete an alert on its own. */
  ghost predicate Backed(asn: AsnDatabase, events: seq<Event>, domain: nat) {
    var recent := Recent(asn, events, domain);
    T.TwoReporters(recent) || Covered(Leftover(asn, events, domain), recent)
  }

  lemma RecentAfterReport(asn: AsnDatabase, events: seq<Event>, a: Analysis)
    requires a.probe.Some? && a.recordOk && Blocking(asn, a) != ""
    ensures Recent(asn, events + [Analyze(a)], a.domain)
         == Recent(asn, events, a.domain) + [T.Observation(a.probe.value.node, Blocking(asn, a))]
    ensures Leftover(asn, events + [Analyze(a)], a.domain) == Leftover(asn, events, a.domain)
  {
    assert (events + [Analyze(a)])[..|events|] == events;
  }

  /** A covered leftover brings no reporter of its own. */
  lemma CoveredAddsNobody(leftover: seq<T.Observation>, recent: seq<T.Observation>, o: T.Observation)
    requires Covered(leftover, recent) && T.TwoReporters(leftover + (recent + [o]))
    ensures T.TwoReporters(recent + [o])
  {
    var all, newer := leftover + (recent + [o]), recent + [o];
    var i, j :| 0 <= i < j < |all| && all[i].node != all[j].node;
    var x := InFresh(leftover, recent, o, i);
    var y := InFresh(leftover, recent, o, j);
    assert newer[x].node != newer[y].node;
    assert x < y || y < x;
  }

  lemma InFresh(leftover: seq<T.Observation>, recent: seq<T.Observation>, o: T.Observation, i: nat) returns (x: nat)
    requires Covered(leftover, recent) && i < |leftover + (recent + [o])|
    ensures x < |recent + [o]| && (recent + [o])[x].node == (leftover + (recent + [o]))[i].node
  {
    if i < |leftover| {
      assert Reported(recent, leftover[i].node);
      x :| 0 <= x < |recent| && recent[x].node == leftover[i].node;
    } else {
      x := i - |leftover|;
    }
  }

  lemma BackedNeverFiresUnbacked(asn: AsnDatabase, events: seq<Event>, a: Analysis)
    requires Backed(asn, events, a.domain)
    ensures !FiresUnbacked(asn, events, a)
  {
    if FiresUnbacked(asn, events, a) {
      AnalysisFiresExactly(asn, events, a);
      RecentAfterReport(asn, events, a);
      MemorySplits(asn, events + [Analyze(a)], a.domain);
      var leftover, recent := Leftover(asn, events, a.domain), Recent(asn, events, a.domain);
      var o := T.Observation(a.probe.value.node, Blocking(asn, a));
      if T.TwoReporters(recent) {
        MoreReporters(recent, [o]);
      } else {
        CoveredAddsNobody(leftover, recent, o);
      }
    }
  }

  /** A time at which no alert of the table is young enough to suppress another. */
  lemma {:induction false} LateEnough(alerts: seq<A.Alert>) returns (t: int)
    ensures forall i :: 0 <= i < |alerts| ==> alerts[i].createdAt <= t - A.DEDUP_WINDOW
  {
    if alerts == [] {
      t := 0;
    } else {
      var n := |alerts| - 1;
      var before := LateEnough(alerts[..n]);
      t := if before < alerts[n].createdAt + A.DEDUP_WINDOW then alerts[n].createdAt + A.DEDUP_WINDOW else before;
      assert forall i :: 0 <= i < n ==> alerts[i] == alerts[..n][i];
    }
  }

  /** A stored, uncontrolled report by a node, checked late enough to be inserted. */
  function LateReport(domain: nat, node: string, t: int): Analysis {
    var a := Uncontrolled(domain, node, true);
    a.(fire := a.fire.(checkedAt := t, insertedAt := t))
  }

  lemma LateReportInserts(asn: AsnDatabase, events: seq<Event>, domain: nat, node: string, t: int)
    requires forall i :: 0 <= i < |Run(asn, events).table.alerts| ==> Run(asn, events).table.alerts[i].createdAt <= t - A.DEDUP_WINDOW
    requires T.TwoReporters(T.Since(Log(asn, events), domain) + [T.Observation(node, DNS)])
    ensures var a := LateReport(domain, node, t);
            && Blocking(asn, a) == DNS
            && |Next(asn, Run(asn, events), Analyze(a)).table.alerts| == |Run(asn, events).table.alerts| + 1
  {
    var a := LateReport(domain, node, t);
    assert Blocking(asn, a) == DNS;
    RecordExtendsHistory(asn, events, a);
    AnalysisFiresExactly(asn, events, a);
  }

  /** The node that makes an uncovered leftover complete an alert without two recent reporters. */
  lemma UnbackedNode(leftover: seq<T.Observation>, recent: seq<T.Observation>) returns (node: string)
    requires !T.TwoReporters(recent) && !Covered(leftover, recent)
    ensures T.TwoReporters(leftover + recent + [T.Observation(node, DNS)])
    ensures !T.TwoReporters(recent + [T.Observation(node, DNS)])
  {
    var i :| 0 <= i < |leftover| && !Reported(recent, leftover[i].node);
    node := if recent == [] then leftover[i].node + "x" else recent[0].node;
    var o := T.Observation(node, DNS);
    var all := leftover + recent + [o];
    assert all[i].node != all[|leftover| + |recent|].node by {
      assert recent != [] ==> recent[0].node != leftover[i].node;
      assert |leftover[i].node + "x"| != |leftover[i].node|;
    }
    assert forall j :: 0 <= j < |recent| ==> recent[j].node == recent[0].node by {
      if j :| 0 < j < |recent| && recent[j].node != recent[0].node {
        assert T.TwoReporters(recent);
      }
    }
  }

  /** A report that completes two reporters in the tracker's memory but not among the recent ones. */
  lemma UnbackedReport(asn: AsnDatabase, events: seq<Event>, domain: nat, node: string) returns (report: Analysis)
    requires T.TwoReporters(Leftover(asn, events, domain) + Recent(asn, events, domain) + [T.Observation(node, DNS)])
    requires !T.TwoReporters(Recent(asn, events, domain) + [T.Observation(node, DNS)])
    ensures FiresUnbacked(asn, events, report) && report.domain == domain
    ensures report.probe.Some? && report.probe.value.node == node
  {
    MemorySplits(asn, events, domain);
    var t := LateEnough(Run(asn, events).table.alerts);
    LateReportInserts(asn, events, domain, node, t);
    report := LateReport(domain, node, t);
    RecentAfterReport(asn, events, report);
  }

  /** Exactly when the next alert of a domain may lack two reporters since the last accessible analysis: the tracker
      holds a report from before it, by a node that has not reported since, and no two nodes have. */
  lemma UnbackedAlertsExactly(asn: AsnDatabase, events: seq<Event>, domain: nat)
    ensures Backed(asn, events, domain) <==> forall a: Analysis :: a.domain == domain ==> !FiresUnbacked(asn, events, a)
  {
    if Backed(asn, events, domain) {
      forall a: Analysis | a.domain == domain
        ensures !FiresUnbacked(asn, events, a)
      {
        BackedNeverFiresUnbacked(asn, events, a);
      }
    } else {
      var node := UnbackedNode(Leftover(asn, events, domain), Recent(asn, events, domain));
      var report := UnbackedReport(asn, events, domain, node);
    }
  }

  // ── The theorem over whole runs ────────────────────────────────────────────

  /** Every accessible analysis of the run was recorded, or found nothing remembered about its domain. */
  ghost predicate CleanEnds(asn: AsnDatabase, events: seq<Event>) {
    forall n :: 0 <= n < |events| ==> CleanEnd(asn, events, n)
  }

  ghost predicate CleanEnd(asn: AsnDatabase, events: seq<Event>, n: nat)
    requires n < |events|
  {
    var e := events[n];
    e.Analyze? && e.a.probe.Some? && Blocking(asn, e.a) == "" ==>
      e.a.recordOk || T.Since(Log(asn, events[..n]), e.a.domain) == []
  }

  lemma {:induction false} CleanEndsLeaveNothing(asn: AsnDatabase, events: seq<Event>, n: nat, domain: nat)
    requires CleanEnds(asn, events) && n <= |events|
    ensures Leftover(asn, events[..n], domain) == []
  {
    if n > 0 {
      var front, e := events[..n - 1], events[n - 1];
      CleanEndsLeaveNothing(asn, events, n - 1, domain);
      assert events[..n] == front + [e];
      assert events[..n][..n - 1] == front;
      assert CleanEnd(asn, events, n - 1);
      if Ends(asn, e, domain) {
        LeftoverExactly(asn, front, e, domain);
      }
    }
  }

  /** The evidence of an alert at the level of events: after the first `n` events at least two nodes have reported
      blocking since the last accessible analysis or loss of state; P1 exactly when the last three reports agree with
      the current type. */
  ghost predicate Backs(asn: AsnDatabase, events: seq<Event>, n: nat, domain: nat, severity: string) {
    && 0 < n <= |events|
    && events[n - 1].Analyze? && events[n - 1].a.domain == domain && events[n - 1].a.probe.Some?
    && (var obs, a := Recent(asn, events[..n], domain), events[n - 1].a;
        && T.TwoReporters(obs)
        && obs[|obs| - 1] == T.Observation(a.probe.value.node, Blocking(asn, a))
        && severity == (if T.ThreeAlike(obs) then "P1" else "P2"))
  }

  lemma JustifiedIsBacked(asn: AsnDatabase, events: seq<Event>, n: nat, domain: nat, severity: string)
    requires CleanEnds(asn, events) && Justified(asn, events, n, domain, severity)
    ensures Backs(asn, events, n, domain, severity)
  {
    AllIsRecent(asn, events, n, domain);
  }

  lemma AllIsRecent(asn: AsnDatabase, events: seq<Event>, n: nat, domain: nat)
    requires CleanEnds(asn, events) && n <= |events|
    ensures T.Since(Log(asn, events[..n]), domain) == Recent(asn, events[..n], domain)
  {
    CleanEndsLeaveNothing(asn, events, n, domain);
    MemorySplits(asn, events[..n], domain);
    assert Leftover(asn, events[..n], domain) + Recent(asn, events[..n], domain) == Recent(asn, events[..n], domain);
  }

  /** Over every run whose accessible analyses were recorded whenever a report was remembered, each blocking alert had
      two nodes reporting since the domain's last accessible analysis. */
  lemma EveryBlockingAlertIsBacked(asn: AsnDatabase, events: seq<Event>, i: nat, domain: nat) returns (n: nat)
    requires IsHistory(events) && CleanEnds(asn, events)
    requires i < |Run(asn, events).table.alerts| && Run(asn, events).table.alerts[i].key == Some(Key(domain))
    ensures Backs(asn, events, n, domain, Run(asn, events).table.alerts[i].severity)
  {
    EveryBlockingAlertIsJustified(asn, events);
    var alerts := Run(asn, events).table.alerts;
    n := JustifiedBy(asn, events, alerts, i, domain);
    JustifiedIsBacked(asn, events, n, domain, alerts[i].severity);
  }

  lemma JustifiedBy(asn: AsnDatabase, events: seq<Event>, alerts: seq<A.Alert>, i: nat, domain: nat) returns (n: nat)
    requires AllJustified(asn, events, alerts) && i < |alerts| && alerts[i].key == Some(Key(domain))
    ensures Justified(asn, events, n, domain, alerts[i].severity)
  {
    n :| Justified(asn, events, n, domain, alerts[i].severity);
  }

  // ── The input that shows it ────────────────────────────────────────────────

  /** An accessible verdict that is stored while its tracker call fails. */
  function UnrecordedAccess(domain: nat, node: string): Analysis {
    var a := Uncontrolled(domain, node, true);
    a.(probe := Some(Measurement(domain, node, None, [], [], None)), recordOk := false)
  }

  function StaleRun(domain: nat, a: string, node: string): seq<Event> {
    [Analyze(Uncontrolled(domain, a, false))] + [Analyze(UnrecordedAccess(domain, node))]
  }

  lemma StaleRunLeaves(asn: AsnDatabase, domain: nat, a: string, node: string)
    ensures var events := StaleRun(domain, a, node);
            && Leftover(asn, events, domain) == [T.Observation(a, DNS)] && Recent(asn, events, domain) == []
  {
    var first, access := [Analyze(Uncontrolled(domain, a, false))], Analyze(UnrecordedAccess(domain, node));
    assert [] + first == first;
    UncontrolledStep(asn, [], domain, a, false);
    assert Blocking(asn, access.a) == "";
    assert (first + [access])[..1] == first;
    assert Log(asn, first) + [] == Log(asn, first);
  }

  lemma OneOfTwo(a: string, b: string)
    requires a != b
    ensures T.TwoReporters([T.Observation(a, DNS)] + [] + [T.Observation(b, DNS)])
    ensures !T.TwoReporters([] + [T.Observation(b, DNS)])
  {
    var both := [T.Observation(a, DNS)] + [] + [T.Observation(b, DNS)];
    assert both[0].node != both[1].node;
  }

  /** One node reports, the domain is seen accessible without the tracker hearing of it, another node reports: an alert
      is inserted although one node alone has reported since. */
  lemma StaleReportCompletesAnAlert(asn: AsnDatabase, domain: nat, a: string, b: string, node: string)
    returns (report: Analysis)
    requires a != b
    ensures FiresUnbacked(asn, StaleRun(domain, a, node), report) && report.domain == domain
    ensures report.probe.Some? && report.probe.value.node == b
  {
    StaleRunLeaves(asn, domain, a, node);
    OneOfTwo(a, b);
    report := UnbackedReport(asn, StaleRun(domain, a, node), domain, b);
  }

  // ── Confidence without a control measurement ───────────────────────────────

  /** The report is the domain's first, or by the only node so far and of another type than the last. */
  predicate Isolated(obs: seq<T.Observation>, o: T.Observation) {
    && (forall i :: 0 <= i < |obs| ==> obs[i].node == o.node)
    && (obs != [] ==> obs[|obs| - 1].blocking != o.blocking)
  }

  lemma IsolatedExactly(obs: seq<T.Observation>, o: T.Observation)
    ensures Isolated(obs, o) <==> !T.TwoReporters(obs + [o]) && !T.TwoAlike(obs + [o])
  {
    var all := obs + [o];
    assert all[|obs|] == o;
    if i :| 0 <= i < |obs| && obs[i].node != o.node {
      assert all[i].node != all[|obs|].node;
    }
  }

  /** A missing control does not cap the confidence at 0.30: a recorded blocking analysis without one stays within 0.30
      exactly when no other node has reported since the tracker was cleared and the last report was not of its type. */
  lemma UncontrolledConfidenceExactly(asn: AsnDatabase, events: seq<Event>, a: Analysis)
    requires a.probe.Some? && a.control.None? && a.recordOk && Blocking(asn, a) != ""
    ensures ConfidenceOf(asn, Run(asn, events).tracker, a) <= 30 <==>
            Isolated(T.Since(Log(asn, events), a.domain), T.Observation(a.probe.value.node, Blocking(asn, a)))
  {
    FiringIsJustified(asn, events, a);
    RecordExtendsHistory(asn, events, a);
    IsolatedExactly(T.Since(Log(asn, events), a.domain), T.Observation(a.probe.value.node, Blocking(asn, a)));
  }
}
