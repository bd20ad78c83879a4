/**
 The verdict pipeline from measurement to alert (internal/gfw/verdict_service.go and
 blocking_alert.go): classify, record, classify again, store, then fire or resolve.
 */
module VerdictPipeline {
  import opened Wrappers
  import opened DecimalText
  import opened BlockingAnalyzer
  import T = ConfidenceTracker
  import A = AlertEngine

  /** The denormalised blocking columns of a domain; empty texts are stored as NULL. */
  datatype DomainRow = DomainRow(status: string, blocking: string, since: Option<int>, confidence: Option<nat>)

  datatype World = World(tracker: T.Store, table: A.Table, rows: map<nat, DomainRow>)

  const BLOCKED := "blocked"
  const POSSIBLY := "possibly_blocked"

  function Key(domain: nat): string {
    "gfw:blocked:" + Decimal(domain)
  }

  lemma KeysAreInjective(a: nat, b: nat)
    requires Key(a) == Key(b)
    ensures a == b
  {
    assert Key(a)[|"gfw:blocked:"|..] == Decimal(a) && Key(b)[|"gfw:blocked:"|..] == Decimal(b);
    DecimalIsInjective(a, b);
  }

  /** Status and severity for a confidence in percent. */
  function ClassifyBlocking(confidence: nat, blocking: string): (string, string) {
    if blocking == "" then ("", "")
    else if confidence >= 90 then (BLOCKED, "P1")
    else if confidence >= 70 then (POSSIBLY, "P2")
    else if confidence >= 30 then ("", "P3")
    else ("", "")
  }

  /** Which scores write which status and which severity goes with them. */
  lemma ThresholdsMean(confidence: nat, blocking: string)
    ensures var (status, severity) := ClassifyBlocking(confidence, blocking);
            && (status == "blocked" <==> blocking != "" && confidence >= 90)
            && (status == "possibly_blocked" <==> blocking != "" && 70 <= confidence < 90)
            && (status == "" <==> blocking == "" || confidence < 70)
            && (severity == "P1" <==> status == "blocked")
            && (severity == "P2" <==> status == "possibly_blocked")
            && (severity == "P3" <==> blocking != "" && 30 <= confidence < 70)
  {
  }

  /** One call of AnalyzeAndStore: the latest measurements and which outside steps succeed.
      `fire` carries the inputs of the alert engine; its severity and key are set by the pipeline. */
  datatype Analysis = Analysis(
    domain: nat, probe: Option<Measurement>, control: Option<Measurement>, measuredAt: int,
    recordOk: bool, persistOk: bool, statusOk: bool, resolveOk: bool, resolvedAt: int, fire: A.FireCall)

  datatype Event =
    | Analyze(a: Analysis)
    | Clear(domain: nat)
    | Other(op: A.Op)

  // ── What one event does ────────────────────────────────────────────────────

  ghost function Blocking(asn: AsnDatabase, a: Analysis): string
    requires a.probe.Some?
  {
    BlockingOf(asn, a.probe.value, a.control)
  }

  /** The tracker call an event makes, if it succeeds. */
  ghost function CallOf(asn: AsnDatabase, e: Event): seq<T.Call> {
    match e
    case Analyze(a) =>
      if a.probe.Some? && a.recordOk then [T.Record(a.domain, a.probe.value.node, Blocking(asn, a))] else []
    case Clear(d) => [T.Expire(d)]
    case Other(_) => []
  }

  ghost function TrackerAfter(asn: AsnDatabase, tracker: T.Store, e: Event): T.Store {
    var calls := CallOf(asn, e);
    if calls == [] then tracker else T.Step(tracker, calls[0])
  }

  /** The confidence of the stored verdict; zero when the tracker call failed. */
  ghost function ConfidenceOf(asn: AsnDatabase, tracker: T.Store, a: Analysis): nat {
    if a.recordOk then T.ScoreFromState(T.Load(TrackerAfter(asn, tracker, Analyze(a)), a.domain)) else 0
  }

  ghost function FireOf(a: Analysis, severity: string): A.Op {
    A.OpFire(a.fire.(severity := severity, key := Some(Key(a.domain))))
  }

  /** The alert operation an event performs, if any. */
  ghost function OpOf(asn: AsnDatabase, tracker: T.Store, e: Event): seq<A.Op> {
    match e
    case Analyze(a) =>
      if a.probe.None? || !a.persistOk then []
      else
        var blocking := Blocking(asn, a);
        var (status, severity) := ClassifyBlocking(ConfidenceOf(asn, tracker, a), blocking);
        if blocking == "" || status == "" then [A.OpResolve(Key(a.domain), a.resolvedAt, a.resolveOk)]
        else [FireOf(a, severity)]
    case Clear(_) => []
    case Other(op) => [op]
  }

  ghost function TableAfter(table: A.Table, ops: seq<A.Op>): A.Table {
    if ops == [] then table else A.Perform(table, ops[0])
  }

  ghost function RowsAfter(asn: AsnDatabase, w: World, e: Event): map<nat, DomainRow> {
    if e.Analyze? && e.a.probe.Some? && e.a.persistOk && e.a.statusOk then
      var a := e.a;
      var conf := ConfidenceOf(asn, w.tracker, a);
      var status := ClassifyBlocking(conf, Blocking(asn, a)).0;
      w.rows[a.domain := DomainRow(status, Blocking(asn, a),
                                   if status != "" then Some(a.measuredAt) else None,
                                   if status != "" then Some(conf) else None)]
    else w.rows
  }

  ghost function Next(asn: AsnDatabase, w: World, e: Event): World {
    World(TrackerAfter(asn, w.tracker, e), TableAfter(w.table, OpOf(asn, w.tracker, e)), RowsAfter(asn, w, e))
  }

  // ── The services ───────────────────────────────────────────────────────────

  class BlockingAlertService {
    const engine: A.Engine
    var rows: map<nat, DomainRow>

    constructor (engine: A.Engine)
      ensures this.engine == engine && rows == map[]
    {
      this.engine := engine;
      rows := map[];
    }

    /** Writes the domain's blocking columns, then resolves or fires. */
    method EvaluateAndAlert(v: Verdict, domain: nat, a: Analysis)
      modifies this, engine
      ensures var (status, severity) := ClassifyBlocking(v.confidence, v.blocking);
              && rows == (if a.statusOk
                          then old(rows)[domain := DomainRow(status, v.blocking,
                                                             if status != "" then Some(a.measuredAt) else None,
                                                             if status != "" then Some(v.confidence) else None)]
                          else old(rows))
              && engine.Contents() ==
                   (if v.accessible || status == ""
                    then A.Perform(old(engine.Contents()), A.OpResolve("gfw:blocked:" + Decimal(domain), a.resolvedAt, a.resolveOk))
                    else A.Fired(old(engine.Contents()), a.fire.(severity := severity, key := Some("gfw:blocked:" + Decimal(domain)))))
    {
      var key := Key(domain);
      var (status, severity) := ClassifyBlocking(v.confidence, v.blocking);
      if a.statusOk {
        rows := rows[domain := DomainRow(status, v.blocking,
                                         if status != "" then Some(a.measuredAt) else None,
                                         if status != "" then Some(v.confidence) else None)];
      }
      if v.accessible || status == "" {
        var _ := engine.Resolve(key, a.resolvedAt, a.resolveOk);
        return;
      }
      var _ := engine.Fire(a.fire.(severity := severity, key := Some(key)));
    }
  }

  class VerdictService {
    const asn: AsnDatabase
    const tracker: T.MemoryTracker
    const alerts: BlockingAlertService

    constructor (asn: AsnDatabase, tracker: T.MemoryTracker, alerts: BlockingAlertService)
      ensures this.asn == asn && this.tracker == tracker && this.alerts == alerts
    {
      this.asn, this.tracker, this.alerts := asn, tracker, alerts;
    }

    function Contents(): World
      reads tracker, alerts, alerts.engine
    {
      World(tracker.store, alerts.engine.Contents(), alerts.rows)
    }

    /** The two-pass pipeline.  The stored verdict has the blocking type that was recorded. */
    method AnalyzeAndStore(a: Analysis) returns (verdict: Option<Verdict>)
      modifies tracker, alerts, alerts.engine
      ensures Contents() == Next(asn, old(Contents()), Analyze(a))
      ensures verdict.Some? <==> a.probe.Some?
      ensures verdict.Some? ==>
                && verdict.value.blocking == Blocking(asn, a)
                && verdict.value.confidence == ConfidenceOf(asn, old(tracker.store), a)
    {
      if a.probe.None? {
        return None;
      }
      var probe := a.probe.value;
      var preliminary := Classify(asn, probe, a.control, 0);
      var confidence := 0;
      if a.recordOk {
        confidence := tracker.Record(a.domain, probe.node, preliminary.blocking);
      }
      var v := Classify(asn, probe, a.control, confidence);
      verdict := Some(v);
      if !a.persistOk {
        return;
      }
      alerts.EvaluateAndAlert(v, a.domain, a);
    }
  }

  // ── Runs ───────────────────────────────────────────────────────────────────

  /** Other callers never fire under a blocking key. */
  ghost predicate Foreign(e: Event) {
    e.Other? && e.op.OpFire? ==> forall d: nat :: e.op.call.key != Some(Key(d))
  }

  ghost predicate IsHistory(events: seq<Event>) {
    forall e :: e in events ==> Foreign(e)
  }

  ghost function Run(asn: AsnDatabase, events: seq<Event>): World {
    if events == [] then World(map[], A.Table([], []), map[])
    else Next(asn, Run(asn, events[..|events| - 1]), events[|events| - 1])
  }

  /** The tracker calls of a run. */
  ghost function Log(asn: AsnDatabase, events: seq<Event>): seq<T.Call> {
    if events == [] then [] else Log(asn, events[..|events| - 1]) + CallOf(asn, events[|events| - 1])
  }

  /** The alert operations of a run. */
  ghost function Ops(asn: AsnDatabase, events: seq<Event>): seq<A.Op> {
    if events == [] then []
    else
      var n := |events| - 1;
      Ops(asn, events[..n]) + OpOf(asn, Run(asn, events[..n]).tracker, events[n])
  }

  lemma {:induction false} LogDrivesTheTracker(asn: AsnDatabase, events: seq<Event>)
    ensures Run(asn, events).tracker == T.Run(Log(asn, events))
  {
    if events != [] {
      var n := |events| - 1;
      LogDrivesTheTracker(asn, events[..n]);
      TrackerSnoc(asn, Log(asn, events[..n]), events[n]);
    }
  }

  lemma TrackerSnoc(asn: AsnDatabase, log: seq<T.Call>, e: Event)
    ensures TrackerAfter(asn, T.Run(log), e) == T.Run(log + CallOf(asn, e))
  {
    var calls := CallOf(asn, e);
    if calls == [] {
      assert log + calls == log;
    } else {
      assert calls == [calls[0]];
      assert (log + calls)[..|log|] == log;
    }
  }

  lemma {:induction false} OpsDriveTheTable(asn: AsnDatabase, events: seq<Event>)
    ensures Run(asn, events).table == A.Run(Ops(asn, events))
  {
    if events != [] {
      var n := |events| - 1;
      OpsDriveTheTable(asn, events[..n]);
      var ops := OpOf(asn, Run(asn, events[..n]).tracker, events[n]);
      assert |ops| <= 1;
      TableSnoc(Ops(asn, events[..n]), ops);
    }
  }

  lemma TableSnoc(before: seq<A.Op>, ops: seq<A.Op>)
    requires |ops| <= 1
    ensures TableAfter(A.Run(before), ops) == A.Run(before + ops)
  {
    if ops == [] {
      assert before + ops == before;
    } else {
      assert ops == [ops[0]];
      assert (before + ops)[..|before|] == before;
    }
  }

  /** The evidence behind an alert: after the first `n` events, which end with an analysis of the domain,
      at least two nodes have reported blocking since the domain was last cleared; the severity is P1 exactly
      when the last three observations also agree with the current type. */
  ghost predicate Justified(asn: AsnDatabase, events: seq<Event>, n: nat, domain: nat, severity: string) {
    && 0 < n <= |events|
    && events[n - 1].Analyze? && events[n - 1].a.domain == domain && events[n - 1].a.probe.Some?
    && (var obs, a := T.Since(Log(asn, events[..n]), domain), events[n - 1].a;
        && T.TwoReporters(obs)
        && obs[|obs| - 1] == T.Observation(a.probe.value.node, Blocking(asn, a))
        && severity == (if T.ThreeAlike(obs) then "P1" else "P2"))
  }

  /** Every blocking alert in the table was justified when it was inserted. */
  ghost predicate AllJustified(asn: AsnDatabase, events: seq<Event>, alerts: seq<A.Alert>) {
    forall i, d: nat :: 0 <= i < |alerts| && alerts[i].key == Some(Key(d)) ==>
                          exists n :: Justified(asn, events, n, d, alerts[i].severity)
  }

  lemma JustifiedLater(asn: AsnDatabase, events: seq<Event>, e: Event, n: nat, d: nat, severity: string)
    requires Justified(asn, events, n, d, severity)
    ensures Justified(asn, events + [e], n, d, severity)
  {
    assert (events + [e])[..n] == events[..n];
  }

  /** The confidence of a recorded analysis is the tracker's score after the whole log. */
  lemma ConfidenceIsScore(asn: AsnDatabase, events: seq<Event>, a: Analysis)
    requires a.recordOk
    ensures ConfidenceOf(asn, Run(asn, events).tracker, a)
         == T.ScoreFromState(T.Load(T.Run(Log(asn, events + [Analyze(a)])), a.domain))
  {
    LogDrivesTheTracker(asn, events);
    TrackerSnoc(asn, Log(asn, events), Analyze(a));
    assert (events + [Analyze(a)])[..|events|] == events;
  }

  /** A recorded blocking analysis adds its observation to the domain's history. */
  lemma RecordExtendsHistory(asn: AsnDatabase, events: seq<Event>, a: Analysis)
    requires a.probe.Some? && a.recordOk && Blocking(asn, a) != ""
    ensures T.Since(Log(asn, events + [Analyze(a)]), a.domain)
         == T.Since(Log(asn, events), a.domain) + [T.Observation(a.probe.value.node, Blocking(asn, a))]
  {
    assert (events + [Analyze(a)])[..|events|] == events;
    T.SinceStep(Log(asn, events), T.Record(a.domain, a.probe.value.node, Blocking(asn, a)), a.domain);
  }

  /** Confidence after a successful record, in terms of the history. */
  lemma FiringIsJustified(asn: AsnDatabase, events: seq<Event>, a: Analysis)
    requires a.probe.Some? && a.recordOk && Blocking(asn, a) != ""
    ensures var obs := T.Since(Log(asn, events + [Analyze(a)]), a.domain);
            var conf := ConfidenceOf(asn, Run(asn, events).tracker, a);
            && obs != [] && obs[|obs| - 1] == T.Observation(a.probe.value.node, Blocking(asn, a))
            && (conf >= 70 <==> T.TwoReporters(obs))
            && (conf >= 90 <==> T.TwoReporters(obs) && T.ThreeAlike(obs))
            && (conf <= 30 <==> !T.TwoReporters(obs) && !T.TwoAlike(obs))
            && (conf >= 70 ==> conf in {70, 90})
  {
    ConfidenceIsScore(asn, events, a);
    RecordExtendsHistory(asn, events, a);
    T.ScoreMeans(Log(asn, events + [Analyze(a)]), a.domain);
  }

  /** The columns a stored analysis writes: "blocked" with two reporters and three observations alike, "possibly_blocked"
      with two reporters only, both with their time and confidence, and nothing for a weaker signal.  Other domains keep
      theirs. */
  lemma ColumnsMean(asn: AsnDatabase, events: seq<Event>, a: Analysis)
    requires a.probe.Some? && a.persistOk && a.statusOk
    ensures var rows, rows' := Run(asn, events).rows, Next(asn, Run(asn, events), Analyze(a)).rows;
            var obs := T.Since(Log(asn, events + [Analyze(a)]), a.domain);
            var backed := a.recordOk && Blocking(asn, a) != "" && T.TwoReporters(obs);
            && a.domain in rows' && rows' == rows[a.domain := rows'[a.domain]]
            && (var row := rows'[a.domain];
                && row.blocking == Blocking(asn, a)
                && row.status == (if !backed then "" else if T.ThreeAlike(obs) then "blocked" else "possibly_blocked")
                && row.since == (if backed then Some(a.measuredAt) else None)
                && row.confidence == if !backed then None else if T.ThreeAlike(obs) then Some(90) else Some(70))
  {
    if a.recordOk && Blocking(asn, a) != "" {
      FiringIsJustified(asn, events, a);
    }
  }

  /** A stored analysis fires exactly when it was recorded, says blocked and has a confidence of at least 70; in every
      other case, a borderline score and a failed tracker call included, it resolves. */
  lemma FiresOrResolvesExactly(asn: AsnDatabase, tracker: T.Store, a: Analysis)
    requires a.probe.Some? && a.persistOk
    ensures OpOf(asn, tracker, Analyze(a)) != [A.OpResolve(Key(a.domain), a.resolvedAt, a.resolveOk)] <==>
            a.recordOk && Blocking(asn, a) != "" && ConfidenceOf(asn, tracker, a) >= 70
  {
  }

  lemma SameAlerts(asn: AsnDatabase, events: seq<Event>, e: Event, before: seq<A.Alert>, after: seq<A.Alert>)
    requires AllJustified(asn, events, before)
    requires forall i :: 0 <= i < |after| ==> i < |before| && after[i].key == before[i].key && after[i].severity == before[i].severity
    ensures AllJustified(asn, events + [e], after)
  {
    forall i, d: nat | 0 <= i < |after| && after[i].key == Some(Key(d))
      ensures exists n :: Justified(asn, events + [e], n, d, after[i].severity)
    {
      var n :| Justified(asn, events, n, d, before[i].severity);
      JustifiedLater(asn, events, e, n, d, before[i].severity);
    }
  }

  lemma NewAlert(asn: AsnDatabase, events: seq<Event>, e: Event, before: seq<A.Alert>, alert: A.Alert)
    requires AllJustified(asn, events, before)
    requires forall d: nat :: alert.key == Some(Key(d)) ==> exists n :: Justified(asn, events + [e], n, d, alert.severity)
    ensures AllJustified(asn, events + [e], before + [alert])
  {
    SameAlerts(asn, events, e, before, before);
    forall i, d: nat | 0 <= i < |before + [alert]| && (before + [alert])[i].key == Some(Key(d))
      ensures exists n :: Justified(asn, events + [e], n, d, (before + [alert])[i].severity)
    {
      if i < |before| {
        assert before[i].key == Some(Key(d));
      }
    }
  }

  lemma FiredAlertIsJustified(asn: AsnDatabase, events: seq<Event>, a: Analysis, severity: string, d: nat)
    requires OpOf(asn, Run(asn, events).tracker, Analyze(a)) == [FireOf(a, severity)] && Key(a.domain) == Key(d)
    ensures Justified(asn, events + [Analyze(a)], |events| + 1, d, severity)
  {
    KeysAreInjective(d, a.domain);
    FiresOrResolvesExactly(asn, Run(asn, events).tracker, a);
    FiringIsJustified(asn, events, a);
    var all := events + [Analyze(a)];
    assert all[..|events| + 1] == all;
  }

  lemma AnalysisIsJustified(asn: AsnDatabase, events: seq<Event>, a: Analysis)
    requires AllJustified(asn, events, Run(asn, events).table.alerts)
    ensures AllJustified(asn, events + [Analyze(a)], Next(asn, Run(asn, events), Analyze(a)).table.alerts)
  {
    var table, e := Run(asn, events).table, Analyze(a);
    var ops := OpOf(asn, Run(asn, events).tracker, e);
    var after := TableAfter(table, ops);
    if ops != [] && ops[0].OpFire? && A.Inserts(table, ops[0].call) {
      var call := ops[0].call;
      forall d: nat | call.key == Some(Key(d))
        ensures Justified(asn, events + [e], |events| + 1, d, call.severity)
      {
        FiredAlertIsJustified(asn, events, a, call.severity, d);
      }
      NewAlert(asn, events, e, table.alerts, after.alerts[|table.alerts|]);
    } else {
      SameAlerts(asn, events, e, table.alerts, after.alerts);
    }
  }

  lemma OtherIsJustified(asn: AsnDatabase, events: seq<Event>, e: Event)
    requires !e.Analyze? && Foreign(e)
    requires AllJustified(asn, events, Run(asn, events).table.alerts)
    ensures AllJustified(asn, events + [e], Next(asn, Run(asn, events), e).table.alerts)
  {
    var table := Run(asn, events).table;
    if e.Clear? {
      assert Next(asn, Run(asn, events), e).table == table;
      SameAlerts(asn, events, e, table.alerts, table.alerts);
    } else {
      OutsideOp(asn, events, e, table);
      assert Next(asn, Run(asn, events), e).table == A.Perform(table, e.op);
    }
  }

  lemma OutsideOp(asn: AsnDatabase, events: seq<Event>, e: Event, table: A.Table)
    requires e.Other? && Foreign(e) && AllJustified(asn, events, table.alerts)
    ensures AllJustified(asn, events + [e], A.Perform(table, e.op).alerts)
  {
    var after := A.Perform(table, e.op);
    if e.op.OpFire? && A.Inserts(table, e.op.call) {
      assert after.alerts == table.alerts + [after.alerts[|table.alerts|]];
      NewAlert(asn, events, e, table.alerts, after.alerts[|table.alerts|]);
    } else {
      SameAlerts(asn, events, e, table.alerts, after.alerts);
    }
  }

  /** End to end, over every sequence of analyses, expiries and outside alert traffic: a blocking alert exists only
      if at least two distinct nodes reported blocking since the tracker last recorded an accessible verdict or lost
      its state, and it is P1 exactly when the last three observations also had the current type. */
  lemma {:induction false} EveryBlockingAlertIsJustified(asn: AsnDatabase, events: seq<Event>)
    requires IsHistory(events)
    ensures AllJustified(asn, events, Run(asn, events).table.alerts)
  {
    if events != [] {
      var n := |events| - 1;
      var before, e := events[..n], events[n];
      assert events == before + [e];
      assert e in events && forall x :: x in before ==> x in events;
      EveryBlockingAlertIsJustified(asn, before);
      if e.Analyze? {
        AnalysisIsJustified(asn, before, e.a);
      } else {
        OtherIsJustified(asn, before, e);
      }
    }
  }

  lemma InsertsExactly(asn: AsnDatabase, w: World, a: Analysis)
    requires a.probe.Some?
    ensures |Next(asn, w, Analyze(a)).table.alerts| == |w.table.alerts| + 1 <==>
            && a.recordOk && a.persistOk && Blocking(asn, a) != "" && ConfidenceOf(asn, w.tracker, a) >= 70
            && A.Inserts(w.table, a.fire.(key := Some(Key(a.domain))))
  {
    var ops := OpOf(asn, w.tracker, Analyze(a));
    if a.persistOk {
      FiresOrResolvesExactly(asn, w.tracker, a);
      if ops[0].OpFire? {
        assert A.Inserts(w.table, ops[0].call) <==> A.Inserts(w.table, a.fire.(key := Some(Key(a.domain))));
      }
    }
  }

  /** Exactly when an analysis inserts an alert. */
  lemma AnalysisFiresExactly(asn: AsnDatabase, events: seq<Event>, a: Analysis)
    requires a.probe.Some?
    ensures var w := Run(asn, events);
            |Next(asn, w, Analyze(a)).table.alerts| == |w.table.alerts| + 1 <==>
              && a.recordOk && a.persistOk && Blocking(asn, a) != ""
              && T.TwoReporters(T.Since(Log(asn, events + [Analyze(a)]), a.domain))
              && A.Inserts(w.table, a.fire.(key := Some(Key(a.domain))))
  {
    InsertsExactly(asn, Run(asn, events), a);
    if a.recordOk && Blocking(asn, a) != "" {
      FiringIsJustified(asn, events, a);
    }
  }

  /** Two blocking alerts for one domain are an hour apart or separated by a resolve. */
  lemma BlockingAlertsAreSpaced(asn: AsnDatabase, events: seq<Event>, i: nat, j: nat, domain: nat)
    requires A.Serial(Ops(asn, events))
    requires i < j < |Run(asn, events).table.alerts|
    requires Run(asn, events).table.alerts[i].key == Run(asn, events).table.alerts[j].key == Some(Key(domain))
    ensures var a, b := Run(asn, events).table.alerts[i], Run(asn, events).table.alerts[j];
            b.createdAt >= a.createdAt + A.DEDUP_WINDOW || (a.resolvedAt.Some? && a.resolvedAt.value <= b.createdAt)
  {
    OpsDriveTheTable(asn, events);
    A.SerialRunsDeduplicate(Ops(asn, events));
    assert A.Apart(Run(asn, events).table.alerts[i], Run(asn, events).table.alerts[j]);
  }

  predicate NoLiveAlert(table: A.Table, key: string) {
    forall i :: 0 <= i < |table.alerts| && table.alerts[i].key == Some(key) ==> !A.Active(table.alerts[i])
  }

  /** An accessible verdict empties the domain's history exactly when the tracker call succeeds. */
  lemma AccessibleVerdictClearsHistory(asn: AsnDatabase, events: seq<Event>, a: Analysis)
    requires a.probe.Some? && Blocking(asn, a) == ""
    ensures T.Since(Log(asn, events + [Analyze(a)]), a.domain) ==
            if a.recordOk then [] else T.Since(Log(asn, events), a.domain)
  {
    var all, log := events + [Analyze(a)], Log(asn, events);
    assert all[..|events|] == events;
    assert Log(asn, all) == log + CallOf(asn, Analyze(a));
    if a.recordOk {
      T.SinceStep(log, CallOf(asn, Analyze(a))[0], a.domain);
    } else {
      assert log + [] == log;
    }
  }

  /** A stored accessible verdict leaves no live alert when the resolve goes through, and clears the domain's row. */
  lemma AccessibleVerdictResolves(asn: AsnDatabase, w: World, a: Analysis)
    requires a.probe.Some? && Blocking(asn, a) == "" && a.persistOk
    ensures a.resolveOk ==> NoLiveAlert(Next(asn, w, Analyze(a)).table, Key(a.domain))
    ensures a.statusOk ==> Next(asn, w, Analyze(a)).rows[a.domain] == DomainRow("", "", None, None)
  {
    assert OpOf(asn, w.tracker, Analyze(a)) == [A.OpResolve(Key(a.domain), a.resolvedAt, a.resolveOk)];
    ResolveLeavesNoneLive(w.table, Key(a.domain), a.resolvedAt);
  }

  lemma ResolveLeavesNoneLive(table: A.Table, key: string, at: int)
    ensures NoLiveAlert(A.ResolvedByKey(table, key, at), key)
  {
  }

  /** A failed tracker call counts as confidence zero, so a verdict that still says "blocked" resolves the live alert. */
  lemma TrackerFailureResolves(asn: AsnDatabase, w: World, a: Analysis)
    requires a.probe.Some? && !a.recordOk && a.persistOk && a.resolveOk
    ensures NoLiveAlert(Next(asn, w, Analyze(a)).table, Key(a.domain))
  {
    FiresOrResolvesExactly(asn, w.tracker, a);
    ResolveLeavesNoneLive(w.table, Key(a.domain), a.resolvedAt);
  }

  /** The borderline severity is computed but never fired: such a score resolves instead. */
  lemma BorderlineNeverFires(asn: AsnDatabase, events: seq<Event>, i: nat, domain: nat)
    requires IsHistory(events) && i < |Run(asn, events).table.alerts|
    requires Run(asn, events).table.alerts[i].key == Some(Key(domain))
    ensures Run(asn, events).table.alerts[i].severity in {"P1", "P2"}
  {
    EveryBlockingAlertIsJustified(asn, events);
    var n :| Justified(asn, events, n, domain, Run(asn, events).table.alerts[i].severity);
  }

  // ── Confidence without a control measurement ───────────────────────────────

  /** A probe that saw a bogon answer, analysed without any control measurement. */
  function Uncontrolled(domain: nat, node: string, stored: bool): Analysis {
    Analysis(domain, Some(Measurement(domain, node, Some(DnsResult([], "", true, false)), [], [], None)), None, 0,
             true, stored, true, true, 0, A.FireCall("", None, 0, 0, true, true, false, [], {}, false))
  }

  lemma UncontrolledStep(asn: AsnDatabase, events: seq<Event>, domain: nat, node: string, stored: bool)
    ensures var e := Analyze(Uncontrolled(domain, node, stored));
            && Blocking(asn, e.a) == DNS
            && T.Since(Log(asn, events + [e]), domain) == T.Since(Log(asn, events), domain) + [T.Observation(node, DNS)]
            && (!stored ==> Run(asn, events + [e]).table == Run(asn, events).table)
  {
    var e := Analyze(Uncontrolled(domain, node, stored));
    assert (events + [e])[..|events|] == events;
    T.SinceStep(Log(asn, events), T.Record(domain, node, DNS), domain);
  }

  function TwoProbes(domain: nat, a: string, b: string): seq<Event> {
    [Analyze(Uncontrolled(domain, a, false))] + [Analyze(Uncontrolled(domain, b, false))]
  }

  lemma TwoProbesLeaveNoAlert(asn: AsnDatabase, domain: nat, a: string, b: string)
    ensures T.Since(Log(asn, TwoProbes(domain, a, b)), domain) == [T.Observation(a, DNS)] + [T.Observation(b, DNS)]
    ensures Run(asn, TwoProbes(domain, a, b)).table == A.Table([], [])
  {
    var first := [Analyze(Uncontrolled(domain, a, false))];
    assert [] + first == first;
    UncontrolledStep(asn, [], domain, a, false);
    UncontrolledStep(asn, first, domain, b, false);
  }

  /** A missing control measurement puts no cap on the confidence: any two probes alone can raise a P1 alert. */
  lemma ProbesAloneReachP1(asn: AsnDatabase, domain: nat, a: string, b: string)
    requires a != b
    ensures var alerts := Run(asn, TwoProbes(domain, a, b) + [Analyze(Uncontrolled(domain, a, true))]).table.alerts;
            |alerts| == 1 && alerts[0].severity == "P1" && alerts[0].key == Some(Key(domain))
  {
    var events, last := TwoProbes(domain, a, b), Uncontrolled(domain, a, true);
    TwoProbesLeaveNoAlert(asn, domain, a, b);
    UncontrolledStep(asn, events, domain, a, true);
    var obs := T.Since(Log(asn, events + [Analyze(last)]), domain);
    assert obs[0].node != obs[1].node;
    FiringIsJustified(asn, events, last);
    FiresOnEmptyTable(asn, Run(asn, events), last);
    assert (events + [Analyze(last)])[..|events|] == events;
  }

  lemma FiresOnEmptyTable(asn: AsnDatabase, w: World, a: Analysis)
    requires a.probe.Some? && a.recordOk && a.persistOk && a.fire.checkOk && a.fire.insertOk && Blocking(asn, a) != ""
    requires ConfidenceOf(asn, w.tracker, a) >= 90 && w.table == A.Table([], [])
    ensures var alerts := Next(asn, w, Analyze(a)).table.alerts;
            |alerts| == 1 && alerts[0].severity == "P1" && alerts[0].key == Some(Key(a.domain))
  {
    var call := FireOf(a, "P1").call;
    assert OpOf(asn, w.tracker, Analyze(a)) == [FireOf(a, "P1")];
    assert A.Inserts(w.table, call);
    assert A.Inserted(w.table, call).alerts == [A.Alert("P1", Some(Key(a.domain)), call.insertedAt, None, A.SendsOf(call) != [] && call.markOk)];
  }
}
