/**
 The alert engine (internal/alert/engine.go with the statements of
 store/postgres/alert.go): deduplicated inserts, per-channel fan-out, resolution.

 Times are microseconds.  An alert's id is its position in the table.  Whether each
 statement or enqueue succeeds is an input.
 */
module AlertEngine {
  import opened Wrappers
  import opened Collections

  const DEDUP_WINDOW: int := 3_600_000_000

  datatype Alert = Alert(severity: string, key: Option<string>, createdAt: int, resolvedAt: Option<int>, notified: bool)
  datatype Notification = Notification(alert: nat, channel: int)
  datatype Rule = Rule(channel: int, minSeverity: string)
  datatype Table = Table(alerts: seq<Alert>, notifications: seq<Notification>)

  /** One call of Fire: the event, the rules the query returns, and which statements succeed.
      `checkedAt` and `insertedAt` are the times of the two statements. */
  datatype FireCall = FireCall(
    severity: string, key: Option<string>, checkedAt: int, insertedAt: int,
    checkOk: bool, insertOk: bool, rulesOk: bool, rules: seq<Rule>, sendable: set<int>, markOk: bool)

  datatype FireError = DedupCheckFailed | InsertFailed

  // ── Rules ──────────────────────────────────────────────────────────────────

  function Rank(severity: string): nat {
    match severity
    case "P1" => 4
    case "P2" => 3
    case "P3" => 2
    case "INFO" => 1
    case _ => 0
  }

  predicate Admits(r: Rule, severity: string) {
    Rank(r.minSeverity) > 0 && Rank(severity) >= Rank(r.minSeverity)
  }

  function Admitting(rules: seq<Rule>, severity: string): seq<Rule> {
    if rules == [] then []
    else
      var n := |rules| - 1;
      Admitting(rules[..n], severity) + (if Admits(rules[n], severity) then [rules[n]] else [])
  }

  /** Both severities are known and the event is no milder than the minimum asks. */
  predicate NoMilder(severity: string, minimum: string) {
    var order := ["INFO", "P3", "P2", "P1"];
    exists i, j :: 0 <= i <= j < |order| && order[i] == minimum && order[j] == severity
  }

  /** Keeps the rules at the positions `at`: those whose minimum the event reaches, in order. */
  method FilterRules(rules: seq<Rule>, severity: string) returns (kept: seq<Rule>, ghost at: seq<nat>)
    ensures kept == Admitting(rules, severity)
    ensures Positions(at, |rules|) && |at| == |kept|
    ensures forall k :: 0 <= k < |kept| ==> kept[k] == rules[at[k]]
    ensures forall i :: 0 <= i < |rules| ==> (i in at <==> NoMilder(severity, rules[i].minSeverity))
  {
    kept := [];
    for i := 0 to |rules|
      invariant kept == Admitting(rules[..i], severity)
    {
      assert rules[..i + 1][..i] == rules[..i];
      if Rank(rules[i].minSeverity) > 0 && Rank(severity) >= Rank(rules[i].minSeverity) {
        kept := kept + [rules[i]];
      }
    }
    assert rules[..|rules|] == rules;
    at := AdmittingAre(rules, severity);
  }

  lemma RanksMean(severity: string, r: Rule)
    ensures Admits(r, severity) <==> NoMilder(severity, r.minSeverity)
  {
    var order := ["INFO", "P3", "P2", "P1"];
    assert forall i :: 0 <= i < |order| ==> Rank(order[i]) == i + 1;
    assert forall text: string :: Rank(text) > 0 ==> 1 <= Rank(text) <= 4 && order[Rank(text) - 1] == text;
  }

  lemma {:induction false} AdmittingAre(rules: seq<Rule>, severity: string) returns (at: seq<nat>)
    ensures Positions(at, |rules|) && |at| == |Admitting(rules, severity)|
    ensures forall k :: 0 <= k < |at| ==> Admitting(rules, severity)[k] == rules[at[k]]
    ensures forall i :: 0 <= i < |rules| ==> (i in at <==> NoMilder(severity, rules[i].minSeverity))
  {
    at := [];
    if rules != [] {
      var n := |rules| - 1;
      var was := Admitting(rules[..n], severity);
      var front := AdmittingAre(rules[..n], severity);
      PositionsGrow(front, n);
      RanksMean(severity, rules[n]);
      assert forall i :: 0 <= i < n ==> rules[..n][i] == rules[i];
      if Admits(rules[n], severity) {
        at := front + [n];
        assert Admitting(rules, severity) == was + [rules[n]];
      } else {
        at := front;
        assert Admitting(rules, severity) == was;
      }
    }
  }

  predicate HasChannel(rules: seq<Rule>, channel: int) {
    exists i :: 0 <= i < |rules| && rules[i].channel == channel
  }

  /** The channels enqueued to, in order: the first rule of each channel decides, and only sendable ones count. */
  function Sends(rules: seq<Rule>, sendable: set<int>): seq<int> {
    if rules == [] then []
    else
      var n := |rules| - 1;
      var c := rules[n].channel;
      Sends(rules[..n], sendable) + (if HasChannel(rules[..n], c) || c !in sendable then [] else [c])
  }

  lemma {:induction false} SendsFacts(rules: seq<Rule>, sendable: set<int>)
    ensures forall c :: c in Sends(rules, sendable) <==> HasChannel(rules, c) && c in sendable
    ensures forall i, j :: 0 <= i < j < |Sends(rules, sendable)| ==> Sends(rules, sendable)[i] != Sends(rules, sendable)[j]
  {
    if rules != [] {
      var n := |rules| - 1;
      SendsFacts(rules[..n], sendable);
      forall c
        ensures HasChannel(rules, c) <==> HasChannel(rules[..n], c) || rules[n].channel == c
      {
        if HasChannel(rules[..n], c) {
          var i :| 0 <= i < n && rules[..n][i].channel == c;
          assert rules[i].channel == c;
        }
        if HasChannel(rules, c) && rules[n].channel != c {
          var i :| 0 <= i < |rules| && rules[i].channel == c;
          assert rules[..n][i].channel == c;
        }
      }
    }
  }

  // ── The table ──────────────────────────────────────────────────────────────

  predicate Active(a: Alert) {
    a.resolvedAt.None?
  }

  predicate HasKey(key: Option<string>) {
    key.Some? && key.value != ""
  }

  /** An unresolved alert with this key is younger than the window. */
  predicate Duplicate(alerts: seq<Alert>, key: Option<string>, now: int) {
    exists i :: 0 <= i < |alerts| && alerts[i].key == key && Active(alerts[i]) && alerts[i].createdAt > now - DEDUP_WINDOW
  }

  predicate Suppressed(t: Table, c: FireCall) {
    HasKey(c.key) && Duplicate(t.alerts, c.key, c.checkedAt)
  }

  /** The call gets as far as inserting its event. */
  predicate Inserts(t: Table, c: FireCall) {
    (HasKey(c.key) ==> c.checkOk) && !Suppressed(t, c) && c.insertOk
  }

  function Notifications(id: nat, channels: seq<int>): seq<Notification> {
    seq(|channels|, i requires 0 <= i < |channels| => Notification(id, channels[i]))
  }

  function SendsOf(c: FireCall): seq<int> {
    if c.rulesOk then Sends(Admitting(c.rules, c.severity), c.sendable) else []
  }

  /** The insert and what follows it. */
  function Inserted(t: Table, c: FireCall): Table {
    var channels := SendsOf(c);
    Table(t.alerts + [Alert(c.severity, c.key, c.insertedAt, None, channels != [] && c.markOk)],
          t.notifications + Notifications(|t.alerts|, channels))
  }

  function Fired(t: Table, c: FireCall): Table {
    if Inserts(t, c) then Inserted(t, c) else t
  }

  function ResolvedAlert(a: Alert, at: int): Alert {
    if Active(a) then a.(resolvedAt := Some(at)) else a
  }

  function ResolvedByKey(t: Table, key: string, at: int): Table {
    t.(alerts := seq(|t.alerts|, i requires 0 <= i < |t.alerts| =>
         if t.alerts[i].key == Some(key) then ResolvedAlert(t.alerts[i], at) else t.alerts[i]))
  }

  function ResolvedById(t: Table, id: nat, at: int): Table {
    if id < |t.alerts| then t.(alerts := t.alerts[id := ResolvedAlert(t.alerts[id], at)]) else t
  }

  /** The call gets to notify the channel: some rule for it asks for no more than the event's severity. */
  predicate Reaches(c: FireCall, channel: int) {
    && c.rulesOk && channel in c.sendable
    && exists i :: 0 <= i < |c.rules| && c.rules[i].channel == channel && NoMilder(c.severity, c.rules[i].minSeverity)
  }

  /** The check of an event with a key fails, or finds an unresolved alert with the key less than an hour old. */
  predicate Stopped(t: Table, c: FireCall) {
    && c.key.Some? && c.key.value != ""
    && (|| !c.checkOk
        || exists i :: 0 <= i < |t.alerts| && t.alerts[i].key == c.key && t.alerts[i].resolvedAt.None?
                       && c.checkedAt - t.alerts[i].createdAt < 3_600_000_000)
  }

  /** What Fire does: nothing, or one alert with one notification for each channel it reaches. */
  ghost predicate FireEffect(t: Table, c: FireCall, t': Table) {
    if Stopped(t, c) || !c.insertOk then t' == t
    else
      var n, m := |t.alerts|, |t.notifications|;
      && |t'.alerts| == n + 1 && t.alerts <= t'.alerts && t.notifications <= t'.notifications
      && t'.alerts[n] == Alert(c.severity, c.key, c.insertedAt, None, c.markOk && |t'.notifications| > m)
      && (forall k :: m <= k < |t'.notifications| ==>
            && t'.notifications[k].alert == n && Reaches(c, t'.notifications[k].channel)
            && forall j :: m <= j < k ==> t'.notifications[j].channel != t'.notifications[k].channel)
      && (forall channel :: Reaches(c, channel) ==>
            exists k :: m <= k < |t'.notifications| && t'.notifications[k].channel == channel)
  }

  class Engine {
    var alerts: seq<Alert>
    var notifications: seq<Notification>

    function Contents(): Table
      reads this
    {
      Table(alerts, notifications)
    }

    constructor ()
      ensures Contents() == Table([], [])
    {
      alerts, notifications := [], [];
    }

    /** The counting query behind the duplicate check. */
    method ExistsActiveDedupKey(key: string, now: int) returns (found: bool)
      ensures found <==> Duplicate(alerts, Some(key), now)
    {
      for i := 0 to |alerts|
        invariant forall k :: 0 <= k < i ==>
                                !(alerts[k].key == Some(key) && Active(alerts[k]) && alerts[k].createdAt > now - DEDUP_WINDOW)
      {
        if alerts[i].key == Some(key) && Active(alerts[i]) && alerts[i].createdAt > now - DEDUP_WINDOW {
          return true;
        }
      }
      return false;
    }

    method Fire(c: FireCall) returns (r: Result<(), FireError>)
      modifies this
      ensures Contents() == Fired(old(Contents()), c)
      ensures FireEffect(old(Contents()), c, Contents())
      ensures r == if HasKey(c.key) && !c.checkOk then Err(DedupCheckFailed)
                   else if !Suppressed(old(Contents()), c) && !c.insertOk then Err(InsertFailed)
                   else Ok(())
    {
      FiredMeans(Contents(), c);
      if c.key.Some? && c.key.value != "" {
        if !c.checkOk {
          return Err(DedupCheckFailed);
        }
        var duplicate := ExistsActiveDedupKey(c.key.value, c.checkedAt);
        if duplicate {
          return Ok(());
        }
      }
      if !c.insertOk {
        return Err(InsertFailed);
      }
      var id := |alerts|;
      alerts := alerts + [Alert(c.severity, c.key, c.insertedAt, None, false)];
      assert Notifications(id, []) == [];
      if !c.rulesOk {
        return Ok(());
      }
      var rules;
      ghost var at;
      rules, at := FilterRules(c.rules, c.severity);
      var enqueued := FanOut(id, rules, c.sendable);
      if enqueued > 0 && c.markOk {
        alerts := alerts[id := alerts[id].(notified := true)];
      }
      return Ok(());
    }

    /** One notification per channel; a failed enqueue is skipped and not counted. */
    method FanOut(id: nat, rules: seq<Rule>, sendable: set<int>) returns (enqueued: nat)
      modifies `notifications
      ensures notifications == old(notifications) + Notifications(id, Sends(rules, sendable))
      ensures enqueued == |Sends(rules, sendable)|
    {
      var seen := {};
      enqueued := 0;
      for i := 0 to |rules|
        invariant forall c :: c in seen <==> HasChannel(rules[..i], c)
        invariant notifications == old(notifications) + Notifications(id, Sends(rules[..i], sendable))
        invariant enqueued == |Sends(rules[..i], sendable)|
      {
        var channel := rules[i].channel;
        SendsStep(rules, i, sendable);
        if channel in seen {
          continue;
        }
        seen := seen + {channel};
        if channel !in sendable {
          continue;
        }
        NotificationsSnoc(id, Sends(rules[..i], sendable), channel);
        notifications := notifications + [Notification(id, channel)];
        enqueued := enqueued + 1;
      }
      assert rules[..|rules|] == rules;
    }

    /** Resolves every active alert with the key. */
    method Resolve(key: string, at: int, ok: bool) returns (resolved: bool)
      modifies this
      ensures Contents() == if ok then ResolvedByKey(old(Contents()), key, at) else old(Contents())
      ensures resolved == ok && notifications == old(notifications) && |alerts| == |old(alerts)|
      ensures forall k :: 0 <= k < |alerts| ==>
                alerts[k] == if ok && old(alerts)[k].key == Some(key) && old(alerts)[k].resolvedAt.None?
                             then old(alerts)[k].(resolvedAt := Some(at)) else old(alerts)[k]
    {
      if !ok {
        return false;
      }
      ghost var was := alerts;
      for i := 0 to |alerts|
        invariant |alerts| == |was|
        invariant forall k :: 0 <= k < i ==> alerts[k] == if was[k].key == Some(key) then ResolvedAlert(was[k], at) else was[k]
        invariant forall k :: i <= k < |was| ==> alerts[k] == was[k]
        modifies `alerts
      {
        if alerts[i].key == Some(key) && Active(alerts[i]) {
          alerts := alerts[i := alerts[i].(resolvedAt := Some(at))];
        }
      }
      return true;
    }

    /** An operator's resolve; not found when there is no such active alert. */
    method ResolveById(id: nat, at: int) returns (found: bool)
      modifies this
      ensures Contents() == ResolvedById(old(Contents()), id, at)
      ensures found <==> id < |old(alerts)| && old(alerts)[id].resolvedAt.None?
      ensures notifications == old(notifications)
      ensures alerts == if found then old(alerts)[id := old(alerts)[id].(resolvedAt := Some(at))] else old(alerts)
    {
      if id >= |alerts| || !Active(alerts[id]) {
        return false;
      }
      alerts := alerts[id := alerts[id].(resolvedAt := Some(at))];
      return true;
    }
  }

  lemma SentMeans(c: FireCall, channel: int)
    ensures channel in SendsOf(c) <==> Reaches(c, channel)
  {
    if c.rulesOk {
      var kept := Admitting(c.rules, c.severity);
      SendsFacts(kept, c.sendable);
      var at := AdmittingAre(c.rules, c.severity);
      if i :| 0 <= i < |c.rules| && c.rules[i].channel == channel && NoMilder(c.severity, c.rules[i].minSeverity) {
        var k :| 0 <= k < |at| && at[k] == i;
        assert kept[k].channel == channel;
      }
      if k :| 0 <= k < |kept| && kept[k].channel == channel {
        assert at[k] in at;
      }
    }
  }

  lemma SendsAreDistinct(c: FireCall)
    ensures Distinct(SendsOf(c))
  {
    SendsFacts(Admitting(c.rules, c.severity), c.sendable);
  }

  lemma FiredMeans(t: Table, c: FireCall)
    ensures FireEffect(t, c, Fired(t, c))
  {
    NewNotifications(t, c);
    SendsAreDistinct(c);
    forall channel {
      SentMeans(c, channel);
    }
    var m, channels := |t.notifications|, SendsOf(c);
    forall channel | channel in channels
      ensures exists k :: m <= k < m + |channels| && Inserted(t, c).notifications[k].channel == channel
    {
      var k :| 0 <= k < |channels| && channels[k] == channel;
      assert Inserted(t, c).notifications[m + k].channel == channel;
    }
  }

  /** What the next rule adds. */
  lemma SendsStep(rules: seq<Rule>, i: nat, sendable: set<int>)
    requires i < |rules|
    ensures var c := rules[i].channel;
            Sends(rules[..i + 1], sendable) ==
            if HasChannel(rules[..i], c) || c !in sendable then Sends(rules[..i], sendable) else Sends(rules[..i], sendable) + [c]
    ensures forall c :: HasChannel(rules[..i + 1], c) <==> HasChannel(rules[..i], c) || rules[i].channel == c
  {
    assert rules[..i + 1][..i] == rules[..i];
    assert rules[..i + 1] == rules[..i] + [rules[i]];
    HasChannelSnoc(rules[..i], rules[i]);
  }

  lemma NotificationsSnoc(id: nat, channels: seq<int>, c: int)
    ensures Notifications(id, channels + [c]) == Notifications(id, channels) + [Notification(id, c)]
  {
  }

  lemma HasChannelSnoc(rules: seq<Rule>, r: Rule)
    ensures forall c :: HasChannel(rules + [r], c) <==> HasChannel(rules, c) || r.channel == c
  {
    forall c
      ensures HasChannel(rules + [r], c) <==> HasChannel(rules, c) || r.channel == c
    {
      assert (rules + [r])[|rules|] == r;
      if HasChannel(rules, c) {
        var i :| 0 <= i < |rules| && rules[i].channel == c;
        assert (rules + [r])[i].channel == c;
      }
    }
  }

  // ── Serial runs ────────────────────────────────────────────────────────────

  datatype Op =
    | OpFire(call: FireCall)
    | OpResolve(key: string, at: int, ok: bool)
    | OpResolveById(id: nat, at: int)

  function Begins(op: Op): int {
    match op
    case OpFire(c) => c.checkedAt
    case OpResolve(_, at, _) => at
    case OpResolveById(_, at) => at
  }

  function Ends(op: Op): int {
    if op.OpFire? then op.call.insertedAt else op.at
  }

  function Perform(t: Table, op: Op): Table {
    match op
    case OpFire(c) => Fired(t, c)
    case OpResolve(key, at, ok) => if ok then ResolvedByKey(t, key, at) else t
    case OpResolveById(id, at) => ResolvedById(t, id, at)
  }

  function Run(ops: seq<Op>): Table {
    if ops == [] then Table([], []) else Perform(Run(ops[..|ops| - 1]), ops[|ops| - 1])
  }

  /** Operations follow each other on a clock that never goes back. */
  predicate Serial(ops: seq<Op>) {
    && (forall i :: 0 <= i < |ops| ==> Begins(ops[i]) <= Ends(ops[i]))
    && (forall i :: 0 < i < |ops| ==> Ends(ops[i - 1]) <= Begins(ops[i]))
  }

  /** Two alerts with one key are an hour apart, or the first was resolved before the second was created. */
  predicate Apart(a: Alert, b: Alert) {
    a.key == b.key && HasKey(a.key) ==>
      b.createdAt >= a.createdAt + DEDUP_WINDOW || (a.resolvedAt.Some? && a.resolvedAt.value <= b.createdAt)
  }

  predicate Spaced(alerts: seq<Alert>) {
    forall i, j :: 0 <= i < j < |alerts| ==> Apart(alerts[i], alerts[j])
  }

  predicate NotLaterThan(alerts: seq<Alert>, now: int) {
    forall i :: 0 <= i < |alerts| ==>
                  alerts[i].createdAt <= now && (alerts[i].resolvedAt.Some? ==> alerts[i].createdAt <= alerts[i].resolvedAt.value <= now)
  }

  /** No event notifies a channel twice, and every notification belongs to an event. */
  predicate OncePerChannel(t: Table) {
    && (forall i :: 0 <= i < |t.notifications| ==> t.notifications[i].alert < |t.alerts|)
    && (forall i, j :: 0 <= i < j < |t.notifications| ==> t.notifications[i] != t.notifications[j])
  }

  predicate HasNotification(ns: seq<Notification>, id: nat) {
    exists i :: 0 <= i < |ns| && ns[i].alert == id
  }

  predicate NotifiedOnlyIfSent(t: Table) {
    forall id :: 0 <= id < |t.alerts| && t.alerts[id].notified ==> HasNotification(t.notifications, id)
  }

  lemma FireKeepsSpacing(t: Table, c: FireCall)
    requires Spaced(t.alerts) && NotLaterThan(t.alerts, c.checkedAt) && c.checkedAt <= c.insertedAt && Inserts(t, c)
    ensures Spaced(Inserted(t, c).alerts) && NotLaterThan(Inserted(t, c).alerts, c.insertedAt)
  {
    var n := |t.alerts|;
    var after := Inserted(t, c).alerts;
    assert forall i :: 0 <= i < n ==> after[i] == t.alerts[i];
    forall i | 0 <= i < n
      ensures Apart(t.alerts[i], after[n])
    {
      assert !(HasKey(c.key) && t.alerts[i].key == c.key && Active(t.alerts[i]) && t.alerts[i].createdAt > c.checkedAt - DEDUP_WINDOW);
    }
  }

  lemma NewNotifications(t: Table, c: FireCall)
    ensures var after, channels, m := Inserted(t, c).notifications, SendsOf(c), |t.notifications|;
            && |after| == m + |channels|
            && (forall i :: 0 <= i < m ==> after[i] == t.notifications[i])
            && (forall i :: m <= i < |after| ==> after[i] == Notification(|t.alerts|, channels[i - m]))
  {
  }

  lemma FireKeepsOncePerChannel(t: Table, c: FireCall)
    requires OncePerChannel(t)
    ensures OncePerChannel(Inserted(t, c))
  {
    NewNotifications(t, c);
    SendsFacts(Admitting(c.rules, c.severity), c.sendable);
  }

  lemma FireKeepsNotified(t: Table, c: FireCall)
    requires NotifiedOnlyIfSent(t)
    ensures NotifiedOnlyIfSent(Inserted(t, c))
  {
    var after, m := Inserted(t, c), |t.notifications|;
    NewNotifications(t, c);
    forall id | 0 <= id < |after.alerts| && after.alerts[id].notified
      ensures HasNotification(after.notifications, id)
    {
      if id < |t.alerts| {
        assert t.alerts[id].notified;
        var i :| 0 <= i < m && t.notifications[i].alert == id;
        assert after.notifications[i].alert == id;
      } else {
        assert after.notifications[m].alert == id;
      }
    }
  }

  /** Resolving only sets resolution times of active alerts. */
  predicate OnlyResolves(before: seq<Alert>, after: seq<Alert>, at: int) {
    && |after| == |before|
    && forall i :: 0 <= i < |before| ==> after[i] == before[i] || (Active(before[i]) && after[i] == before[i].(resolvedAt := Some(at)))
  }

  lemma ResolveKeepsSpacing(before: seq<Alert>, after: seq<Alert>, at: int)
    requires Spaced(before) && NotLaterThan(before, at) && OnlyResolves(before, after, at)
    ensures Spaced(after) && NotLaterThan(after, at)
  {
    forall i, j | 0 <= i < j < |after|
      ensures Apart(after[i], after[j])
    {
      assert Apart(before[i], before[j]);
    }
  }

  /** Over every serial run: dedup spacing, one notification per event and channel, notified only if sent. */
  lemma {:induction false} SerialRunsDeduplicate(ops: seq<Op>)
    requires Serial(ops)
    ensures Spaced(Run(ops).alerts) && (ops != [] ==> NotLaterThan(Run(ops).alerts, Ends(ops[|ops| - 1])))
    ensures OncePerChannel(Run(ops)) && NotifiedOnlyIfSent(Run(ops))
  {
    if ops != [] {
      var n := |ops| - 1;
      var before, op := Run(ops[..n]), ops[n];
      SerialRunsDeduplicate(ops[..n]);
      assert NotLaterThan(before.alerts, Begins(op)) by {
        assert n > 0 ==> Ends(ops[n - 1]) <= Begins(op);
      }
      StepKeepsRules(before, op);
    }
  }

  lemma StepKeepsRules(t: Table, op: Op)
    requires Spaced(t.alerts) && NotLaterThan(t.alerts, Begins(op)) && Begins(op) <= Ends(op)
    requires OncePerChannel(t) && NotifiedOnlyIfSent(t)
    ensures var after := Perform(t, op);
            Spaced(after.alerts) && NotLaterThan(after.alerts, Ends(op)) && OncePerChannel(after) && NotifiedOnlyIfSent(after)
  {
    match op
    case OpFire(c) =>
      if Inserts(t, c) {
        FireKeepsSpacing(t, c);
        FireKeepsOncePerChannel(t, c);
        FireKeepsNotified(t, c);
      }
    case OpResolve(key, at, ok) =>
      ResolveKeepsSpacing(t.alerts, Perform(t, op).alerts, at);
    case OpResolveById(id, at) =>
      ResolveKeepsSpacing(t.alerts, Perform(t, op).alerts, at);
  }

  /** Two alerts of one key that are both still active are at least an hour apart. */
  lemma ActiveAlertsOfAKeyAreAnHourApart(ops: seq<Op>, i: nat, j: nat)
    requires Serial(ops) && i < j < |Run(ops).alerts|
    requires var a, b := Run(ops).alerts[i], Run(ops).alerts[j]; a.key == b.key && HasKey(a.key) && Active(a) && Active(b)
    ensures Run(ops).alerts[j].createdAt >= Run(ops).alerts[i].createdAt + 3_600_000_000
  {
    SerialRunsDeduplicate(ops);
    assert Apart(Run(ops).alerts[i], Run(ops).alerts[j]);
  }

  /** Exactly when an insert keeps the spacing, however long ago its check was: no live alert with its key is
      younger than the window at the moment of the insert. */
  lemma InsertKeepsSpacingExactly(t: Table, c: FireCall)
    requires HasKey(c.key) && Spaced(t.alerts) && NotLaterThan(t.alerts, c.insertedAt)
    ensures Spaced(Inserted(t, c).alerts) <==> !Duplicate(t.alerts, c.key, c.insertedAt)
  {
    var n, after := |t.alerts|, Inserted(t, c).alerts;
    assert forall i :: 0 <= i < n ==> after[i] == t.alerts[i];
    if i :| 0 <= i < n && t.alerts[i].key == c.key && Active(t.alerts[i]) && t.alerts[i].createdAt > c.insertedAt - DEDUP_WINDOW {
      assert !Apart(after[i], after[n]);
    } else {
      forall i | 0 <= i < n
        ensures Apart(after[i], after[n])
      {
      }
    }
  }

  // ── Overlapping calls ──────────────────────────────────────────────────────

  /** The check and the insert are two statements: two calls with one key that both pass their check before either
      inserts break the spacing whenever the inserts are less than a window apart. */
  lemma OverlappingFiresBreakDedup(t: Table, c: FireCall, d: FireCall)
    requires c.key == d.key && HasKey(c.key) && Inserts(t, c) && Inserts(t, d)
    requires d.insertedAt < c.insertedAt + DEDUP_WINDOW
    ensures !Spaced(Inserted(Inserted(t, c), d).alerts)
  {
    var n := |t.alerts|;
    var after := Inserted(Inserted(t, c), d).alerts;
    assert !Apart(after[n], after[n + 1]);
  }

  /** The statements of calls that run at the same time.  An insert names the step that was its check. */
  datatype Step =
    | Check(call: FireCall)
    | Insert(call: FireCall, checked: nat)
    | ResolveKey(key: string, at: int)
    | ResolveId(id: nat, at: int)

  function TimeOf(st: Step): int {
    match st
    case Check(c) => c.checkedAt
    case Insert(c, _) => c.insertedAt
    case ResolveKey(_, at) => at
    case ResolveId(_, at) => at
  }

  function Execute(t: Table, st: Step): Table {
    match st
    case Check(_) => t
    case Insert(c, _) => Inserted(t, c)
    case ResolveKey(key, at) => ResolvedByKey(t, key, at)
    case ResolveId(id, at) => ResolvedById(t, id, at)
  }

  /** The table after the first `n` steps. */
  function TableAt(steps: seq<Step>, n: nat): Table
    requires n <= |steps|
  {
    if n == 0 then Table([], []) else Execute(TableAt(steps, n - 1), steps[n - 1])
  }

  /** The insert at `n` comes after its own check, which passed. */
  predicate PassedItsCheck(steps: seq<Step>, n: nat)
    requires n < |steps| && steps[n].Insert?
  {
    var k := steps[n].checked;
    && k < n && steps[k] == Check(steps[n].call)
    && !(HasKey(steps[n].call.key) && Duplicate(TableAt(steps, k).alerts, steps[n].call.key, steps[n].call.checkedAt))
  }

  /** Any interleaving of calls and resolves on a clock that never goes back. */
  predicate IsInterleaving(steps: seq<Step>) {
    && (forall i, j :: 0 <= i < j < |steps| ==> TimeOf(steps[i]) <= TimeOf(steps[j]))
    && (forall n :: 0 <= n < |steps| && steps[n].Insert? ==> PassedItsCheck(steps, n))
  }

  /** The id of the alert that the insert at `m` creates. */
  function IdAt(steps: seq<Step>, m: nat): nat
    requires m <= |steps|
  {
    |TableAt(steps, m).alerts|
  }

  /** Step `k` resolves the alert that the insert at `m` created. */
  predicate Resolves(steps: seq<Step>, m: nat, k: nat)
    requires m < |steps| && k < |steps| && steps[m].Insert?
  {
    || (steps[k].ResolveKey? && steps[m].call.key == Some(steps[k].key))
    || (steps[k].ResolveId? && steps[k].id == IdAt(steps, m))
  }

  predicate ResolvedBetween(steps: seq<Step>, m: nat, n: nat)
    requires m < n <= |steps| && steps[m].Insert?
  {
    exists k :: m < k < n && Resolves(steps, m, k)
  }

  /** What becomes of an alert: its key and creation time stay, and it is live until a step resolves it. */
  lemma {:induction false} AlertLives(steps: seq<Step>, m: nat, n: nat)
    requires m < n <= |steps| && steps[m].Insert?
    ensures var id, alerts := IdAt(steps, m), TableAt(steps, n).alerts;
            && id < |alerts| && alerts[id].key == steps[m].call.key && alerts[id].createdAt == steps[m].call.insertedAt
            && (Active(alerts[id]) <==> !ResolvedBetween(steps, m, n))
    decreases n
  {
    if n == m + 1 {
      assert TableAt(steps, n) == Inserted(TableAt(steps, m), steps[m].call);
    } else {
      AlertLives(steps, m, n - 1);
      var id, before, after := IdAt(steps, m), TableAt(steps, n - 1), TableAt(steps, n);
      assert after == Execute(before, steps[n - 1]);
      AlertStep(before, steps[n - 1], id);
      if ResolvedBetween(steps, m, n - 1) {
        var k :| m < k < n - 1 && Resolves(steps, m, k);
      } else if Resolves(steps, m, n - 1) {
        assert ResolvedBetween(steps, m, n);
      }
    }
  }

  lemma AlertStep(t: Table, st: Step, id: nat)
    requires id < |t.alerts|
    ensures var after := Execute(t, st).alerts;
            && id < |after| && after[id].key == t.alerts[id].key && after[id].createdAt == t.alerts[id].createdAt
            && (Active(after[id]) <==>
                  Active(t.alerts[id]) && !(st.ResolveKey? && t.alerts[id].key == Some(st.key)) && !(st.ResolveId? && st.id == id))
  {
  }

  /** Every alert was created by an insert. */
  lemma {:induction false} AlertHasInsert(steps: seq<Step>, n: nat, id: nat) returns (m: nat)
    requires n <= |steps| && id < |TableAt(steps, n).alerts|
    ensures m < n && steps[m].Insert? && IdAt(steps, m) == id
    decreases n
  {
    if id < |TableAt(steps, n - 1).alerts| {
      m := AlertHasInsert(steps, n - 1, id);
    } else {
      m := n - 1;
    }
  }

  /** The insert at `m` has the key of the insert at `n`, less than a window before it. */
  predicate Young(steps: seq<Step>, m: nat, n: nat)
    requires m < |steps| && n < |steps|
  {
    && steps[m].Insert? && steps[n].Insert? && HasKey(steps[n].call.key) && steps[m].call.key == steps[n].call.key
    && steps[m].call.insertedAt > steps[n].call.insertedAt - DEDUP_WINDOW
  }

  /** An alert with the key slipped in between the insert's check and the insert, and is live and young. */
  predicate SlippedIn(steps: seq<Step>, m: nat, n: nat)
    requires m < |steps| && n < |steps|
  {
    Young(steps, m, n) && steps[n].checked < m < n && !ResolvedBetween(steps, m, n)
  }

  /** Two inserts with one key are a window apart or separated by a resolve of the first. */
  predicate Separated(steps: seq<Step>, m: nat, n: nat)
    requires m < n < |steps|
  {
    Young(steps, m, n) ==> ResolvedBetween(steps, m, n)
  }

  /** An alert from before the check was old or resolved when the check passed, and stays so. */
  lemma EarlierAlertsAreNoDuplicates(steps: seq<Step>, m: nat, n: nat)
    requires IsInterleaving(steps) && m < n < |steps| && Young(steps, m, n) && m < steps[n].checked
    ensures ResolvedBetween(steps, m, n)
  {
    var k := steps[n].checked;
    assert PassedItsCheck(steps, n);
    assert TimeOf(steps[k]) <= TimeOf(steps[n]);
    AlertLives(steps, m, k);
    var id, alerts := IdAt(steps, m), TableAt(steps, k).alerts;
    assert alerts[id].createdAt > steps[n].call.checkedAt - DEDUP_WINDOW;
    assert !Active(alerts[id]);
    var r :| m < r < k && Resolves(steps, m, r);
  }

  /** Under every interleaving of calls, the events of a key are a window apart or separated by a resolve exactly when
      no alert slipped in between some call's check and its insert and was live and young at the insert. */
  lemma InterleavingsDeduplicateExactly(steps: seq<Step>)
    requires IsInterleaving(steps)
    ensures (forall m, n :: 0 <= m < n < |steps| ==> Separated(steps, m, n)) <==>
            (forall m, n :: 0 <= m < n < |steps| ==> !SlippedIn(steps, m, n))
  {
    forall m, n | 0 <= m < n < |steps|
      ensures Separated(steps, m, n) <==> !SlippedIn(steps, m, n)
    {
      if Young(steps, m, n) {
        assert PassedItsCheck(steps, n);
        if m < steps[n].checked {
          EarlierAlertsAreNoDuplicates(steps, m, n);
        }
      }
    }
  }

  /** The same at one insert: it meets a live young alert exactly when one slipped in. */
  lemma DuplicateExactlyWhenSlippedIn(steps: seq<Step>, n: nat)
    requires IsInterleaving(steps) && n < |steps| && steps[n].Insert? && HasKey(steps[n].call.key)
    ensures Duplicate(TableAt(steps, n).alerts, steps[n].call.key, steps[n].call.insertedAt) <==>
            exists m :: 0 <= m < n && SlippedIn(steps, m, n)
  {
    var alerts, c := TableAt(steps, n).alerts, steps[n].call;
    if id :| 0 <= id < |alerts| && alerts[id].key == c.key && Active(alerts[id]) && alerts[id].createdAt > c.insertedAt - DEDUP_WINDOW {
      var m := AlertHasInsert(steps, n, id);
      AlertLives(steps, m, n);
      assert PassedItsCheck(steps, n);
      if m < steps[n].checked {
        EarlierAlertsAreNoDuplicates(steps, m, n);
      }
      assert SlippedIn(steps, m, n);
    }
    if m :| 0 <= m < n && SlippedIn(steps, m, n) {
      AlertLives(steps, m, n);
      assert alerts[IdAt(steps, m)].key == c.key;
    }
  }
}
