/** Assigning a shard's domain tasks to agents (DispatchShard in internal/release/service.go). */
module RoundRobin {
  import opened Wrappers
  import opened Collections
  import opened ReloadBatching

  /** A domain_task row with what the two lookups made for it return: whether its domain was found,
      and the online agents of its host group (None if that query fails). */
  datatype TaskRow = TaskRow(id: int, domainFound: bool, hostGroup: Option<int>, groupAgents: Option<seq<int>>)

  /** The list an agent is picked from: the host group's online agents, else all online agents. */
  function Pool(row: TaskRow, online: seq<int>): seq<int> {
    if row.hostGroup.Some? && row.hostGroup.value > 0 && row.groupAgents.Some? && row.groupAgents.value != []
    then row.groupAgents.value
    else online
  }

  /** The agent of row number i, if its domain exists and anyone is online. */
  function Chosen(rows: seq<TaskRow>, online: seq<int>, i: nat): Option<int>
    requires i < |rows|
  {
    var pool := Pool(rows[i], online);
    if rows[i].domainFound && pool != [] then Some(pool[i % |pool|]) else None
  }

  /** The dispatch items of the first n rows, in row order. */
  function ItemsOf(rows: seq<TaskRow>, online: seq<int>, n: nat): seq<Item>
    requires n <= |rows|
  {
    if n == 0 then []
    else
      var c := Chosen(rows, online, n - 1);
      ItemsOf(rows, online, n - 1)
      + (if c.Some? then [Item(rows[n - 1].id, c.value, rows[n - 1].hostGroup, false)] else [])
  }

  /** Somebody can be picked for the row: its host group is positive and has agents online, or some agent is online. */
  predicate SomebodyFor(row: TaskRow, online: seq<int>) {
    || online != []
    || (row.hostGroup.Some? && row.hostGroup.value > 0 && row.groupAgents.Some? && row.groupAgents.value != [])
  }

  /** The item of row number i: its id and host group, and agent number i, counted cyclically, of the host group's
      online agents if the group is positive and has any, else of all online agents. */
  predicate IsItemOf(item: Item, row: TaskRow, online: seq<int>, i: nat) {
    && item.domainTask == row.id && item.hostGroup == row.hostGroup && !item.deferReload
    && if row.hostGroup.Some? && row.hostGroup.value > 0 && row.groupAgents.Some? && row.groupAgents.value != []
       then item.agent == row.groupAgents.value[i % |row.groupAgents.value|]
       else online != [] && item.agent == online[i % |online|]
  }

  /** The numbers of the first n rows that get an item. */
  function Served(rows: seq<TaskRow>, online: seq<int>, n: nat): seq<nat>
    requires n <= |rows|
  {
    if n == 0 then []
    else Served(rows, online, n - 1) + if Chosen(rows, online, n - 1).Some? then [n - 1] else []
  }

  /** The rows that get an item are those whose domain is found and for which there is somebody, in order. */
  lemma {:induction false} ServedAre(rows: seq<TaskRow>, online: seq<int>, n: nat)
    requires n <= |rows|
    ensures Positions(Served(rows, online, n), n) && |Served(rows, online, n)| <= n
    ensures forall i :: 0 <= i < n ==> (i in Served(rows, online, n) <==> rows[i].domainFound && SomebodyFor(rows[i], online))
  {
    if n > 0 {
      ServedAre(rows, online, n - 1);
      PositionsGrow(Served(rows, online, n - 1), n - 1);
      ChosenMeans(rows, online, n - 1);
    }
  }

  lemma {:induction false} AsManyItems(rows: seq<TaskRow>, online: seq<int>, n: nat)
    requires n <= |rows|
    ensures |Served(rows, online, n)| == |ItemsOf(rows, online, n)|
  {
    if n > 0 {
      AsManyItems(rows, online, n - 1);
    }
  }

  /** Item number k is that of the k-th row that gets one. */
  lemma {:induction false} ItemMeans(rows: seq<TaskRow>, online: seq<int>, n: nat, k: nat)
    requires n <= |rows| && k < |Served(rows, online, n)| == |ItemsOf(rows, online, n)|
    ensures Served(rows, online, n)[k] < n
    ensures IsItemOf(ItemsOf(rows, online, n)[k], rows[Served(rows, online, n)[k]], online, Served(rows, online, n)[k])
  {
    AsManyItems(rows, online, n - 1);
    if k < |Served(rows, online, n - 1)| {
      ItemMeans(rows, online, n - 1, k);
    } else {
      ChosenMeans(rows, online, n - 1);
    }
  }

  lemma ChosenMeans(rows: seq<TaskRow>, online: seq<int>, i: nat)
    requires i < |rows|
    ensures Chosen(rows, online, i).Some? <==> rows[i].domainFound && SomebodyFor(rows[i], online)
    ensures Chosen(rows, online, i).Some? ==>
              IsItemOf(Item(rows[i].id, Chosen(rows, online, i).value, rows[i].hostGroup, false), rows[i], online, i)
  {
  }

  /** The item-building loop; `unassigned` are the tasks marked failed because there is nobody for them. */
  method BuildItems(rows: seq<TaskRow>, online: seq<int>)
    returns (items: seq<Item>, unassigned: seq<int>, ghost at: seq<nat>)
    ensures items == ItemsOf(rows, online, |rows|)
    ensures Positions(at, |rows|) && |at| == |items| <= |rows|
    ensures forall i :: 0 <= i < |rows| ==> (i in at <==> rows[i].domainFound && SomebodyFor(rows[i], online))
    ensures forall k :: 0 <= k < |items| ==> IsItemOf(items[k], rows[at[k]], online, at[k])
    ensures forall t :: t in unassigned <==>
              exists i :: 0 <= i < |rows| && rows[i].id == t && rows[i].domainFound && !SomebodyFor(rows[i], online)
  {
    items, unassigned := [], [];
    for i := 0 to |rows|
      invariant items == ItemsOf(rows, online, i)
      invariant forall t :: t in unassigned <==>
                  exists j :: 0 <= j < i && rows[j].id == t && rows[j].domainFound && !SomebodyFor(rows[j], online)
    {
      var row := rows[i];
      if !row.domainFound {
        continue;
      }
      var target: Option<int> := None;
      if row.hostGroup.Some? && row.hostGroup.value > 0 {
        if row.groupAgents.Some? && |row.groupAgents.value| > 0 {
          target := Some(row.groupAgents.value[i % |row.groupAgents.value|]);
        }
      }
      if target.None? && |online| > 0 {
        target := Some(online[i % |online|]);
      }
      if target.None? {
        unassigned := unassigned + [row.id];
        continue;
      }
      items := items + [Item(row.id, target.value, row.hostGroup, false)];
    }
    at := Served(rows, online, |rows|);
    ServedAre(rows, online, |rows|);
    AsManyItems(rows, online, |rows|);
    forall k | 0 <= k < |items|
      ensures IsItemOf(items[k], rows[at[k]], online, at[k])
    {
      ItemMeans(rows, online, |rows|, k);
    }
  }

  // ── Balance ────────────────────────────────────────────────────────────────

  /** Every row picks from the same non-empty list. */
  predicate OnePool(rows: seq<TaskRow>, online: seq<int>, pool: seq<int>) {
    && pool != [] && Distinct(pool)
    && forall i :: 0 <= i < |rows| ==> Pool(rows[i], online) == pool
  }

  /** Every row moreover finds its domain. */
  predicate Uniform(rows: seq<TaskRow>, online: seq<int>, pool: seq<int>) {
    OnePool(rows, online, pool) && forall i :: 0 <= i < |rows| ==> rows[i].domainFound
  }

  /** Round-robin share of position p among k after n turns. */
  function Share(n: nat, k: nat, p: nat): nat
    requires p < k
  {
    n / k + if p < n % k then 1 else 0
  }

  lemma ShareStep(n: nat, k: nat, p: nat)
    requires p < k
    ensures Share(n + 1, k, p) == Share(n, k, p) + if n % k == p then 1 else 0
  {
    var q, r := n / k, n % k;
    assert n == k * q + r;
    if r + 1 == k {
      assert k * (q + 1) == k * q + k;
      DivUnique(n + 1, k, q + 1, 0);
    } else {
      DivUnique(n + 1, k, q, r + 1);
    }
  }

  /** The turns of position p among k that went to rows whose domain was not found. */
  function Missed(rows: seq<TaskRow>, k: nat, p: nat, n: nat): nat
    requires p < k && n <= |rows|
  {
    if n == 0 then 0
    else Missed(rows, k, p, n - 1) + if (n - 1) % k == p && !rows[n - 1].domainFound then 1 else 0
  }

  lemma {:induction false} BeforePrefix(xs: seq<Item>, ys: seq<Item>, agent: int, n: nat)
    requires n <= |xs| && xs <= ys
    ensures Before(xs, agent, n) == Before(ys, agent, n)
  {
    if n > 0 {
      BeforePrefix(xs, ys, agent, n - 1);
    }
  }

  /** A failed lookup still takes its turn: whatever the pattern of failed lookups, each agent of the list gets exactly
      its round-robin share less the turns that went to missing domains. */
  lemma {:induction false} SharesAreExact(rows: seq<TaskRow>, online: seq<int>, pool: seq<int>, p: nat, n: nat)
    requires OnePool(rows, online, pool) && p < |pool| && n <= |rows|
    ensures Tasks(ItemsOf(rows, online, n), pool[p]) + Missed(rows, |pool|, p, n) == Share(n, |pool|, p)
  {
    if n > 0 {
      SharesAreExact(rows, online, pool, p, n - 1);
      ShareStep(n - 1, |pool|, p);
      var front, items := ItemsOf(rows, online, n - 1), ItemsOf(rows, online, n);
      BeforePrefix(front, items, pool[p], |front|);
      assert Pool(rows[n - 1], online) == pool;
      if rows[n - 1].domainFound {
        assert items[|front|].agent == pool[(n - 1) % |pool|];
      }
    } else {
      DivUnique(0, |pool|, 0, 0);
    }
  }

  lemma {:induction false} NothingMissed(rows: seq<TaskRow>, k: nat, p: nat, n: nat)
    requires p < k && n <= |rows| && forall i :: 0 <= i < |rows| ==> rows[i].domainFound
    ensures Missed(rows, k, p, n) == 0
  {
    if n > 0 {
      NothingMissed(rows, k, p, n - 1);
    }
  }

  /** With a fixed pool and no failed lookup, any two agents of the pool differ by at most one task. */
  lemma RoundRobinIsBalanced(rows: seq<TaskRow>, online: seq<int>, pool: seq<int>, p: nat, q: nat)
    requires Uniform(rows, online, pool) && p < |pool| && q < |pool|
    ensures var items := ItemsOf(rows, online, |rows|);
            -1 <= Tasks(items, pool[p]) - Tasks(items, pool[q]) <= 1
  {
    SharesAreExact(rows, online, pool, p, |rows|);
    SharesAreExact(rows, online, pool, q, |rows|);
    NothingMissed(rows, |pool|, p, |rows|);
    NothingMissed(rows, |pool|, q, |rows|);
  }

  /** With failed lookups the balance is off by exactly the difference in missed turns, up to one. */
  lemma FailedLookupsUnbalance(rows: seq<TaskRow>, online: seq<int>, pool: seq<int>, p: nat, q: nat)
    requires OnePool(rows, online, pool) && p < |pool| && q < |pool|
    ensures var items, n, k := ItemsOf(rows, online, |rows|), |rows|, |pool|;
            var owed := Missed(rows, k, q, n) - Missed(rows, k, p, n);
            owed - 1 <= Tasks(items, pool[p]) - Tasks(items, pool[q]) <= owed + 1
  {
    SharesAreExact(rows, online, pool, p, |rows|);
    SharesAreExact(rows, online, pool, q, |rows|);
  }
}
