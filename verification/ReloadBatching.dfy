/**
 Reload batching of one dispatch (internal/release/dispatcher.go): which of an
 agent's tasks trigger the nginx reload and which defer it, set in place.
 */
module ReloadBatching {
  import opened Wrappers
  import opened Collections

  /** One dispatchItem; `deferReload` stands for Envelope.DeferReload. */
  datatype Item = Item(domainTask: int, agent: int, hostGroup: Option<int>, deferReload: bool)

  // ── Specification ──────────────────────────────────────────────────────────

  /** How many of the first `n` items belong to the agent. */
  function Before(items: seq<Item>, agent: int, n: nat): nat
    requires n <= |items|
  {
    if n == 0 then 0 else Before(items, agent, n - 1) + (if items[n - 1].agent == agent then 1 else 0)
  }

  function Tasks(items: seq<Item>, agent: int): nat {
    Before(items, agent, |items|)
  }

  /** The agent's first item, or the number of items. */
  function First(items: seq<Item>, agent: int): (i: nat)
    ensures i <= |items|
    ensures i < |items| ==> items[i].agent == agent
  {
    if items == [] then 0
    else if items[0].agent == agent then 0
    else 1 + First(items[1..], agent)
  }

  /** Reload batch size: that of the host group of the agent's first item, 0 if it has none. */
  function BatchSize(items: seq<Item>, sizes: map<int, int>, agent: int): nat {
    var i := First(items, agent);
    if i < |items| && items[i].hostGroup.Some? && items[i].hostGroup.value in sizes && sizes[items[i].hostGroup.value] > 0
    then sizes[items[i].hostGroup.value]
    else 0
  }

  /** Whether the task at this 0-based position among the agent's `n` tasks reloads. */
  predicate Reloads(pos: nat, n: nat, batch: nat) {
    pos + 1 == n || (batch > 0 && (pos + 1) % batch == 0)
  }

  function Deferred(items: seq<Item>, sizes: map<int, int>, i: nat): bool
    requires i < |items|
  {
    var a := items[i].agent;
    if Tasks(items, a) <= 1 then items[i].deferReload
    else !Reloads(Before(items, a, i), Tasks(items, a), BatchSize(items, sizes, a))
  }

  /** The items after batching: the flags are recomputed, nothing else changes. */
  function Batched(items: seq<Item>, sizes: map<int, int>): seq<Item> {
    seq(|items|, i requires 0 <= i < |items| => items[i].(deferReload := Deferred(items, sizes, i)))
  }

  // ── What the specification promises ────────────────────────────────────────

  lemma {:induction false} BeforeGrows(items: seq<Item>, agent: int, i: nat, j: nat)
    requires i <= j <= |items|
    ensures Before(items, agent, i) <= Before(items, agent, j)
    decreases j
  {
    if i < j {
      BeforeGrows(items, agent, i, j - 1);
    }
  }

  /** Counting an agent's items is counting positions. */
  lemma {:induction false} BeforeCounts(items: seq<Item>, agent: int, n: nat)
    requires n <= |items|
    ensures Before(items, agent, n) == |set k: nat | k < n && items[k].agent == agent|
  {
    if n > 0 {
      BeforeCounts(items, agent, n - 1);
      var front := set k: nat | k < n - 1 && items[k].agent == agent;
      assert (set k: nat | k < n && items[k].agent == agent) == if items[n - 1].agent == agent then front + {n - 1} else front;
    }
  }

  /** The batch size of an agent is the positive one that its first item's host group has, or none. */
  lemma {:induction false} BatchSizeIs(items: seq<Item>, sizes: map<int, int>, agent: int, first: nat)
    requires first < |items| && items[first].agent == agent && forall k :: 0 <= k < first ==> items[k].agent != agent
    ensures BatchSize(items, sizes, agent) ==
            match items[first].hostGroup
            case None => 0
            case Some(g) => if g in sizes && sizes[g] > 0 then sizes[g] else 0
  {
    FirstIsFirst(items, agent);
  }

  /** What batching does to an item: nothing if its agent has no other, else it reloads if it is the agent's last or
      completes a batch, and defers the reload otherwise. */
  lemma FlagsMean(items: seq<Item>, sizes: map<int, int>, i: nat)
    requires i < |items|
    ensures var agent, batched := items[i].agent, Batched(items, sizes)[i];
            var total, batch := |set k: nat | k < |items| && items[k].agent == agent|, BatchSize(items, sizes, agent);
            var number := |set k: nat | k < i && items[k].agent == agent| + 1;
            && |Batched(items, sizes)| == |items|
            && batched == items[i].(deferReload := batched.deferReload)
            && (total == 1 ==> batched == items[i])
            && (total != 1 ==> (batched.deferReload <==> number != total && (batch == 0 || number % batch != 0)))
  {
    BeforeCounts(items, items[i].agent, |items|);
    BeforeCounts(items, items[i].agent, i);
    BeforeStrictlyGrows(items, items[i].agent, i, |items|);
  }

  /** How many of the first `n` items are the agent's and reload. */
  function ReloadsBefore(items: seq<Item>, agent: int, n: nat): nat
    requires n <= |items|
  {
    if n == 0 then 0
    else ReloadsBefore(items, agent, n - 1)
         + (if items[n - 1].agent == agent && !items[n - 1].deferReload then 1 else 0)
  }

  /** How many of the positions below `m` reload. */
  function ReloadPositions(m: nat, n: nat, batch: nat): nat {
    if m == 0 then 0 else ReloadPositions(m - 1, n, batch) + (if Reloads(m - 1, n, batch) then 1 else 0)
  }

  function CeilDiv(n: nat, b: nat): nat
    requires b > 0
  {
    if n % b == 0 then n / b else n / b + 1
  }

  lemma {:induction false} PositionsOfItems(items: seq<Item>, sizes: map<int, int>, agent: int, i: nat)
    requires i <= |items| && Tasks(items, agent) >= 2
    ensures ReloadsBefore(Batched(items, sizes), agent, i)
         == ReloadPositions(Before(items, agent, i), Tasks(items, agent), BatchSize(items, sizes, agent))
  {
    if i > 0 {
      PositionsOfItems(items, sizes, agent, i - 1);
    }
  }

  lemma DivStep(m: nat, b: nat)
    requires b > 0
    ensures (m + 1) / b == m / b + (if (m + 1) % b == 0 then 1 else 0)
  {
    var q, r := m / b, m % b;
    assert m == b * q + r;
    if r + 1 == b {
      assert m + 1 == b * (q + 1) + 0;
      DivUnique(m + 1, b, q + 1, 0);
    } else {
      DivUnique(m + 1, b, q, r + 1);
    }
  }

  lemma DivUnique(m: nat, b: nat, q: nat, r: nat)
    requires b > 0 && m == b * q + r && r < b
    ensures m / b == q && m % b == r
  {
    var q', r' := m / b, m % b;
    assert m == b * q' + r';
    if q < q' {
      MulMono(b, q + 1, q');
    } else if q' < q {
      MulMono(b, q' + 1, q);
    }
  }

  lemma MulMono(b: nat, x: nat, y: nat)
    requires x <= y
    ensures b * x <= b * y
  {
    assert b * y == b * x + b * (y - x);
  }

  /** Below the last position only the batch boundaries reload. */
  lemma {:induction false} BoundariesBelowLast(m: nat, n: nat, batch: nat)
    requires m < n
    ensures ReloadPositions(m, n, batch) == if batch == 0 then 0 else m / batch
  {
    if m > 0 {
      BoundariesBelowLast(m - 1, n, batch);
      if batch > 0 {
        DivStep(m - 1, batch);
      }
    }
  }

  /** An agent with n tasks reloads exactly ceil(n / b) times, or once when it has no batch size. */
  lemma ReloadCount(items: seq<Item>, sizes: map<int, int>, agent: int)
    requires Tasks(items, agent) >= 1
    requires forall i :: 0 <= i < |items| && items[i].agent == agent ==> !items[i].deferReload
    ensures var n, b := Tasks(items, agent), BatchSize(items, sizes, agent);
            ReloadsBefore(Batched(items, sizes), agent, |items|) == if b == 0 then 1 else CeilDiv(n, b)
  {
    var n, b := Tasks(items, agent), BatchSize(items, sizes, agent);
    if n == 1 {
      SingleTaskReloads(items, sizes, agent, |items|);
      if b > 1 {
        DivUnique(1, b, 0, 1);
      }
    } else {
      PositionsOfItems(items, sizes, agent, |items|);
      BoundariesBelowLast(n - 1, n, b);
      if b > 0 {
        DivStep(n - 1, b);
      }
    }
  }

  lemma {:induction false} SingleTaskReloads(items: seq<Item>, sizes: map<int, int>, agent: int, i: nat)
    requires i <= |items| && Tasks(items, agent) == 1
    requires forall j :: 0 <= j < |items| && items[j].agent == agent ==> !items[j].deferReload
    ensures ReloadsBefore(Batched(items, sizes), agent, i) == Before(items, agent, i)
  {
    if i > 0 {
      SingleTaskReloads(items, sizes, agent, i - 1);
    }
  }

  /** The last task of every agent reloads. */
  lemma LastTaskReloads(items: seq<Item>, sizes: map<int, int>, i: nat)
    requires i < |items| && Tasks(items, items[i].agent) >= 2
    requires forall j :: i < j < |items| ==> items[j].agent != items[i].agent
    ensures !Batched(items, sizes)[i].deferReload
  {
    NoneAfter(items, items[i].agent, i + 1, |items|);
  }

  lemma {:induction false} NoneAfter(items: seq<Item>, agent: int, i: nat, j: nat)
    requires i <= j <= |items|
    requires forall k :: i <= k < j ==> items[k].agent != agent
    ensures Before(items, agent, j) == Before(items, agent, i)
    decreases j
  {
    if i < j {
      NoneAfter(items, agent, i, j - 1);
    }
  }

  /** Among any `b` consecutive positions of an agent one reloads, so no deferred run reaches the
      batch size. */
  lemma EveryWindowReloads(start: nat, n: nat, batch: nat) returns (pos: nat)
    requires batch > 0 && start + batch <= n
    ensures start <= pos < start + batch && Reloads(pos, n, batch)
  {
    var q, r := start / batch, start % batch;
    pos := start + (batch - r) - 1;
    assert pos + 1 == batch * (q + 1) + 0;
    DivUnique(pos + 1, batch, q + 1, 0);
  }

  /** A run of tasks of one agent, all deferred, spans fewer positions than the batch size. */
  lemma DeferredRunIsShort(items: seq<Item>, sizes: map<int, int>, agent: int, i: nat, j: nat)
    requires i <= j <= |items| && Tasks(items, agent) >= 2 && BatchSize(items, sizes, agent) > 0
    requires forall k :: i <= k < j && items[k].agent == agent ==> Batched(items, sizes)[k].deferReload
    ensures Before(items, agent, j) - Before(items, agent, i) < BatchSize(items, sizes, agent)
  {
    var b, n := BatchSize(items, sizes, agent), Tasks(items, agent);
    var lo, hi := Before(items, agent, i), Before(items, agent, j);
    BeforeGrows(items, agent, i, j);
    BeforeGrows(items, agent, j, |items|);
    if hi - lo >= b {
      var pos := EveryWindowReloads(lo, n, b);
      var k := ItemAt(items, agent, pos, i, j);
    }
  }

  /** The item at a given position of an agent. */
  lemma {:induction false} ItemAt(items: seq<Item>, agent: int, pos: nat, i: nat, j: nat) returns (k: nat)
    requires i <= j <= |items| && Before(items, agent, i) <= pos < Before(items, agent, j)
    ensures i <= k < j && items[k].agent == agent && Before(items, agent, k) == pos
    decreases j
  {
    if i < j && pos < Before(items, agent, j - 1) {
      k := ItemAt(items, agent, pos, i, j - 1);
    } else {
      k := j - 1;
    }
  }

  // ── The in-place algorithm ─────────────────────────────────────────────────

  /** The indices of the agent's items among the first `n`. */
  function IndicesOf(items: seq<Item>, agent: int, n: nat): (r: seq<nat>)
    requires n <= |items|
    ensures |r| == Before(items, agent, n)
  {
    if n == 0 then []
    else IndicesOf(items, agent, n - 1) + (if items[n - 1].agent == agent then [n - 1] else [])
  }

  lemma {:induction false} IndexFacts(items: seq<Item>, agent: int, n: nat, p: nat)
    requires n <= |items| && p < Before(items, agent, n)
    ensures var i := IndicesOf(items, agent, n)[p];
            i < n && items[i].agent == agent && Before(items, agent, i) == p
  {
    if p < Before(items, agent, n - 1) {
      IndexFacts(items, agent, n - 1, p);
    }
  }

  /** The index map built so far: each seen agent with its indices in order. */
  ghost predicate Grouped(items: seq<Item>, groups: map<int, seq<nat>>, n: nat)
    requires n <= |items|
  {
    && (forall i :: 0 <= i < n ==> items[i].agent in groups)
    && (forall a :: a in groups ==> groups[a] == IndicesOf(items, a, n) && groups[a] != [])
  }

  lemma {:induction false} FirstIndex(items: seq<Item>, agent: int, n: nat)
    requires n <= |items| && Before(items, agent, n) > 0
    ensures IndicesOf(items, agent, n)[0] == First(items, agent)
  {
    var i := IndicesOf(items, agent, n)[0];
    IndexFacts(items, agent, n, 0);
    var f := First(items, agent);
    FirstIsFirst(items, agent);
    if f < i {
      BeforeGrows(items, agent, f + 1, i);
    }
  }

  lemma {:induction false} FirstIsFirst(items: seq<Item>, agent: int)
    ensures forall i :: 0 <= i < First(items, agent) ==> items[i].agent != agent
  {
    if items != [] && items[0].agent != agent {
      FirstIsFirst(items[1..], agent);
      assert forall i :: 0 < i < |items| ==> items[i] == items[1..][i - 1];
    }
  }

  /** Every item is either still original or, once its agent is done, has its final flag. */
  ghost predicate Progress(now: seq<Item>, was: seq<Item>, sizes: map<int, int>, todo: set<int>) {
    && |now| == |was|
    && forall k :: 0 <= k < |was| ==>
         now[k] == if was[k].agent in todo then was[k] else was[k].(deferReload := Deferred(was, sizes, k))
  }

  lemma GroupedStep(items: seq<Item>, groups: map<int, seq<nat>>, n: nat)
    requires n < |items| && Grouped(items, groups, n)
    ensures var a := items[n].agent;
            Grouped(items, groups[a := (if a in groups then groups[a] else []) + [n]], n + 1)
  {
    var a := items[n].agent;
    if a !in groups && Before(items, a, n) > 0 {
      var k := ItemAt(items, a, 0, 0, n);
    }
    forall b | b in groups && b != a
      ensures IndicesOf(items, b, n + 1) == IndicesOf(items, b, n)
    {
    }
  }

  /** Sets the flags of one agent that has several tasks. */
  method SetFlags(items: array<Item>, indices: seq<nat>, batch: nat, ghost was: seq<Item>, ghost agent: int)
    requires |was| == items.Length
    requires indices == IndicesOf(was, agent, |was|)
    requires forall k :: 0 <= k < |was| && was[k].agent == agent ==> items[k] == was[k]
    modifies items
    ensures forall k :: 0 <= k < items.Length ==>
              items[k] == if was[k].agent == agent
                          then was[k].(deferReload := !Reloads(Before(was, agent, k), |indices|, batch))
                          else old(items[k])
  {
    for pos := 0 to |indices|
      invariant forall k :: 0 <= k < items.Length ==>
                  items[k] == if was[k].agent == agent && Before(was, agent, k) < pos
                              then was[k].(deferReload := !Reloads(Before(was, agent, k), |indices|, batch))
                              else old(items[k])
    {
      var doReload := pos == |indices| - 1 || (batch > 0 && (pos + 1) % batch == 0);
      IndexFacts(was, agent, |was|, pos);
      var idx := indices[pos];
      forall k | 0 <= k < |was| && was[k].agent == agent && Before(was, agent, k) == pos
        ensures k == idx
      {
        SamePositionSameItem(was, agent, k, idx);
      }
      items[idx] := items[idx].(deferReload := !doReload);
    }
    forall k | 0 <= k < |was| && was[k].agent == agent
      ensures Before(was, agent, k) < |indices|
    {
      BeforeStrictlyGrows(was, agent, k, |was|);
    }
  }

  lemma SamePositionSameItem(items: seq<Item>, agent: int, i: nat, j: nat)
    requires i < |items| && j < |items| && items[i].agent == items[j].agent == agent
    requires Before(items, agent, i) == Before(items, agent, j)
    ensures i == j
  {
    if i < j {
      BeforeStrictlyGrows(items, agent, i, j);
    } else if j < i {
      BeforeStrictlyGrows(items, agent, j, i);
    }
  }

  lemma BeforeStrictlyGrows(items: seq<Item>, agent: int, i: nat, j: nat)
    requires i < j <= |items| && items[i].agent == agent
    ensures Before(items, agent, i) < Before(items, agent, j)
  {
    BeforeGrows(items, agent, i + 1, j);
  }

  /** One agent's turn: a single task is left alone, several get their flags. */
  method BatchAgent(items: array<Item>, indices: seq<nat>, sizes: map<int, int>,
                    ghost was: seq<Item>, ghost agent: int, ghost todo: set<int>)
    requires |was| == items.Length && Progress(items[..], was, sizes, todo) && agent in todo
    requires indices == IndicesOf(was, agent, |was|) && indices != []
    modifies items
    ensures Progress(items[..], was, sizes, todo - {agent})
  {
    if |indices| > 1 {
      FirstIndex(was, agent, |was|);
      IndexFacts(was, agent, |was|, 0);
      var batch := 0;
      var hostGroup := items[indices[0]].hostGroup;
      if hostGroup.Some? && hostGroup.value in sizes && sizes[hostGroup.value] > 0 {
        batch := sizes[hostGroup.value];
      }
      SetFlags(items, indices, batch, was, agent);
    }
  }

  /** The index map: agent to the positions of its items. */
  method GroupByAgent(items: seq<Item>) returns (groups: map<int, seq<nat>>)
    ensures Grouped(items, groups, |items|)
  {
    groups := map[];
    for i := 0 to |items|
      invariant Grouped(items, groups, i)
    {
      var a := items[i].agent;
      GroupedStep(items, groups, i);
      groups := groups[a := (if a in groups then groups[a] else []) + [i]];
    }
  }

  lemma NothingDoneYet(was: seq<Item>, groups: map<int, seq<nat>>, sizes: map<int, int>)
    requires Grouped(was, groups, |was|)
    ensures Progress(was, was, sizes, groups.Keys)
  {
  }

  lemma AllDone(now: seq<Item>, was: seq<Item>, sizes: map<int, int>)
    requires Progress(now, was, sizes, {})
    ensures now == Batched(was, sizes)
  {
  }

  /** Groups the indices by agent, then rewrites the flags agent by agent in whatever order the map
      yields them; the outcome is the same for every order. */
  method ApplyReloadBatching(items: array<Item>, sizes: map<int, int>)
    modifies items
    ensures items[..] == Batched(old(items[..]), sizes)
  {
    ghost var was := items[..];
    var groups := GroupByAgent(items[..]);
    NothingDoneYet(was, groups, sizes);
    var todo := groups.Keys;
    while todo != {}
      invariant todo <= groups.Keys && Progress(items[..], was, sizes, todo)
      decreases |todo|
    {
      var a := AnyOf(todo);
      BatchAgent(items, groups[a], sizes, was, a, todo);
      todo := todo - {a};
    }
    AllDone(items[..], was, sizes);
  }
}
