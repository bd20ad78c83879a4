/**
 The Redis tracker without a lock (internal/gfw/confidence.go): Record loads a
 domain's state and saves a new one, so calls that overlap can lose observations.

 A history lists the writes to one domain's key in the order they happen.  A save
 remembers how many writes had happened when its call loaded the state.
 */
module TrackerRaces {
  import opened ConfidenceTracker

  datatype Write =
    | Save(loadedAt: nat, node: Node, blocking: string)
    | Delete

  /** Every save was loaded before it was written. */
  predicate IsHistory(writes: seq<Write>) {
    forall i :: 0 <= i < |writes| && writes[i].Save? ==> writes[i].loadedAt <= i
  }

  /** How many writes the state that write `i` builds on had seen. */
  function Base(writes: seq<Write>, i: nat): (n: nat)
    requires IsHistory(writes) && i < |writes|
    ensures n <= i
  {
    if writes[i].Save? then writes[i].loadedAt else i
  }

  /** The stored state after the first `n` writes. */
  function Stored(writes: seq<Write>, n: nat): Confidence
    requires IsHistory(writes) && n <= |writes|
    decreases n
  {
    if n == 0 then FRESH
    else match writes[n - 1]
      case Save(loadedAt, node, blocking) => Observed(Stored(writes, loadedAt), node, blocking)
      case Delete => FRESH
  }

  /** The writes the stored state goes back to, in order: a save builds on what its call had loaded, whatever was
      written in between. */
  function Kept(writes: seq<Write>, n: nat): (kept: seq<nat>)
    requires IsHistory(writes) && n <= |writes|
    ensures forall k :: 0 <= k < |kept| ==> kept[k] < n
    decreases n
  {
    if n == 0 then [] else Kept(writes, Base(writes, n - 1)) + [n - 1]
  }

  function CallOf(w: Write, domain: int): Call {
    match w
    case Save(_, node, blocking) => Record(domain, node, blocking)
    case Delete => Expire(domain)
  }

  /** The tracker calls of the given writes. */
  function CallsOf(writes: seq<Write>, at: seq<nat>, domain: int): seq<Call>
    requires forall k :: 0 <= k < |at| ==> at[k] < |writes|
  {
    seq(|at|, k requires 0 <= k < |at| => CallOf(writes[at[k]], domain))
  }

  /** Overlapping calls leave exactly the state that the kept calls alone, one after the other, would leave. */
  lemma {:induction false} RacesActLikeTheKeptCalls(writes: seq<Write>, n: nat, domain: int)
    requires IsHistory(writes) && n <= |writes|
    ensures Stored(writes, n) == Load(Run(CallsOf(writes, Kept(writes, n), domain)), domain)
    decreases n
  {
    if n > 0 {
      var before := Kept(writes, Base(writes, n - 1));
      RacesActLikeTheKeptCalls(writes, Base(writes, n - 1), domain);
      assert CallsOf(writes, before + [n - 1], domain) == CallsOf(writes, before, domain) + [CallOf(writes[n - 1], domain)];
      RunSnoc(CallsOf(writes, before, domain), CallOf(writes[n - 1], domain));
    }
  }

  lemma RunSnoc(calls: seq<Call>, c: Call)
    ensures Run(calls + [c]) == Step(Run(calls), c)
  {
    assert (calls + [c])[..|calls|] == calls;
  }

  /** So the score of the stored state is about the kept observations: two reporters, and whether the last three agree,
      among those alone. */
  lemma RacyScoreMeans(writes: seq<Write>, n: nat, domain: int)
    requires IsHistory(writes) && n <= |writes|
    ensures var score, obs := ScoreFromState(Stored(writes, n)), Since(CallsOf(writes, Kept(writes, n), domain), domain);
            && (score >= 70 <==> TwoReporters(obs))
            && (score == 90 <==> TwoReporters(obs) && ThreeAlike(obs))
            && (score == 0 <==> obs == [])
  {
    RacesActLikeTheKeptCalls(writes, n, domain);
    ScoreMeans(CallsOf(writes, Kept(writes, n), domain), domain);
  }

  /** Write `i` fell between the load and the save of write `j`. */
  predicate Overtaken(writes: seq<Write>, i: nat, j: nat) {
    i < j < |writes| && writes[j].Save? && writes[j].loadedAt <= i
  }

  /** Exactly the writes that fell between the load and the save of a kept one are lost. */
  lemma {:induction false} LostExactly(writes: seq<Write>, n: nat, i: nat)
    requires IsHistory(writes) && i < n <= |writes|
    ensures i !in Kept(writes, n) <==> exists j :: j in Kept(writes, n) && Overtaken(writes, i, j)
    decreases n
  {
    var last, from := n - 1, Base(writes, n - 1);
    var before, kept := Kept(writes, from), Kept(writes, n);
    assert forall j :: j in kept <==> j in before || j == last;
    if i < from {
      LostExactly(writes, from, i);
    } else if i < last {
      assert Overtaken(writes, i, last);
    }
  }

  /** Nothing is lost exactly when every save was loaded after the write before it: no two calls overlapped. */
  lemma {:induction false} NothingLostExactly(writes: seq<Write>, n: nat)
    requires IsHistory(writes) && n <= |writes|
    ensures |Kept(writes, n)| <= n
    ensures |Kept(writes, n)| == n <==> forall i :: 0 <= i < n && writes[i].Save? ==> writes[i].loadedAt == i
    decreases n
  {
    if n > 0 {
      NothingLostExactly(writes, Base(writes, n - 1));
    }
  }
}
