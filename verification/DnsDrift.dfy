/**
 DNS drift (internal/dnsquery/drift.go): comparing the provider's records with what
 live DNS answers.  Case folding covers the ASCII letters.
 */
module DnsDrift {
  import opened Collections
  import opened AsciiText

  /** A provider record or a live answer; `value` is the content. */
  datatype Record = Record(rtype: string, name: string, value: string)

  datatype DriftRecord = DriftRecord(rtype: string, name: string, expected: string, actual: string, matched: bool)

  // ── Keys ───────────────────────────────────────────────────────────────────

  function TrimDot(s: string): string {
    if s != [] && s[|s| - 1] == '.' then s[..|s| - 1] else s
  }

  function NormaliseKey(rtype: string, value: string): string {
    Upper(rtype) + "|" + Lower(TrimDot(value))
  }

  /** The value without its last character if that is a dot. */
  predicate IsBare(value: string, bare: string) {
    value == bare + "." || (value == bare && (value == "" || value[|value| - 1] != '.'))
  }

  lemma TrimDotIsBare(value: string, bare: string)
    ensures IsBare(value, bare) <==> bare == TrimDot(value)
  {
  }

  /** For types without a bar, two records share a key exactly when their types differ in nothing but case and so do
      their values, apart from one trailing dot each. */
  lemma KeysMean(r: Record, s: Record)
    requires '|' !in r.rtype && '|' !in s.rtype
    ensures KeyOf(r) == KeyOf(s) <==>
              && SameIgnoringCase(r.rtype, s.rtype)
              && exists v, w :: IsBare(r.value, v) && IsBare(s.value, w) && SameIgnoringCase(v, w)
  {
    var v, w := TrimDot(r.value), TrimDot(s.value);
    TrimDotIsBare(r.value, v);
    TrimDotIsBare(s.value, w);
    assert (forall x, y :: IsBare(r.value, x) && IsBare(s.value, y) ==> x == v && y == w) by {
      forall x, y | IsBare(r.value, x) && IsBare(s.value, y)
        ensures x == v && y == w
      {
        TrimDotIsBare(r.value, x);
        TrimDotIsBare(s.value, y);
      }
    }
    ConversionForgetsCase(r.rtype, s.rtype);
    ConversionForgetsCase(v, w);
    NoBarAfterConversion(r.rtype);
    NoBarAfterConversion(s.rtype);
    BarSplitsOnce(Upper(r.rtype), Lower(v), Upper(s.rtype), Lower(w));
  }

  lemma NoBarAfterConversion(s: string)
    requires '|' !in s
    ensures '|' !in Upper(s)
  {
    assert forall i :: 0 <= i < |s| ==> Upper(s)[i] == UpperChar(s[i]) && s[i] in s;
  }

  lemma BarSplitsOnce(a: string, v: string, b: string, w: string)
    requires '|' !in a && '|' !in b
    ensures a + "|" + v == b + "|" + w <==> a == b && v == w
  {
    var x, y := a + "|" + v, b + "|" + w;
    if x == y {
      assert x[|a|] == '|' && y[|b|] == '|';
      assert forall k :: 0 <= k < |a| ==> x[k] == a[k] && a[k] in a;
      assert forall k :: 0 <= k < |b| ==> y[k] == b[k] && b[k] in b;
      assert |a| == |b|;
      assert x[..|a|] == a && y[..|b|] == b;
      assert x[|a| + 1..] == v && y[|b| + 1..] == w;
    }
  }

  /** A bar in a type can make two different records share a key. */
  lemma BarsCollide(name: string)
    ensures KeyOf(Record("A", name, "1|2")) == KeyOf(Record("A|1", name, "2"))
  {
    assert Upper("A") == "A" && Lower("1|2") == "1|2" && Upper("A|1") == "A|1" && Lower("2") == "2";
  }

  function KeyOf(r: Record): string {
    NormaliseKey(r.rtype, r.value)
  }

  function Keys(records: seq<Record>): set<string> {
    set i | 0 <= i < |records| :: KeyOf(records[i])
  }

  type Index = map<string, Record>

  /** The last record with a key. */
  function LastOf(records: seq<Record>, key: string): Record
    requires key in Keys(records)
  {
    var n := |records| - 1;
    if KeyOf(records[n]) == key then records[n]
    else
      KeyIsEarlier(records, key);
      LastOf(records[..n], key)
  }

  lemma KeyIsEarlier(records: seq<Record>, key: string)
    requires key in Keys(records) && KeyOf(records[|records| - 1]) != key
    ensures key in Keys(records[..|records| - 1])
  {
    var i :| 0 <= i < |records| && KeyOf(records[i]) == key;
    assert records[..|records| - 1][i] == records[i];
  }

  /** It has the key, and no later record does. */
  lemma {:induction false} LastOfIsLast(records: seq<Record>, key: string) returns (i: nat)
    requires key in Keys(records)
    ensures i < |records| && records[i] == LastOf(records, key) && KeyOf(records[i]) == key
    ensures forall j :: i < j < |records| ==> KeyOf(records[j]) != key
  {
    var n := |records| - 1;
    if KeyOf(records[n]) == key {
      i := n;
    } else {
      KeyIsEarlier(records, key);
      i := LastOfIsLast(records[..n], key);
      assert forall j :: i < j < n ==> records[j] == records[..n][j];
    }
  }

  lemma KeysSnoc(records: seq<Record>, r: Record)
    ensures Keys(records + [r]) == Keys(records) + {KeyOf(r)}
  {
    var all := records + [r];
    assert all[|records|] == r;
    forall k | k in Keys(records)
      ensures k in Keys(all)
    {
      var i :| 0 <= i < |records| && KeyOf(records[i]) == k;
      assert all[i] == records[i];
    }
  }

  /** The index holds, for every key that occurs, the last record with that key. */
  ghost predicate IsIndex(records: seq<Record>, index: Index) {
    index.Keys == Keys(records) && forall k :: k in index ==> index[k] == LastOf(records, k)
  }

  method BuildIndex(records: seq<Record>) returns (index: Index)
    ensures IsIndex(records, index)
  {
    index := map[];
    for n := 0 to |records|
      invariant IsIndex(records[..n], index)
    {
      IndexSnoc(records[..n], index, records[n]);
      assert records[..n + 1] == records[..n] + [records[n]];
      index := index[KeyOf(records[n]) := records[n]];
    }
    assert records[..|records|] == records;
  }

  lemma IndexSnoc(records: seq<Record>, index: Index, r: Record)
    requires IsIndex(records, index)
    ensures IsIndex(records + [r], index[KeyOf(r) := r])
  {
    KeysSnoc(records, r);
    assert (records + [r])[..|records|] == records;
  }

  // ── Comparison ─────────────────────────────────────────────────────────────

  /** The entry for one key that is on at least one side. */
  function Entry(e: Index, a: Index, key: string): DriftRecord
    requires key in e || key in a
  {
    if key in e && key in a then DriftRecord(e[key].rtype, e[key].name, e[key].value, a[key].value, true)
    else if key in e then DriftRecord(e[key].rtype, e[key].name, e[key].value, "", false)
    else DriftRecord(a[key].rtype, a[key].name, "", a[key].value, false)
  }

  /** The entries stand one to one for the listed keys. */
  ghost predicate Lists(e: Index, a: Index, keys: seq<string>, entries: seq<DriftRecord>) {
    && |keys| == |entries| && Distinct(keys)
    && forall i :: 0 <= i < |keys| ==> (keys[i] in e || keys[i] in a) && entries[i] == Entry(e, a, keys[i])
  }

  ghost predicate Covers(e: Index, a: Index, keys: seq<string>) {
    forall k :: k in keys <==> k in e || k in a
  }

  /** The comparison of two record lists: one entry per key of either side, sorted. */
  ghost predicate IsComparison(expected: seq<Record>, actual: seq<Record>, entries: seq<DriftRecord>) {
    exists e, a, keys ::
      IsIndex(expected, e) && IsIndex(actual, a) && Lists(e, a, keys, entries) && Covers(e, a, keys) && Sorted(entries)
  }

  lemma ListsSnoc(e: Index, a: Index, keys: seq<string>, entries: seq<DriftRecord>, key: string)
    requires Lists(e, a, keys, entries) && key !in keys && (key in e || key in a)
    ensures Lists(e, a, keys + [key], entries + [Entry(e, a, key)])
  {
  }

  /** The entry stands for the key: it shows the last record of each side that has the key, and matches exactly if both
      sides have one. */
  predicate StandsFor(expected: seq<Record>, actual: seq<Record>, key: string, d: DriftRecord) {
    var left, right := key in Keys(expected), key in Keys(actual);
    && (left || right) && (d.matched <==> left && right)
    && (left ==> Record(d.rtype, d.name, d.expected) == LastOf(expected, key))
    && (right && !left ==> Record(d.rtype, d.name, d.actual) == LastOf(actual, key) && d.expected == "")
    && (left ==> d.actual == if right then LastOf(actual, key).value else "")
  }

  /** What a comparison lists: one entry for each key of either side, and none twice. */
  lemma ComparisonLists(expected: seq<Record>, actual: seq<Record>, entries: seq<DriftRecord>) returns (keys: seq<string>)
    requires IsComparison(expected, actual, entries)
    ensures |keys| == |entries| && Distinct(keys) && forall k :: k in keys <==> k in Keys(expected) || k in Keys(actual)
    ensures forall i :: 0 <= i < |keys| ==> StandsFor(expected, actual, keys[i], entries[i])
    ensures Sorted(entries)
  {
    var e, a, ks :| IsIndex(expected, e) && IsIndex(actual, a) && Lists(e, a, ks, entries) && Covers(e, a, ks) && Sorted(entries);
    keys := ks;
    forall i | 0 <= i < |keys|
      ensures StandsFor(expected, actual, keys[i], entries[i])
    {
      EntryStands(expected, actual, e, a, keys[i]);
    }
  }

  lemma EntryStands(expected: seq<Record>, actual: seq<Record>, e: Index, a: Index, key: string)
    requires IsIndex(expected, e) && IsIndex(actual, a) && (key in e || key in a)
    ensures StandsFor(expected, actual, key, Entry(e, a, key))
  {
  }

  method CompareRecords(expected: seq<Record>, actual: seq<Record>) returns (result: seq<DriftRecord>)
    ensures IsComparison(expected, actual, result)
  {
    var e := BuildIndex(expected);
    var a := BuildIndex(actual);
    ghost var keys;
    result, keys := WalkExpected(e, a);
    result, keys := WalkActual(e, a, result, keys);
    result, keys := SortEntries(e, a, result, keys);
  }

  /** Matched and missing records. */
  method WalkExpected(e: Index, a: Index) returns (result: seq<DriftRecord>, ghost keys: seq<string>)
    ensures Lists(e, a, keys, result) && forall k :: k in keys <==> k in e
  {
    result, keys := [], [];
    var left := e.Keys;
    while left != {}
      invariant left <= e.Keys
      invariant Lists(e, a, keys, result) && forall k :: k in keys <==> k in e && k !in left
      decreases left
    {
      var key := AnyOf(left);
      left := left - {key};
      ListsSnoc(e, a, keys, result, key);
      if key in a {
        result := result + [DriftRecord(e[key].rtype, e[key].name, e[key].value, a[key].value, true)];
      } else {
        result := result + [DriftRecord(e[key].rtype, e[key].name, e[key].value, "", false)];
      }
      keys := keys + [key];
    }
  }

  /** Extra records: live answers whose key was not seen among the expected. */
  method WalkActual(e: Index, a: Index, found: seq<DriftRecord>, ghost foundKeys: seq<string>)
    returns (result: seq<DriftRecord>, ghost keys: seq<string>)
    requires Lists(e, a, foundKeys, found) && forall k :: k in foundKeys <==> k in e
    ensures Lists(e, a, keys, result) && Covers(e, a, keys)
  {
    result, keys := found, foundKeys;
    var left := a.Keys;
    while left != {}
      invariant left <= a.Keys
      invariant Lists(e, a, keys, result) && forall k :: k in keys <==> k in e || (k in a && k !in left)
      decreases left
    {
      var key := AnyOf(left);
      left := left - {key};
      if key in e {
        continue;
      }
      ListsSnoc(e, a, keys, result, key);
      result := result + [DriftRecord(a[key].rtype, a[key].name, "", a[key].value, false)];
      keys := keys + [key];
    }
  }

  // ── Sorting ────────────────────────────────────────────────────────────────

  /** Lexicographic order of strings. */
  predicate StrLess(a: string, b: string) {
    if b == [] then false
    else if a == [] then true
    else a[0] < b[0] || (a[0] == b[0] && StrLess(a[1..], b[1..]))
  }

  /** Two strings are ordered by the first place where they differ; a string comes before its extensions. */
  lemma {:induction false} StrLessMeans(a: string, b: string)
    ensures StrLess(a, b) <==> exists k :: 0 <= k <= |a| && k < |b| && a[..k] == b[..k] && (k == |a| || a[k] < b[k])
  {
    if a != [] && b != [] {
      StrLessMeans(a[1..], b[1..]);
      if k :| 0 <= k <= |a| - 1 && k < |b| - 1 && a[1..][..k] == b[1..][..k] && (k == |a| - 1 || a[1..][k] < b[1..][k]) {
        if a[0] == b[0] {
          assert a[..k + 1] == [a[0]] + a[1..][..k] && b[..k + 1] == [b[0]] + b[1..][..k];
        }
      }
      if k :| 0 < k <= |a| && k < |b| && a[..k] == b[..k] && (k == |a| || a[k] < b[k]) {
        assert a[..k][0] == b[..k][0];
        assert a[1..][..k - 1] == a[..k][1..] == b[1..][..k - 1];
      }
    } else {
      assert a[..0] == b[..0];
    }
  }

  lemma {:induction false} StrTrichotomy(a: string, b: string)
    ensures StrLess(a, b) || a == b || StrLess(b, a)
    ensures !(StrLess(a, b) && StrLess(b, a)) && !StrLess(a, a)
  {
    if a != [] {
      StrTrichotomy(a[1..], a[1..]);
      if b != [] {
        StrTrichotomy(a[1..], b[1..]);
        assert a == [a[0]] + a[1..] && b == [b[0]] + b[1..];
      }
    }
  }

  lemma {:induction false} StrTransitive(a: string, b: string, c: string)
    requires StrLess(a, b) && StrLess(b, c)
    ensures StrLess(a, c)
  {
    if a != [] && a[0] == b[0] == c[0] {
      StrTransitive(a[1..], b[1..], c[1..]);
    }
  }

  /** The sort's less function: type, then name, then the two values run together. */
  predicate Less(x: DriftRecord, y: DriftRecord) {
    if x.rtype != y.rtype then StrLess(x.rtype, y.rtype)
    else if x.name != y.name then StrLess(x.name, y.name)
    else StrLess(x.expected + x.actual, y.expected + y.actual)
  }

  predicate AtMost(x: DriftRecord, y: DriftRecord) {
    !Less(y, x)
  }

  lemma {:induction false} StrChain(a: string, b: string, c: string)
    ensures !StrLess(b, a) && !StrLess(c, b) ==> !StrLess(c, a)
    ensures !StrLess(b, a) && !StrLess(c, b) && a == c ==> a == b
  {
    StrTrichotomy(a, b);
    StrTrichotomy(b, c);
    StrTrichotomy(a, c);
    if StrLess(a, b) && StrLess(b, c) {
      StrTransitive(a, b, c);
    }
  }

  lemma AtMostTransitive(x: DriftRecord, y: DriftRecord, z: DriftRecord)
    requires AtMost(x, y) && AtMost(y, z)
    ensures AtMost(x, z)
  {
    StrTrichotomy(x.rtype, y.rtype);
    StrTrichotomy(y.rtype, z.rtype);
    StrTrichotomy(x.name, y.name);
    StrTrichotomy(y.name, z.name);
    StrChain(x.rtype, y.rtype, z.rtype);
    StrChain(x.name, y.name, z.name);
    StrChain(x.expected + x.actual, y.expected + y.actual, z.expected + z.actual);
  }

  lemma AtMostTotal(x: DriftRecord, y: DriftRecord)
    ensures AtMost(x, y) || AtMost(y, x)
  {
    StrTrichotomy(x.rtype, y.rtype);
    StrTrichotomy(x.name, y.name);
    StrTrichotomy(x.expected + x.actual, y.expected + y.actual);
  }

  ghost predicate Sorted(entries: seq<DriftRecord>) {
    forall i, j :: 0 <= i < j < |entries| ==> AtMost(entries[i], entries[j])
  }

  /** Entries are sorted by type, equal types by name, and equal names by the two values run together. */
  lemma SortedMeans(entries: seq<DriftRecord>, i: nat, j: nat)
    requires Sorted(entries) && i < j < |entries|
    ensures var x, y := entries[i], entries[j];
            && (x.rtype == y.rtype || StrLess(x.rtype, y.rtype))
            && (x.rtype == y.rtype ==> x.name == y.name || StrLess(x.name, y.name))
            && (x.rtype == y.rtype && x.name == y.name ==> !StrLess(y.expected + y.actual, x.expected + x.actual))
  {
    var x, y := entries[i], entries[j];
    assert AtMost(x, y);
    StrTrichotomy(x.rtype, y.rtype);
    StrTrichotomy(x.name, y.name);
  }

  /** Sorts the entries; the keys they stand for are permuted along. */
  method SortEntries(e: Index, a: Index, entries: seq<DriftRecord>, ghost keys: seq<string>)
    returns (sorted: seq<DriftRecord>, ghost sortedKeys: seq<string>)
    requires Lists(e, a, keys, entries)
    ensures Lists(e, a, sortedKeys, sorted) && Sorted(sorted)
    ensures forall k :: k in sortedKeys <==> k in keys
  {
    sorted, sortedKeys := [], [];
    for n := 0 to |entries|
      invariant Lists(e, a, sortedKeys, sorted) && Sorted(sorted)
      invariant forall k :: k in sortedKeys <==> k in keys[..n]
    {
      var p := Position(sorted, entries[n]);
      assert keys[n] !in sortedKeys;
      InsertKeepsLists(e, a, sortedKeys, sorted, keys[n], p);
      InsertKeepsSorted(sorted, entries[n], p);
      sorted := Inserted(sorted, p, entries[n]);
      sortedKeys := Inserted(sortedKeys, p, keys[n]);
    }
    assert keys[..|keys|] == keys;
  }

  /** The first position after every entry that is at most `d`. */
  method Position(sorted: seq<DriftRecord>, d: DriftRecord) returns (p: nat)
    requires Sorted(sorted)
    ensures p <= |sorted|
    ensures forall i :: 0 <= i < p ==> AtMost(sorted[i], d)
    ensures forall i :: p <= i < |sorted| ==> AtMost(d, sorted[i])
  {
    p := 0;
    while p < |sorted| && AtMost(sorted[p], d)
      invariant p <= |sorted| && forall i :: 0 <= i < p ==> AtMost(sorted[i], d)
    {
      p := p + 1;
    }
    forall i | p <= i < |sorted|
      ensures AtMost(d, sorted[i])
    {
      AtMostTotal(d, sorted[p]);
      if p < i {
        AtMostTransitive(d, sorted[p], sorted[i]);
      }
    }
  }

  lemma InsertKeepsSorted(sorted: seq<DriftRecord>, d: DriftRecord, p: nat)
    requires Sorted(sorted) && p <= |sorted|
    requires forall i :: 0 <= i < p ==> AtMost(sorted[i], d)
    requires forall i :: p <= i < |sorted| ==> AtMost(d, sorted[i])
    ensures Sorted(Inserted(sorted, p, d))
  {
  }

  function Inserted<T>(xs: seq<T>, p: nat, x: T): (r: seq<T>)
    requires p <= |xs|
    ensures |r| == |xs| + 1
    ensures forall i :: 0 <= i < |r| ==> r[i] == if i < p then xs[i] else if i == p then x else xs[i - 1]
  {
    xs[..p] + [x] + xs[p..]
  }

  lemma InsertKeepsDistinct(keys: seq<string>, key: string, p: nat)
    requires Distinct(keys) && key !in keys && p <= |keys|
    ensures Distinct(Inserted(keys, p, key))
    ensures forall k :: k in Inserted(keys, p, key) <==> k in keys || k == key
  {
    var after := Inserted(keys, p, key);
    forall k | k in keys ensures k in after {
      var i :| 0 <= i < |keys| && keys[i] == k;
      assert after[if i < p then i else i + 1] == k;
    }
    assert after[p] == key;
  }

  lemma InsertKeepsLists(e: Index, a: Index, keys: seq<string>, entries: seq<DriftRecord>, key: string, p: nat)
    requires Lists(e, a, keys, entries) && key !in keys && (key in e || key in a) && p <= |keys|
    ensures Lists(e, a, Inserted(keys, p, key), Inserted(entries, p, Entry(e, a, key)))
    ensures forall k :: k in Inserted(keys, p, key) <==> k in keys || k == key
  {
    InsertKeepsDistinct(keys, key, p);
    var newKeys, newEntries := Inserted(keys, p, key), Inserted(entries, p, Entry(e, a, key));
    forall i | 0 <= i < |newKeys|
      ensures (newKeys[i] in e || newKeys[i] in a) && newEntries[i] == Entry(e, a, newKeys[i])
    {
    }
  }

  // ── Counters and status ────────────────────────────────────────────────────

  datatype Status = DriftOk | DriftDetected | NoExpected | DriftError

  datatype Result = Result(status: Status, matched: nat, missing: nat, extra: nat, drifted: nat, entries: seq<DriftRecord>)

  datatype Provider = NoProvider | Failing | Answers(records: seq<Record>)

  /** How an entry is counted. */
  datatype Kind = Matched | Missing | Extra | Drifted

  function KindOf(d: DriftRecord): Kind {
    if d.matched then Matched
    else if d.expected != "" && d.actual == "" then Missing
    else if d.expected == "" && d.actual != "" then Extra
    else Drifted
  }

  function Count(entries: seq<DriftRecord>, kind: Kind): nat {
    if entries == [] then 0
    else Count(entries[..|entries| - 1], kind) + (if KindOf(entries[|entries| - 1]) == kind then 1 else 0)
  }

  /** What each kind says about the key behind an entry.  "Drifted" never means a changed value: it is left for an
      unmatched record whose value is empty. */
  lemma KindsMean(e: Index, a: Index, key: string)
    requires key in e || key in a
    ensures var kind := KindOf(Entry(e, a, key));
            && (kind == Matched <==> key in e && key in a)
            && (kind == Missing <==> key in e && key !in a && e[key].value != "")
            && (kind == Extra <==> key !in e && key in a && a[key].value != "")
            && (kind == Drifted <==> (if key in e then key !in a && e[key].value == "" else a[key].value == ""))
  {
  }

  /** The keys whose last record has a value. */
  function WithValue(records: seq<Record>, keys: set<string>): set<string> {
    set k | k in keys && k in Keys(records) && LastOf(records, k).value != ""
  }

  /** A finished check, in terms of the two sides: matches are the common keys; missing and extra are the one-sided
      keys whose record has a value; what is left for the drift counter are one-sided records with an empty value,
      never a changed one.  The status is ok exactly when the key sets are equal. */
  ghost predicate IsResult(expected: seq<Record>, actual: seq<Record>, r: Result) {
    var e, a := Keys(expected), Keys(actual);
    && IsComparison(expected, actual, r.entries)
    && |r.entries| == r.matched + r.missing + r.extra + r.drifted == |e + a|
    && r.matched == |e * a|
    && r.missing == |WithValue(expected, e - a)|
    && r.extra == |WithValue(actual, a - e)|
    && r.drifted == |(e - a) - WithValue(expected, e - a)| + |(a - e) - WithValue(actual, a - e)|
    && r.status == (if e == a then DriftOk else if expected == [] then NoExpected else DriftDetected)
  }

  method CheckDrift(provider: Provider, actual: seq<Record>) returns (r: Result)
    ensures provider.NoProvider? ==> r == Result(NoExpected, 0, 0, 0, 0, [])
    ensures provider.Failing? ==> r == Result(DriftError, 0, 0, 0, 0, [])
    ensures provider.Answers? ==> IsResult(provider.records, actual, r)
  {
    match provider
    case NoProvider => return Result(NoExpected, 0, 0, 0, 0, []);
    case Failing => return Result(DriftError, 0, 0, 0, 0, []);
    case Answers(expected) =>
      var entries := CompareRecords(expected, actual);
      var matched, missing, extra, drifted := CountEntries(entries);
      var status;
      if missing == 0 && drifted == 0 && extra == 0 {
        status := DriftOk;
      } else if |expected| == 0 {
        status := NoExpected;
      } else {
        status := DriftDetected;
      }
      CountersAddUp(expected, actual, entries);
      return Result(status, matched, missing, extra, drifted, entries);
  }

  /** The drift counter is what the other three leave of the entries. */
  lemma CountersAddUp(expected: seq<Record>, actual: seq<Record>, entries: seq<DriftRecord>)
    requires IsComparison(expected, actual, entries)
    ensures var e, a, rest := Keys(expected), Keys(actual), |entries| - Count(entries, Matched) - Count(entries, Missing) - Count(entries, Extra);
            && |entries| == |e + a| && Count(entries, Matched) == |e * a|
            && Count(entries, Missing) == |WithValue(expected, e - a)| && Count(entries, Extra) == |WithValue(actual, a - e)|
            && rest == |(e - a) - WithValue(expected, e - a)| + |(a - e) - WithValue(actual, a - e)|
            && (Count(entries, Matched) == |entries| <==> e == a)
  {
    ComparisonFacts(expected, actual, entries);
    var e, a := Keys(expected), Keys(actual);
    UnionParts(e, a, WithValue(expected, e - a), WithValue(actual, a - e));
  }

  method CountEntries(entries: seq<DriftRecord>) returns (matched: nat, missing: nat, extra: nat, drifted: nat)
    ensures matched == Count(entries, Matched) && missing == Count(entries, Missing)
    ensures extra == Count(entries, Extra) && drifted == Count(entries, Drifted)
    ensures matched + missing + extra + drifted == |entries|
  {
    matched, missing, extra, drifted := 0, 0, 0, 0;
    for i := 0 to |entries|
      invariant matched == Count(entries[..i], Matched) && missing == Count(entries[..i], Missing)
      invariant extra == Count(entries[..i], Extra) && drifted == Count(entries[..i], Drifted)
      invariant matched + missing + extra + drifted == i
    {
      var d := entries[i];
      assert entries[..i + 1][..i] == entries[..i];
      if d.matched {
        matched := matched + 1;
      } else if d.expected != "" && d.actual == "" {
        missing := missing + 1;
      } else if d.expected == "" && d.actual != "" {
        extra := extra + 1;
      } else {
        drifted := drifted + 1;
      }
    }
    assert entries[..|entries|] == entries;
  }

  function SetOf(keys: seq<string>): set<string> {
    set k | k in keys
  }

  /** The listed keys whose entries are of a kind. */
  function OfKind(keys: seq<string>, e: Index, a: Index, kind: Kind): set<string> {
    set k | k in keys && IsOfKind(e, a, k, kind)
  }

  predicate IsOfKind(e: Index, a: Index, k: string, kind: Kind) {
    (k in e || k in a) && KindOf(Entry(e, a, k)) == kind
  }

  lemma {:induction false} DistinctCount(keys: seq<string>)
    requires Distinct(keys)
    ensures |SetOf(keys)| == |keys|
  {
    if keys != [] {
      var n := |keys| - 1;
      DistinctCount(keys[..n]);
      assert keys == keys[..n] + [keys[n]];
      assert SetOf(keys) == SetOf(keys[..n]) + {keys[n]};
    }
  }

  lemma OfKindSnoc(keys: seq<string>, key: string, e: Index, a: Index, kind: Kind)
    requires key !in keys
    ensures |OfKind(keys + [key], e, a, kind)| == |OfKind(keys, e, a, kind)| + (if IsOfKind(e, a, key, kind) then 1 else 0)
  {
    assert OfKind(keys + [key], e, a, kind) == OfKind(keys, e, a, kind) + (if IsOfKind(e, a, key, kind) then {key} else {});
  }

  /** Counting entries of a kind is counting keys. */
  lemma {:induction false} KindCount(e: Index, a: Index, keys: seq<string>, entries: seq<DriftRecord>, kind: Kind)
    requires Lists(e, a, keys, entries)
    ensures Count(entries, kind) == |OfKind(keys, e, a, kind)|
  {
    if keys != [] {
      var n := |keys| - 1;
      KindCount(e, a, keys[..n], entries[..n], kind);
      OfKindSnoc(keys[..n], keys[n], e, a, kind);
      assert keys == keys[..n] + [keys[n]];
      assert entries[n] == Entry(e, a, keys[n]);
    }
  }

  /** The keys of one index that the other lacks and whose record has a value. */
  function Lonely(x: Index, y: Index): set<string> {
    set k | k in x && k !in y && x[k].value != ""
  }

  lemma KindSets(e: Index, a: Index, keys: seq<string>)
    requires Covers(e, a, keys)
    ensures OfKind(keys, e, a, Matched) == e.Keys * a.Keys
    ensures OfKind(keys, e, a, Missing) == Lonely(e, a)
    ensures OfKind(keys, e, a, Extra) == Lonely(a, e)
    ensures SetOf(keys) == e.Keys + a.Keys
  {
    forall k | k in e || k in a
      ensures IsOfKind(e, a, k, Matched) <==> k in e && k in a
      ensures IsOfKind(e, a, k, Missing) <==> k in e && k !in a && e[k].value != ""
      ensures IsOfKind(e, a, k, Extra) <==> k !in e && k in a && a[k].value != ""
    {
      KindsMean(e, a, k);
    }
  }

  lemma LonelyHasValue(records: seq<Record>, x: Index, y: Index)
    requires IsIndex(records, x)
    ensures Lonely(x, y) == WithValue(records, x.Keys - y.Keys)
  {
  }

  /** What the counters of a comparison come to. */
  lemma ComparisonFacts(expected: seq<Record>, actual: seq<Record>, entries: seq<DriftRecord>)
    requires IsComparison(expected, actual, entries)
    ensures var es, as_ := Keys(expected), Keys(actual);
            && |entries| == |es + as_|
            && Count(entries, Matched) == |es * as_|
            && Count(entries, Missing) == |WithValue(expected, es - as_)|
            && Count(entries, Extra) == |WithValue(actual, as_ - es)|
            && (Count(entries, Matched) == |entries| <==> es == as_)
  {
    var e, a, keys :| IsIndex(expected, e) && IsIndex(actual, a) && Lists(e, a, keys, entries) && Covers(e, a, keys) && Sorted(entries);
    DistinctCount(keys);
    KindCount(e, a, keys, entries, Matched);
    KindCount(e, a, keys, entries, Missing);
    KindCount(e, a, keys, entries, Extra);
    KindSets(e, a, keys);
    LonelyHasValue(expected, e, a);
    LonelyHasValue(actual, a, e);
    EqualSizes(Keys(expected), Keys(actual));
  }

  /** A union falls into the common part and, on each side, the keys with and without a property. */
  lemma UnionParts(x: set<string>, y: set<string>, v: set<string>, w: set<string>)
    requires v <= x - y && w <= y - x
    ensures |x + y| == |x * y| + |v| + |w| + |(x - y) - v| + |(y - x) - w|
  {
    assert x + y == x * y + ((x - y) + (y - x));
    assert |x + y| == |x * y| + |(x - y) + (y - x)|;
    assert |(x - y) + (y - x)| == |x - y| + |y - x|;
    assert x - y == v + ((x - y) - v) && y - x == w + ((y - x) - w);
  }

  lemma EqualSizes(x: set<string>, y: set<string>)
    ensures |x * y| == |x + y| <==> x == y
  {
    assert x + y == x * y + ((x - y) + (y - x));
    assert |x + y| == |x * y| + |(x - y) + (y - x)|;
    assert x == y <==> (x - y) + (y - x) == {};
    assert x == y ==> x * y == x + y;
  }
}
