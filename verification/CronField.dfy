/**
 One field of a cron expression as text (internal/maintenance/service.go,
 matchCronField): a star, or comma-separated parts of which only a leading
 integer is read.
 */
module CronField {
  import opened Wrappers
  import opened DecimalText

  // ── Splitting and joining ──────────────────────────────────────────────────

  /** strings.Split: always at least one part. */
  function Split(s: Text, sep: char): (parts: seq<Text>)
    ensures |parts| >= 1
  {
    if s == [] then [[]]
    else
      var rest := Split(s[1..], sep);
      if s[0] == sep then [[]] + rest else [[s[0]] + rest[0]] + rest[1..]
  }

  function Join(parts: seq<Text>, sep: char): Text
    requires |parts| >= 1
  {
    if |parts| == 1 then parts[0] else parts[0] + [sep] + Join(parts[1..], sep)
  }

  lemma {:induction false} JoinUndoesSplit(s: Text, sep: char)
    ensures Join(Split(s, sep), sep) == s
    ensures forall p :: p in Split(s, sep) ==> sep !in p
  {
    if s != [] {
      var rest := Split(s[1..], sep);
      JoinUndoesSplit(s[1..], sep);
      if s[0] != sep {
        assert ([[s[0]] + rest[0]] + rest[1..])[1..] == rest[1..];
        assert Join(rest, sep) == s[1..];
        assert Join([[s[0]] + rest[0]] + rest[1..], sep) == [s[0]] + s[1..];
      } else {
        assert ([[]] + rest)[1..] == rest;
      }
    }
  }

  lemma {:induction false} SplitWhole(p: Text, sep: char)
    requires sep !in p
    ensures Split(p, sep) == [p]
  {
    if p != [] {
      SplitWhole(p[1..], sep);
      assert [p[0]] + p[1..] == p;
    }
  }

  lemma {:induction false} SplitAtSeparator(p: Text, s: Text, sep: char)
    requires sep !in p
    ensures Split(p + [sep] + s, sep) == [p] + Split(s, sep)
  {
    var all := p + [sep] + s;
    if p == [] {
      assert all[1..] == s;
    } else {
      SplitAtSeparator(p[1..], s, sep);
      assert all[1..] == p[1..] + [sep] + s;
      assert [p[0]] + p[1..] == p;
    }
  }

  lemma {:induction false} SplitUndoesJoin(parts: seq<Text>, sep: char)
    requires |parts| >= 1 && forall p :: p in parts ==> sep !in p
    ensures Split(Join(parts, sep), sep) == parts
  {
    if |parts| == 1 {
      SplitWhole(parts[0], sep);
    } else {
      SplitUndoesJoin(parts[1..], sep);
      SplitAtSeparator(parts[0], Join(parts[1..], sep), sep);
    }
  }

  // ── Trimming ───────────────────────────────────────────────────────────────

  predicate IsSpace(c: char) {
    || '\U{9}' <= c <= '\U{D}' || c == ' ' || c == '\U{85}' || c == '\U{A0}'
    || c == '\U{1680}' || '\U{2000}' <= c <= '\U{200A}' || c == '\U{2028}' || c == '\U{2029}'
    || c == '\U{202F}' || c == '\U{205F}' || c == '\U{3000}'
  }

  function TrimSpace(s: Text): Text
    decreases |s|
  {
    if s == [] then []
    else if IsSpace(s[0]) then TrimSpace(s[1..])
    else if IsSpace(s[|s| - 1]) then TrimSpace(s[..|s| - 1])
    else s
  }

  predicate AllSpaces(s: Text) {
    forall i :: 0 <= i < |s| ==> IsSpace(s[i])
  }

  lemma {:induction false} TrimFront(a: Text, s: Text)
    requires AllSpaces(a)
    ensures TrimSpace(a + s) == TrimSpace(s)
  {
    if a == [] {
      assert a + s == s;
    } else {
      TrimFront(a[1..], s);
      assert (a + s)[1..] == a[1..] + s;
    }
  }

  lemma {:induction false} TrimBack(s: Text, b: Text)
    requires AllSpaces(b)
    ensures TrimSpace(s + b) == TrimSpace(s)
    decreases |s| + |b|
  {
    if b == [] {
      assert s + b == s;
    } else if s == [] {
      TrimFront(b, []);
      assert s + b == b + [];
    } else if IsSpace(s[0]) {
      TrimBack(s[1..], b);
      assert (s + b)[1..] == s[1..] + b;
    } else {
      TrimBack(s, b[..|b| - 1]);
      assert (s + b)[..|s + b| - 1] == s + b[..|b| - 1];
    }
  }

  // ── Integers ───────────────────────────────────────────────────────────────

  function DigitRun(s: Text): (k: nat)
    ensures k <= |s| && AllDigits(s[..k]) && (k < |s| ==> !IsDigit(s[k]))
  {
    if s == [] || !IsDigit(s[0]) then 0 else 1 + DigitRun(s[1..])
  }

  /** Sscanf with "%d": an optional sign and the digits after it; what follows is not looked at. */
  function ScanInt(s: Text): Option<int> {
    var signed := s != [] && (s[0] == '+' || s[0] == '-');
    var body := if signed then s[1..] else s;
    var k := DigitRun(body);
    if k == 0 then None
    else
      var n: int := DecimalValue(body[..k]);
      Some(if signed && s[0] == '-' then -n else n)
  }

  lemma {:induction false} DigitRunStops(ds: Text, rest: Text)
    requires AllDigits(ds)
    requires rest == [] || !IsDigit(rest[0])
    ensures DigitRun(ds + rest) == |ds|
  {
    if ds != [] {
      DigitRunStops(ds[1..], rest);
      assert (ds + rest)[1..] == ds[1..] + rest;
    } else {
      assert ds + rest == rest;
    }
  }

  /** Scanning a printed number gives it back, whatever non-digit text follows. */
  lemma ScanUndoesDecimal(n: nat, rest: Text)
    requires rest == [] || !IsDigit(rest[0])
    ensures ScanInt(Decimal(n) + rest) == Some(n)
  {
    var ds := Decimal(n);
    assert IsDigit(ds[0]);
    DigitRunStops(ds, rest);
    assert (ds + rest)[..|ds|] == ds;
    DecimalRoundTrip(n);
  }

  /** A minus in front makes the number negative, a plus changes nothing. */
  lemma ScanReadsSigns(n: nat, rest: Text)
    requires rest == [] || !IsDigit(rest[0])
    ensures ScanInt(['-'] + (Decimal(n) + rest)) == Some(-(n as int)) && ScanInt(['+'] + (Decimal(n) + rest)) == Some(n)
  {
    var ds := Decimal(n);
    DigitRunStops(ds, rest);
    assert (ds + rest)[..|ds|] == ds;
    DecimalRoundTrip(n);
    assert (['-'] + (ds + rest))[1..] == ds + rest && (['+'] + (ds + rest))[1..] == ds + rest;
  }

  /** A text scans exactly if it starts with a digit, or with a sign and a digit. */
  lemma ScansExactly(s: Text)
    ensures ScanInt(s).Some? <==>
            || (s != [] && IsDigit(s[0]))
            || (|s| > 1 && (s[0] == '+' || s[0] == '-') && IsDigit(s[1]))
  {
  }

  // ── The matcher ────────────────────────────────────────────────────────────

  function PartValue(part: Text): Option<int> {
    ScanInt(TrimSpace(part))
  }

  /** White space around a part makes no difference. */
  lemma SpacesAroundAPart(before: Text, part: Text, after: Text)
    requires AllSpaces(before) && AllSpaces(after)
    ensures PartValue(before + part + after) == PartValue(part)
  {
    assert before + part + after == before + (part + after);
    TrimFront(before, part + after);
    TrimBack(part, after);
  }

  /** Spaces around a number that stands alone in its part do not keep it from matching. */
  lemma SpacedNumberMatches(before: Text, n: nat, after: Text)
    requires AllSpaces(before) && AllSpaces(after)
    ensures PartValue(before + Decimal(n) + after) == Some(n)
  {
    SpacesAroundAPart(before, Decimal(n), after);
    PartOfDecimal(n);
  }

  /** Some comma-separated part scans as the value. */
  predicate Matches(field: Text, value: int) {
    field == "*" || exists p :: p in Split(field, ',') && PartValue(p) == Some(value)
  }

  method MatchCronField(field: Text, value: int) returns (r: bool)
    ensures r <==> Matches(field, value)
  {
    if field == "*" {
      return true;
    }
    var parts := Split(field, ',');
    for i := 0 to |parts|
      invariant forall k :: 0 <= k < i ==> PartValue(parts[k]) != Some(value)
    {
      var n := PartValue(parts[i]);
      if n == Some(value) {
        assert parts[i] in Split(field, ',');
        return true;
      }
    }
    return false;
  }

  /** The text of a list field: "N" or "N,M,...". */
  function ListField(ns: seq<nat>): Text
    requires |ns| >= 1
  {
    Join(seq(|ns|, i requires 0 <= i < |ns| => Decimal(ns[i])), ',')
  }

  lemma {:induction false} JoinStart(parts: seq<Text>, sep: char)
    requires |parts| >= 1 && |parts[0]| >= 1
    ensures |Join(parts, sep)| >= 1 && Join(parts, sep)[0] == parts[0][0]
  {
  }

  lemma TrimNothing(s: Text)
    requires s != [] && !IsSpace(s[0]) && !IsSpace(s[|s| - 1])
    ensures TrimSpace(s) == s
  {
  }

  lemma PartOfDecimal(n: nat)
    ensures PartValue(Decimal(n)) == Some(n)
  {
    var s := Decimal(n);
    assert IsDigit(s[0]) && IsDigit(s[|s| - 1]);
    TrimNothing(s);
    ScanUndoesDecimal(n, []);
    assert s + [] == s;
  }

  /** A list field matches exactly the numbers in the list. */
  lemma ListFieldMatchesItsMembers(ns: seq<nat>, value: int)
    requires |ns| >= 1
    ensures Matches(ListField(ns), value) <==> value in ns
  {
    var parts := seq(|ns|, i requires 0 <= i < |ns| => Decimal(ns[i]));
    var field := ListField(ns);
    JoinStart(parts, ',');
    assert IsDigit(parts[0][0]);
    assert field != "*";
    SplitUndoesJoin(parts, ',');
    forall i | 0 <= i < |ns|
      ensures PartValue(parts[i]) == Some(ns[i])
    {
      PartOfDecimal(ns[i]);
    }
    if value in ns {
      var i :| 0 <= i < |ns| && ns[i] == value;
      assert parts[i] in Split(field, ',');
    }
  }

  lemma {:induction false} TrimKeepsFirst(s: Text)
    requires s != [] && !IsSpace(s[0])
    ensures TrimSpace(s) != [] && TrimSpace(s)[0] == s[0]
    decreases |s|
  {
    if IsSpace(s[|s| - 1]) {
      TrimKeepsFirst(s[..|s| - 1]);
    }
  }

  /** Steps are not supported: a star followed by anything matches nothing. */
  lemma StepFieldMatchesNothing(rest: Text, value: int)
    requires rest != [] && ',' !in rest
    ensures !Matches("*" + rest, value)
  {
    SplitWhole("*" + rest, ',');
    TrimKeepsFirst("*" + rest);
    var t := TrimSpace("*" + rest);
    assert t[0] == '*';
    assert DigitRun(t) == 0;
  }

  lemma NumberWithSuffix(n: nat, suffix: Text)
    requires suffix != [] && !IsDigit(suffix[0]) && !IsSpace(suffix[|suffix| - 1])
    ensures PartValue(Decimal(n) + suffix) == Some(n)
  {
    var part := Decimal(n) + suffix;
    assert part[0] == Decimal(n)[0] && part[|part| - 1] == suffix[|suffix| - 1];
    TrimNothing(part);
    ScanUndoesDecimal(n, suffix);
  }

  /** Ranges are not supported: "a-b" matches a alone. */
  lemma RangeFieldMatchesItsStart(a: nat, b: nat, value: int)
    ensures Matches(Decimal(a) + ['-'] + Decimal(b), value) <==> value == a
  {
    var upper := Decimal(b);
    var field := Decimal(a) + (['-'] + upper);
    assert field == Decimal(a) + ['-'] + upper;
    assert (['-'] + upper)[|upper|] == upper[|upper| - 1];
    NumberWithSuffix(a, ['-'] + upper);
    SplitWhole(field, ',');
    assert field in Split(field, ',');
    assert field[0] == Decimal(a)[0];
  }
}
