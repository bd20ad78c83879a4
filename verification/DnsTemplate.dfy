/**
 DNS record templates (internal/dnstemplate/service.go): finding `{{name}}`
 placeholders, listing the variables and substituting them.

 Upper-casing covers the ASCII letters.
 */
module DnsTemplate {
  import opened Wrappers
  import opened Collections
  import opened AsciiText

  // ── Scanning ───────────────────────────────────────────────────────────────

  predicate IsStart(c: char) {
    'a' <= c <= 'z' || 'A' <= c <= 'Z' || c == '_'
  }

  predicate IsPart(c: char) {
    IsStart(c) || '0' <= c <= '9'
  }

  predicate IsName(s: string) {
    s != [] && IsStart(s[0]) && forall i :: 0 <= i < |s| ==> IsPart(s[i])
  }

  const OPEN := ['{', '{']
  const CLOSE := ['}', '}']

  function Placeholder(name: string): string {
    OPEN + name + CLOSE
  }

  /** Length of the longest run of name characters. */
  function NameRun(s: string): (k: nat)
    ensures k <= |s| && (forall i :: 0 <= i < k ==> IsPart(s[i])) && (k < |s| ==> !IsPart(s[k]))
  {
    if s == [] || !IsPart(s[0]) then 0 else 1 + NameRun(s[1..])
  }

  /** The name of the placeholder that the text starts with, if it starts with one. */
  function Leading(s: string): Option<string> {
    if |s| < 2 || s[0] != '{' || s[1] != '{' then None
    else
      var k := NameRun(s[2..]);
      if k > 0 && IsStart(s[2]) && k + 4 <= |s| && s[k + 2] == '}' && s[k + 3] == '}' then Some(s[2..k + 2]) else None
  }

  lemma {:induction false} NameRunStops(name: string, rest: string)
    requires forall i :: 0 <= i < |name| ==> IsPart(name[i])
    requires rest != [] && !IsPart(rest[0])
    ensures NameRun(name + rest) == |name|
  {
    if name == [] {
      assert name + rest == rest;
    } else {
      NameRunStops(name[1..], rest);
      assert (name + rest)[1..] == name[1..] + rest;
    }
  }

  lemma LeadingGivesPrefix(s: string)
    requires Leading(s).Some?
    ensures var name := Leading(s).value; IsName(name) && Placeholder(name) <= s
  {
    var name := Leading(s).value;
    var k := NameRun(s[2..]);
    assert name == s[2..][..k];
    assert forall i :: 0 <= i < k ==> name[i] == s[2..][i];
    assert s[..k + 4] == s[..2] + s[2..k + 2] + s[k + 2..k + 4];
    assert s[..2] == OPEN && s[k + 2..k + 4] == CLOSE;
  }

  lemma PlaceholderLeads(name: string, rest: string)
    requires IsName(name)
    ensures Leading(Placeholder(name) + rest) == Some(name)
  {
    var s := Placeholder(name) + rest;
    NameRunStops(name, CLOSE + rest);
    assert s[2..] == name + (CLOSE + rest);
    assert s[2..|name| + 2] == name;
  }

  /** A text starts with a placeholder exactly when it is one followed by anything: two braces, a letter or underscore,
      letters, digits and underscores, two braces. */
  lemma LeadingIsPrefix(s: string, name: string)
    ensures Leading(s) == Some(name) <==> IsName(name) && Placeholder(name) <= s
    ensures Leading(s) == Some(name) <==>
              && name != "" && ("{{" + name + "}}") <= s
              && ('a' <= name[0] <= 'z' || 'A' <= name[0] <= 'Z' || name[0] == '_')
              && forall i :: 0 <= i < |name| ==>
                   'a' <= name[i] <= 'z' || 'A' <= name[i] <= 'Z' || name[i] == '_' || '0' <= name[i] <= '9'
  {
    if Leading(s).Some? {
      LeadingGivesPrefix(s);
    }
    if IsName(name) && Placeholder(name) <= s {
      PlaceholderLeads(name, s[|name| + 4..]);
      PrefixAndRest(Placeholder(name), s);
    }
  }

  datatype Segment = Lit(c: char) | Var(name: string)

  /** Leftmost matches, left to right. */
  function Scan(s: string): seq<Segment>
    decreases |s|
  {
    if s == [] then []
    else
      match Leading(s)
      case Some(name) => [Var(name)] + Scan(s[|name| + 4..])
      case None => [Lit(s[0])] + Scan(s[1..])
  }

  function PrintOne(seg: Segment): string {
    if seg.Lit? then [seg.c] else Placeholder(seg.name)
  }

  function Print(segs: seq<Segment>): string {
    if segs == [] then [] else PrintOne(segs[0]) + Print(segs[1..])
  }

  lemma PrintCons(seg: Segment, segs: seq<Segment>)
    ensures Print([seg] + segs) == PrintOne(seg) + Print(segs)
  {
    assert ([seg] + segs)[1..] == segs;
  }

  /** Scanning and printing gives the text back. */
  lemma {:induction false} PrintUndoesScan(s: string)
    ensures Print(Scan(s)) == s
    decreases |s|
  {
    if s != [] {
      match Leading(s)
      case Some(name) =>
        LeadingIsPrefix(s, name);
        var rest := s[|name| + 4..];
        PrintUndoesScan(rest);
        PrintCons(Var(name), Scan(rest));
        PrefixAndRest(Placeholder(name), s);
      case None =>
        PrintUndoesScan(s[1..]);
        PrintCons(Lit(s[0]), Scan(s[1..]));
    }
  }

  lemma PrefixAndRest(p: string, s: string)
    requires p <= s
    ensures p + s[|p|..] == s
  {
  }

  /** The segments a scan can produce: proper names, and no literal that begins a placeholder. */
  predicate Canonical(segs: seq<Segment>) {
    segs != [] ==>
      && (if segs[0].Var? then IsName(segs[0].name) else Leading(Print(segs)).None?)
      && Canonical(segs[1..])
  }

  /** Printing and scanning gives the segments back exactly when they are canonical. */
  lemma {:induction false} ScanUndoesPrint(segs: seq<Segment>)
    ensures Scan(Print(segs)) == segs <==> Canonical(segs)
  {
    if segs != [] {
      var s, rest := Print(segs), Print(segs[1..]);
      ScanUndoesPrint(segs[1..]);
      if segs[0].Var? {
        ScanOfVar(segs[0].name, rest);
      } else {
        assert s[1..] == rest;
        assert Leading(s).None? ==> Scan(s) == [segs[0]] + Scan(rest);
        assert Leading(s).Some? ==> Scan(s)[0].Var?;
      }
      assert segs == [segs[0]] + segs[1..];
      assert segs[0] == Scan(s)[0] ==> (Scan(s) == [segs[0]] + Scan(rest));
    }
  }

  lemma ScanOfVar(name: string, rest: string)
    ensures var s := Placeholder(name) + rest;
            if IsName(name) then Scan(s) == [Var(name)] + Scan(rest) else Scan(s)[0] != Var(name)
  {
    var s := Placeholder(name) + rest;
    if IsName(name) {
      PlaceholderLeads(name, rest);
      assert s[|name| + 4..] == rest;
    } else {
      NotAName(s, name);
    }
  }

  lemma NotAName(s: string, name: string)
    requires s != [] && !IsName(name)
    ensures Scan(s)[0] != Var(name)
  {
    if Leading(s).Some? {
      LeadingIsPrefix(s, Leading(s).value);
    }
  }

  // ── Variables ──────────────────────────────────────────────────────────────

  /** FindAllStringSubmatch: the captured names in order. */
  function Names(segs: seq<Segment>): seq<string> {
    if segs == [] then []
    else (if segs[0].Var? then [segs[0].name] else []) + Names(segs[1..])
  }

  ghost predicate OccursAt(s: string, sub: string, i: nat) {
    i <= |s| && sub <= s[i..]
  }

  ghost predicate Occurs(s: string, sub: string) {
    exists i :: OccursAt(s, sub, i)
  }

  lemma OccursStep(s: string, sub: string, k: nat)
    requires 0 < k <= |s| && forall i: nat :: 0 < i < k ==> !OccursAt(s, sub, i)
    ensures Occurs(s, sub) <==> sub <= s || Occurs(s[k..], sub)
  {
    assert s[0..] == s;
    if sub <= s {
      assert OccursAt(s, sub, 0);
    }
    if i: nat :| OccursAt(s[k..], sub, i) {
      assert s[i + k..] == s[k..][i..];
      assert OccursAt(s, sub, i + k);
    }
    if i: nat :| OccursAt(s, sub, i) && i > 0 {
      assert s[k..][i - k..] == s[i..];
      assert OccursAt(s[k..], sub, i - k);
    }
  }

  /** Every name the scan finds stands in the text, and every placeholder in the text is found: matches never
      overlap, so nothing is hidden by an earlier match. */
  lemma {:induction false} ScanFindsEveryPlaceholder(s: string, name: string)
    requires IsName(name)
    ensures name in Names(Scan(s)) <==> Occurs(s, Placeholder(name))
    decreases |s|
  {
    var ph := Placeholder(name);
    if s == [] {
      assert forall i :: !OccursAt(s, ph, i);
    } else {
      LeadingIsPrefix(s, name);
      var k := match Leading(s) case Some(found) => |found| + 4 case None => 1;
      if Leading(s).Some? {
        LeadingGivesPrefix(s);
        assert ph[2] == name[0];
        forall i: nat | 0 < i < k ensures !OccursAt(s, ph, i) {
          InsideAMatch(s, ph, i);
        }
      }
      OccursStep(s, ph, k);
      ScanFindsEveryPlaceholder(s[k..], name);
      assert Scan(s)[1..] == Scan(s[k..]);
    }
  }

  /** No placeholder begins strictly inside another. */
  lemma InsideAMatch(s: string, ph: string, i: nat)
    requires Leading(s).Some? && 0 < i < |Leading(s).value| + 4 && |ph| >= 3 && ph[0] == '{' && ph[1] == '{' && ph[2] != '{'
    ensures !OccursAt(s, ph, i)
  {
    var found := Leading(s).value;
    LeadingIsPrefix(s, found);
    assert s[..|found| + 4] == Placeholder(found);
  }

  datatype TemplateRecord = TemplateRecord(name: string, rtype: string, content: string, ttl: int, priority: int)

  /** The variables a record list needs. */
  function Required(records: seq<TemplateRecord>): set<string> {
    set r, n | r in records && n in FieldNames(r) :: n
  }

  function FieldNames(r: TemplateRecord): seq<string> {
    Names(Scan(r.name)) + Names(Scan(r.content))
  }

  lemma RequiredSnoc(records: seq<TemplateRecord>, r: TemplateRecord, n: string)
    ensures n in Required(records + [r]) <==> n in Required(records) || n in FieldNames(r)
  {
    if n in Required(records) {
      var x :| x in records && n in FieldNames(x);
      assert x in records + [r];
    }
    assert r in records + [r];
    if n in Required(records + [r]) && n !in FieldNames(r) {
      var x :| x in records + [r] && n in FieldNames(x);
      assert x in records;
    }
  }

  /** The inner loops over the matches of one field. */
  method AddNames(seen: map<string, string>, names: seq<string>) returns (out: map<string, string>)
    requires forall k :: k in seen ==> seen[k] == ""
    ensures forall k :: k in out <==> k in seen || k in names
    ensures forall k :: k in out ==> out[k] == ""
  {
    out := seen;
    for i := 0 to |names|
      invariant forall k :: k in out <==> k in seen || k in names[..i]
      invariant forall k :: k in out ==> out[k] == ""
    {
      out := out[names[i] := ""];
    }
  }

  method ExtractVariables(records: seq<TemplateRecord>) returns (seen: map<string, string>)
    ensures seen.Keys == Required(records)
    ensures forall k :: k in seen ==> seen[k] == ""
  {
    seen := map[];
    for i := 0 to |records|
      invariant forall k :: k in seen <==> k in Required(records[..i])
      invariant forall k :: k in seen ==> seen[k] == ""
    {
      assert records[..i + 1] == records[..i] + [records[i]];
      seen := AddNames(seen, Names(Scan(records[i].name)));
      seen := AddNames(seen, Names(Scan(records[i].content)));
      forall k
        ensures k in Required(records[..i + 1]) <==> k in Required(records[..i]) || k in FieldNames(records[i])
      {
        RequiredSnoc(records[..i], records[i], k);
      }
    }
    assert records[..|records|] == records;
  }

  // ── Substitution ───────────────────────────────────────────────────────────

  function Replacement(seg: Segment, vars: map<string, string>): string {
    if seg.Var? && seg.name in vars then vars[seg.name] else PrintOne(seg)
  }

  function Fill(segs: seq<Segment>, vars: map<string, string>): string {
    if segs == [] then [] else Replacement(segs[0], vars) + Fill(segs[1..], vars)
  }

  /** ReplaceAllStringFunc over the placeholders; replacements are not scanned again. */
  function Substitute(s: string, vars: map<string, string>): string {
    Fill(Scan(s), vars)
  }

  lemma SubstituteEmpty(vars: map<string, string>)
    ensures Substitute("", vars) == ""
  {
  }

  /** A placeholder gives way to its value and is kept if it has none; what follows is substituted on its own. */
  lemma SubstitutePlaceholder(name: string, rest: string, vars: map<string, string>)
    requires IsName(name)
    ensures Substitute(Placeholder(name) + rest, vars) ==
            (if name in vars then vars[name] else Placeholder(name)) + Substitute(rest, vars)
  {
    ScanOfVar(name, rest);
    assert ([Var(name)] + Scan(rest))[1..] == Scan(rest);
  }

  /** A character that begins no placeholder is kept. */
  lemma SubstituteText(s: string, vars: map<string, string>)
    requires s != "" && forall name :: IsName(name) ==> !(Placeholder(name) <= s)
    ensures Substitute(s, vars) == [s[0]] + Substitute(s[1..], vars)
  {
    if Leading(s).Some? {
      LeadingGivesPrefix(s);
    }
    assert ([Lit(s[0])] + Scan(s[1..]))[1..] == Scan(s[1..]);
  }

  /** Putting every placeholder back for itself changes nothing. */
  lemma SubstituteOwnPlaceholders(s: string, vars: map<string, string>)
    requires forall n :: n in vars ==> vars[n] == Placeholder(n)
    ensures Substitute(s, vars) == s
  {
    FillOwnPlaceholders(Scan(s), vars);
    PrintUndoesScan(s);
  }

  lemma {:induction false} FillOwnPlaceholders(segs: seq<Segment>, vars: map<string, string>)
    requires forall n :: n in vars ==> vars[n] == Placeholder(n)
    ensures Fill(segs, vars) == Print(segs)
  {
    if segs != [] {
      FillOwnPlaceholders(segs[1..], vars);
    }
  }

  predicate AgreeOn(names: seq<string>, a: map<string, string>, b: map<string, string>) {
    forall n :: n in names ==> (n in a <==> n in b) && (n in a ==> a[n] == b[n])
  }

  /** Only the scanned variables matter. */
  lemma SubstituteLooksAtScannedNames(s: string, a: map<string, string>, b: map<string, string>)
    requires AgreeOn(Names(Scan(s)), a, b)
    ensures Substitute(s, a) == Substitute(s, b)
  {
    FillLooksAtNames(Scan(s), a, b);
  }

  lemma {:induction false} FillLooksAtNames(segs: seq<Segment>, a: map<string, string>, b: map<string, string>)
    requires AgreeOn(Names(segs), a, b)
    ensures Fill(segs, a) == Fill(segs, b)
  {
    if segs != [] {
      assert forall n :: n in Names(segs[1..]) ==> n in Names(segs);
      FillLooksAtNames(segs[1..], a, b);
      assert segs[0].Var? ==> segs[0].name in Names(segs);
    }
  }

  // ── Placeholders that come back ────────────────────────────────────────────

  /** No placeholder stands anywhere in the text. */
  ghost predicate Clean(s: string) {
    forall name :: IsName(name) ==> !Occurs(s, Placeholder(name))
  }

  /** `before` and `after` make the characters i to j, none of them part of a variable, into a placeholder; each is
      part of a value, so it needs a variable next to those characters. */
  predicate Tears(segs: seq<Segment>, i: nat, j: nat, before: string, after: string, name: string) {
    && i <= j <= |segs| && (forall k :: i <= k < j ==> segs[k].Lit?)
    && IsName(name) && before + Print(segs[i..j]) + after == Placeholder(name)
    && |before| < |Placeholder(name)| && |after| < |Placeholder(name)|
    && (before != "" ==> i > 0 && segs[i - 1].Var?)
    && (after != "" ==> j < |segs| && segs[j].Var?)
  }

  /** Some characters of the text next to its variables are part of a placeholder. */
  ghost predicate Torn(segs: seq<Segment>) {
    exists i: nat, j: nat, before, after, name :: Tears(segs, i, j, before, after, name)
  }

  /** Where a text at the start of a filled template leaves its leading characters. */
  lemma {:induction false} SplitAtVar(segs: seq<Segment>, vars: map<string, string>, text: string) returns (j: nat, after: string)
    requires text <= Fill(segs, vars)
    ensures j <= |segs| && (forall k :: 0 <= k < j ==> segs[k].Lit?) && |Print(segs[..j])| == j
    ensures text == Print(segs[..j]) + after && (after != "" ==> j < |segs| && segs[j].Var?)
  {
    j, after := 0, text;
    if text != "" && segs[0].Lit? {
      AfterLiteral(segs, vars, text);
      j, after := SplitAtVar(segs[1..], vars, text[1..]);
      LiteralFirst(segs, j);
      Regroup([segs[0].c], Print(segs[1..][..j]), after);
      j := j + 1;
    }
  }

  lemma AfterLiteral(segs: seq<Segment>, vars: map<string, string>, text: string)
    requires text != "" && text <= Fill(segs, vars) && segs[0].Lit?
    ensures text[1..] <= Fill(segs[1..], vars) && text == [segs[0].c] + text[1..]
  {
    assert Fill(segs, vars)[1..] == Fill(segs[1..], vars);
  }

  lemma LiteralFirst(segs: seq<Segment>, j: nat)
    requires segs != [] && segs[0].Lit? && j <= |segs[1..]| && forall k :: 0 <= k < j ==> segs[1..][k].Lit?
    ensures Print(segs[..j + 1]) == [segs[0].c] + Print(segs[1..][..j])
    ensures forall k :: 0 <= k < j + 1 ==> segs[k].Lit?
  {
    assert segs[..j + 1][1..] == segs[1..][..j];
    forall k | 0 <= k < j + 1
      ensures segs[k].Lit?
    {
      assert k > 0 ==> segs[k] == segs[1..][k - 1];
    }
  }

  lemma TearsShift(segs: seq<Segment>, i: nat, j: nat, before: string, after: string, name: string)
    requires segs != [] && Tears(segs[1..], i, j, before, after, name)
    ensures Tears(segs, i + 1, j + 1, before, after, name)
  {
    assert segs[1..][i..j] == segs[i + 1..j + 1];
    forall k | i + 1 <= k < j + 1
      ensures segs[k].Lit?
    {
      assert segs[k] == segs[1..][k - 1];
    }
  }

  /** An occurrence that neither part holds begins in the first and ends in the second. */
  lemma StraddlesTheSeam(piece: string, rest: string, sub: string, p: nat)
    requires OccursAt(piece + rest, sub, p) && !Occurs(piece, sub) && !Occurs(rest, sub)
    ensures p < |piece| < p + |sub| && sub[..|piece| - p] == piece[p..] && sub[|piece| - p..] <= rest
  {
    var all := piece + rest;
    if p >= |piece| {
      assert all[p..] == rest[p - |piece|..];
      assert OccursAt(rest, sub, p - |piece|);
    } else {
      assert all[p..] == piece[p..] + rest;
      assert p + |sub| <= |piece| ==> OccursAt(piece, sub, p);
    }
  }

  /** Filling clean values into a text that is not torn leaves no placeholder. */
  lemma {:induction false} FillStaysClean(segs: seq<Segment>, vars: map<string, string>)
    requires !Torn(segs) && forall n :: n in Names(segs) ==> n in vars && Clean(vars[n])
    ensures Clean(Fill(segs, vars))
  {
    if segs != [] {
      if i: nat, j: nat, before, after, name :| Tears(segs[1..], i, j, before, after, name) {
        TearsShift(segs, i, j, before, after, name);
      }
      FillStaysClean(segs[1..], vars);
      forall name | IsName(name)
        ensures !Occurs(Fill(segs, vars), Placeholder(name))
      {
        if p: nat :| OccursAt(Fill(segs, vars), Placeholder(name), p) {
          TornWhereItOccurs(segs, vars, name, p);
        }
      }
    } else {
      assert forall name, p: nat :: !OccursAt("", Placeholder(name), p);
    }
  }

  lemma TornWhereItOccurs(segs: seq<Segment>, vars: map<string, string>, name: string, p: nat)
    requires segs != [] && IsName(name) && OccursAt(Fill(segs, vars), Placeholder(name), p)
    requires !Occurs(Fill(segs[1..], vars), Placeholder(name))
    requires segs[0].Var? ==> segs[0].name in vars && Clean(vars[segs[0].name])
    ensures Torn(segs)
  {
    var ph, piece, rest := Placeholder(name), Replacement(segs[0], vars), Fill(segs[1..], vars);
    assert !Occurs(piece, ph) by {
      if segs[0].Lit? {
        assert forall i: nat :: !OccursAt(piece, ph, i);
      }
    }
    StraddlesTheSeam(piece, rest, ph, p);
    if segs[0].Lit? {
      assert Fill(segs, vars)[0..] == Fill(segs, vars);
      TornAtLiteral(segs, vars, name);
    } else {
      TornAtVariable(segs, vars, name, piece[p..]);
    }
  }

  lemma TornAtLiteral(segs: seq<Segment>, vars: map<string, string>, name: string)
    requires IsName(name) && Placeholder(name) <= Fill(segs, vars) && segs != [] && segs[0].Lit?
    ensures Torn(segs)
  {
    var j, after := SplitAtVar(segs, vars, Placeholder(name));
    assert segs[0..j] == segs[..j] && j > 0;
    NothingBefore(Print(segs[0..j]), after);
    assert Tears(segs, 0, j, "", after, name);
  }

  lemma NothingBefore(middle: string, after: string)
    ensures "" + middle + after == middle + after
  {
  }

  lemma TornAtVariable(segs: seq<Segment>, vars: map<string, string>, name: string, before: string)
    requires IsName(name) && segs != [] && segs[0].Var? && before != "" && |before| < |Placeholder(name)|
    requires Placeholder(name)[..|before|] == before && Placeholder(name)[|before|..] <= Fill(segs[1..], vars)
    ensures Torn(segs)
  {
    var ph := Placeholder(name);
    var j, after := SplitAtVar(segs[1..], vars, ph[|before|..]);
    ShiftedLiterals(segs, j);
    Regroup(before, Print(segs[1..][..j]), after);
    PrefixAndRest(before, ph);
    assert Tears(segs, 1, j + 1, before, after, name);
  }

  lemma ShiftedLiterals(segs: seq<Segment>, j: nat)
    requires segs != [] && j <= |segs[1..]| && forall k :: 0 <= k < j ==> segs[1..][k].Lit?
    ensures segs[1..j + 1] == segs[1..][..j] && forall k :: 1 <= k < j + 1 ==> segs[k].Lit?
  {
    forall k | 1 <= k < j + 1
      ensures segs[k].Lit?
    {
      assert segs[k] == segs[1..][k - 1];
    }
  }

  // The other way round: every tear is completed by some clean value.

  lemma Regroup(a: string, b: string, c: string)
    ensures a + (b + c) == (a + b) + c
  {
  }

  lemma {:induction false} FillConcat(a: seq<Segment>, b: seq<Segment>, vars: map<string, string>)
    ensures Fill(a + b, vars) == Fill(a, vars) + Fill(b, vars)
  {
    if a == [] {
      assert a + b == b;
    } else {
      FillConcat(a[1..], b, vars);
      FillCons(a, b, vars);
      Regroup(Replacement(a[0], vars), Fill(a[1..], vars), Fill(b, vars));
    }
  }

  lemma FillCons(a: seq<Segment>, b: seq<Segment>, vars: map<string, string>)
    requires a != []
    ensures Fill(a + b, vars) == Replacement(a[0], vars) + Fill(a[1..] + b, vars)
  {
    assert (a + b)[1..] == a[1..] + b;
  }

  lemma {:induction false} FillLiterals(segs: seq<Segment>, vars: map<string, string>)
    requires forall k :: 0 <= k < |segs| ==> segs[k].Lit?
    ensures Fill(segs, vars) == Print(segs)
  {
    if segs != [] {
      FillLiterals(segs[1..], vars);
    }
  }

  lemma OneIsNoPrefix(name: string, other: string)
    requires IsName(name) && IsName(other) && Placeholder(other) <= Placeholder(name)
    ensures other == name
  {
    LeadingIsPrefix(Placeholder(name), other);
    LeadingIsPrefix(Placeholder(name), name);
  }

  /** The end of a placeholder followed by its beginning holds no placeholder. */
  lemma HalvesHoldNone(ph: string, before: string, after: string, name: string, other: string, p: nat)
    requires IsName(name) && IsName(other) && ph == Placeholder(name)
    requires |before| < |ph| && |after| < |ph| && before <= ph && after == ph[|ph| - |after|..]
    ensures !OccursAt(after + before, Placeholder(other), p)
  {
    var op, both := Placeholder(other), after + before;
    assert forall k :: 2 <= k < |ph| ==> ph[k] != '{';
    assert OccursAt(both, op, p) ==> p + 1 < |both| && both[p] == op[0] && both[p + 1] == op[1] by {
      assert p <= |both| && op <= both[p..] ==> both[p..][0] == op[0] && both[p..][1] == op[1];
    }
    if p < |after| {
      var d := |ph| - |after|;
      assert after[p] == ph[d + p];
      assert p + 1 < |after| ==> after[p + 1] == ph[d + p + 1];
    } else if p < |both| {
      var q := p - |after|;
      assert both[p..] == before[q..];
      if op <= ph {
        OneIsNoPrefix(name, other);
      }
    }
  }

  lemma ValueComesBefore(segs: seq<Segment>, vars: map<string, string>, i: nat, before: string, after: string) returns (head: string)
    requires i <= |segs| && (before != "" ==> i > 0 && segs[i - 1].Var?)
    requires forall n :: n in Names(segs) ==> n in vars && vars[n] == after + before
    ensures Fill(segs[..i], vars) == head + before
  {
    if before == "" {
      head := Fill(segs[..i], vars);
    } else {
      var front, v := segs[..i - 1], segs[i - 1];
      NamesHold(segs, i - 1);
      assert segs[..i] == front + [v];
      FillConcat(front, [v], vars);
      assert Fill([v], vars) == Replacement(v, vars) + Fill([], vars);
      head := Fill(front, vars) + after;
      assert Fill(front, vars) + (after + before) == head + before;
    }
  }

  lemma ValueComesAfter(segs: seq<Segment>, vars: map<string, string>, j: nat, before: string, after: string)
    requires j <= |segs| && (after != "" ==> j < |segs| && segs[j].Var?)
    requires forall n :: n in Names(segs) ==> n in vars && vars[n] == after + before
    ensures after <= Fill(segs[j..], vars)
  {
    if after != "" {
      NamesHold(segs, j);
      assert Fill(segs[j..], vars) == (after + before) + Fill(segs[j..][1..], vars);
    }
  }

  lemma OccursBetween(head: string, before: string, middle: string, after: string, rest: string)
    requires after <= rest
    ensures Occurs(head + before + middle + rest, before + middle + after)
  {
    var out, ph := head + before + middle + rest, before + middle + after;
    PrefixAndRest(after, rest);
    assert out == head + (ph + rest[|after|..]);
    assert out[|head|..] == ph + rest[|after|..];
    assert OccursAt(out, ph, |head|);
  }

  /** With the two halves as every variable's value, the torn characters become a placeholder. */
  lemma TearCompletes(segs: seq<Segment>, vars: map<string, string>, i: nat, j: nat, before: string, after: string, name: string)
    requires Tears(segs, i, j, before, after, name)
    requires forall n :: n in Names(segs) ==> n in vars && vars[n] == after + before
    ensures Occurs(Fill(segs, vars), Placeholder(name))
  {
    var left, middle, right := segs[..i], segs[i..j], segs[j..];
    assert segs == left + middle + right;
    FillConcat(left + middle, right, vars);
    FillConcat(left, middle, vars);
    FillLiterals(middle, vars);
    var head := ValueComesBefore(segs, vars, i, before, after);
    ValueComesAfter(segs, vars, j, before, after);
    OccursBetween(head, before, Print(middle), after, Fill(right, vars));
  }

  lemma {:induction false} NamesHold(segs: seq<Segment>, i: nat)
    requires i < |segs| && segs[i].Var?
    ensures segs[i].name in Names(segs)
  {
    if i > 0 {
      NamesHold(segs[1..], i - 1);
    }
  }

  /** Clean values with which a torn text gets a placeholder. */
  lemma TornIsUnsafe(segs: seq<Segment>) returns (vars: map<string, string>)
    requires Torn(segs)
    ensures (forall n :: n in Names(segs) ==> n in vars && Clean(vars[n])) && !Clean(Fill(segs, vars))
  {
    var i: nat, j: nat, before, after, name :| Tears(segs, i, j, before, after, name);
    var ph, value := Placeholder(name), after + before;
    assert ph[|ph| - |after|..] == after;
    forall other | IsName(other)
      ensures !Occurs(value, Placeholder(other))
    {
      forall p: nat {
        HalvesHoldNone(ph, before, after, name, other, p);
      }
    }
    vars := map n | n in Names(segs) :: value;
    TearCompletes(segs, vars, i, j, before, after, name);
  }

  /** Rendering with values that hold no placeholder leaves none, whatever the values, if and only if the text is not
      torn: braces or name characters next to its variables can join with values to a new placeholder. */
  lemma StaysCleanExactly(s: string)
    ensures (forall vars: map<string, string> ::
               (forall n :: n in Names(Scan(s)) ==> n in vars && Clean(vars[n])) ==> Clean(Substitute(s, vars)))
            <==> !Torn(Scan(s))
  {
    var segs := Scan(s);
    if Torn(segs) {
      var vars := TornIsUnsafe(segs);
      assert !Clean(Substitute(s, vars));
    } else {
      forall vars: map<string, string> | forall n :: n in Names(segs) ==> n in vars && Clean(vars[n])
        ensures Clean(Substitute(s, vars))
      {
        FillStaysClean(segs, vars);
      }
    }
  }

  /** A value without braces can bring a placeholder back: the text "{{{{a}}}}" with "b" for a becomes "{{b}}". */
  lemma PlaceholderComesBack(text: string, vars: map<string, string>)
    requires text == OPEN + Placeholder("a") + CLOSE && vars == map["a" := "b"]
    ensures Substitute(text, vars) == Placeholder("b") && Clean("b") && !Clean(Substitute(text, vars))
  {
    ValueInBraces(text, vars, "a", "b");
    ShortIsClean("b");
    assert OccursAt(Placeholder("b"), Placeholder("b"), 0);
  }

  lemma ShortIsClean(s: string)
    requires |s| < 4
    ensures Clean(s)
  {
  }

  lemma ValueInBraces(text: string, vars: map<string, string>, name: string, value: string)
    requires IsName(name) && name in vars && vars[name] == value && text == OPEN + Placeholder(name) + CLOSE
    ensures Substitute(text, vars) == Placeholder(value)
  {
    var tail := Placeholder(name) + CLOSE;
    assert text == ['{'] + (['{'] + tail);
    BraceIsKept(tail, vars);
    BraceIsKept(['{'] + tail, vars);
    SubstitutePlaceholder(name, CLOSE, vars);
    NoBraceAfter(CLOSE, vars);
    InBraces(value);
  }

  lemma InBraces(value: string)
    ensures ['{'] + (['{'] + (value + CLOSE)) == Placeholder(value)
  {
  }

  lemma BraceIsKept(tail: string, vars: map<string, string>)
    requires |tail| > 1 && tail[1] == '{'
    ensures Substitute(['{'] + tail, vars) == ['{'] + Substitute(tail, vars)
  {
    var s := ['{'] + tail;
    forall name | IsName(name)
      ensures !(Placeholder(name) <= s)
    {
      assert Placeholder(name)[2] == name[0] != '{';
    }
    SubstituteText(s, vars);
    assert s[1..] == tail;
  }

  lemma {:induction false} NoBraceAfter(s: string, vars: map<string, string>)
    requires '{' !in s
    ensures Substitute(s, vars) == s
  {
    if s != "" {
      assert forall name :: Placeholder(name)[0] == '{';
      SubstituteText(s, vars);
      NoBraceAfter(s[1..], vars);
    }
  }

  // ── Rendering ──────────────────────────────────────────────────────────────

  function Rendered(r: TemplateRecord, vars: map<string, string>): TemplateRecord {
    r.(name := Substitute(r.name, vars), rtype := Upper(r.rtype), content := Substitute(r.content, vars))
  }

  /** The values of the field's variables hold no placeholder, and nothing of one stands next to a variable. */
  ghost predicate CleanField(s: string, vars: map<string, string>) {
    !Torn(Scan(s)) && forall n :: n in Names(Scan(s)) && n in vars ==> Clean(vars[n])
  }

  /** Two texts substituted, the type in capitals, the two numbers as they were. */
  ghost predicate IsRendering(r: TemplateRecord, vars: map<string, string>, out: TemplateRecord) {
    && out.name == Substitute(r.name, vars) && out.content == Substitute(r.content, vars)
    && (CleanField(r.name, vars) ==> Clean(out.name)) && (CleanField(r.content, vars) ==> Clean(out.content))
    && out.ttl == r.ttl && out.priority == r.priority
    && |out.rtype| == |r.rtype|
    && forall i :: 0 <= i < |r.rtype| ==>
         if 'a' <= r.rtype[i] <= 'z' then out.rtype[i] as int == r.rtype[i] as int - 32 else out.rtype[i] == r.rtype[i]
  }

  lemma RenderingsMean(records: seq<TemplateRecord>, vars: map<string, string>)
    requires Required(records) <= vars.Keys
    ensures forall i :: 0 <= i < |records| ==> IsRendering(records[i], vars, Rendered(records[i], vars))
  {
    forall i | 0 <= i < |records|
      ensures IsRendering(records[i], vars, Rendered(records[i], vars))
    {
      var r := records[i];
      assert forall n :: n in FieldNames(r) ==> n in Required(records);
      FieldStaysClean(r.name, vars);
      FieldStaysClean(r.content, vars);
    }
  }

  lemma FieldStaysClean(s: string, vars: map<string, string>)
    requires forall n :: n in Names(Scan(s)) ==> n in vars
    ensures CleanField(s, vars) ==> Clean(Substitute(s, vars))
  {
    if CleanField(s, vars) {
      FillStaysClean(Scan(s), vars);
    }
  }

  /** Succeeds exactly when every scanned name is supplied; then the records come out in order. */
  method RenderRecords(records: seq<TemplateRecord>, vars: map<string, string>)
    returns (r: Result<seq<TemplateRecord>, seq<string>>)
    ensures r.Ok? <==> Required(records) <= vars.Keys
    ensures r.Ok? ==> |r.value| == |records| && forall i :: 0 <= i < |records| ==> r.value[i] == Rendered(records[i], vars)
    ensures r.Err? ==> forall n :: n in r.error <==> n in Required(records) && n !in vars
    ensures r.Ok? ==> forall i :: 0 <= i < |records| ==> IsRendering(records[i], vars, r.value[i])
  {
    var required := ExtractVariables(records);
    var missing := [];
    var keys := required.Keys;
    while keys != {}
      invariant keys <= required.Keys
      invariant forall n :: n in missing <==> n in required.Keys && n !in keys && n !in vars
      decreases keys
    {
      var k := AnyOf(keys);
      keys := keys - {k};
      if k !in vars {
        missing := missing + [k];
      }
    }
    if |missing| > 0 {
      assert missing[0] in missing;
      return Err(missing);
    }
    var out := [];
    for i := 0 to |records|
      invariant |out| == i && forall j :: 0 <= j < i ==> out[j] == Rendered(records[j], vars)
    {
      out := out + [Rendered(records[i], vars)];
    }
    RenderingsMean(records, vars);
    return Ok(out);
  }

  /** A rendering depends only on the variables that occur in the records. */
  lemma RenderingLooksAtRequiredNames(records: seq<TemplateRecord>, r: TemplateRecord, a: map<string, string>, b: map<string, string>)
    requires r in records
    requires forall n :: n in Required(records) ==> (n in a <==> n in b) && (n in a ==> a[n] == b[n])
    ensures Rendered(r, a) == Rendered(r, b)
  {
    assert forall n :: n in FieldNames(r) ==> n in Required(records);
    SubstituteLooksAtScannedNames(r.name, a, b);
    SubstituteLooksAtScannedNames(r.content, a, b);
  }
}
