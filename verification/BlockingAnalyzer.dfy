/**
 The four-layer blocking classifier (internal/gfw/analyzer.go).  The loops of the
 layers are proved against set-level statements of what each layer looks for.

 The evidence detail copied into a verdict is not part of the model.  Lower-casing
 covers the ASCII letters.
 */
module BlockingAnalyzer {
  import opened Wrappers
  import opened AsciiText

  const NONE := ""
  const DNS := "dns"
  const TCP_IP := "tcp_ip"
  const TLS_SNI := "tls_sni"
  const HTTP_FAILURE := "http-failure"
  const HTTP_DIFF := "http-diff"

  const CONSISTENT := "consistent"
  const INCONSISTENT := "inconsistent"

  datatype DnsResult = DnsResult(answers: seq<string>, error: string, isBogon: bool, isInjected: bool)
  datatype Attempt = Attempt(success: bool, error: string)
  datatype HttpResult = HttpResult(status: int, bodyLength: int, title: string, error: string)

  datatype Measurement = Measurement(
    domain: int, node: string,
    dns: Option<DnsResult>, tcp: seq<Attempt>, tls: seq<Attempt>, http: Option<HttpResult>)

  datatype Verdict = Verdict(
    domain: int, blocking: string, accessible: bool, consistency: string,
    confidence: nat, probeNode: string, controlNode: string)

  /** IP address to CDN name, empty when unknown; the database itself may be absent. */
  type AsnDatabase = Option<string -> string>

  // ── DNS ────────────────────────────────────────────────────────────────────

  predicate Overlap(a: seq<string>, b: seq<string>) {
    exists ip :: ip in a && ip in b
  }

  method IpSetOverlap(a: seq<string>, b: seq<string>) returns (r: bool)
    ensures r <==> Overlap(a, b)
  {
    var known := {};
    for i := 0 to |b|
      invariant forall ip :: ip in known <==> ip in b[..i]
    {
      known := known + {b[i]};
    }
    for i := 0 to |a|
      invariant forall k :: 0 <= k < i ==> a[k] !in b
    {
      if a[i] in known {
        assert a[i] in a && a[i] in b;
        return true;
      }
    }
    return false;
  }

  /** Every address of both sides belongs to the one named CDN. */
  predicate AllIn(lookup: string -> string, cdn: string, ips: seq<string>) {
    forall ip :: ip in ips ==> lookup(ip) == cdn
  }

  ghost predicate OneCdn(asn: AsnDatabase, probeIps: seq<string>, controlIps: seq<string>) {
    && asn.Some? && probeIps != [] && controlIps != []
    && exists cdn :: cdn != "" && AllIn(asn.value, cdn, probeIps) && AllIn(asn.value, cdn, controlIps)
  }

  method CdnMatchAll(asn: AsnDatabase, probeIps: seq<string>, controlIps: seq<string>) returns (cdn: string)
    ensures cdn != "" <==> OneCdn(asn, probeIps, controlIps)
    ensures cdn != "" ==> AllIn(asn.value, cdn, probeIps) && AllIn(asn.value, cdn, controlIps)
  {
    if asn.None? || |probeIps| == 0 || |controlIps| == 0 {
      return "";
    }
    assert controlIps[0] in controlIps;
    cdn := asn.value(controlIps[0]);
    if cdn == "" {
      return "";
    }
    var all := probeIps + controlIps;
    for i := 0 to |all|
      invariant forall k :: 0 <= k < i ==> asn.value(all[k]) == cdn
    {
      if asn.value(all[i]) != cdn {
        assert all[i] in probeIps || all[i] in controlIps;
        return "";
      }
    }
    forall ip | ip in probeIps || ip in controlIps
      ensures asn.value(ip) == cdn
    {
      assert ip in all;
    }
    assert AllIn(asn.value, cdn, probeIps) && AllIn(asn.value, cdn, controlIps);
  }

  /** The probe's lookup failed and the control's did not. */
  predicate OnlyProbeErred(p: DnsResult, control: Option<Measurement>) {
    p.error != "" && !(control.Some? && control.value.dns.Some? && control.value.dns.value.error != "")
  }

  predicate HasControlAnswers(control: Option<Measurement>) {
    control.Some? && control.value.dns.Some? && control.value.dns.value.answers != []
  }

  ghost predicate Mismatch(asn: AsnDatabase, p: DnsResult, control: Option<Measurement>) {
    && HasControlAnswers(control)
    && !Overlap(p.answers, control.value.dns.value.answers)
    && !OneCdn(asn, p.answers, control.value.dns.value.answers)
  }

  ghost predicate DnsBlocked(asn: AsnDatabase, probe: Measurement, control: Option<Measurement>) {
    && probe.dns.Some?
    && (var p := probe.dns.value;
        p.isBogon || p.isInjected || OnlyProbeErred(p, control) || Mismatch(asn, p, control))
  }

  method CheckDns(asn: AsnDatabase, probe: Measurement, control: Option<Measurement>) returns (consistency: string)
    ensures consistency == INCONSISTENT <==> DnsBlocked(asn, probe, control)
    ensures consistency == "" <==> probe.dns.None?
    ensures consistency in {"", CONSISTENT, INCONSISTENT}
  {
    if probe.dns.None? {
      return "";
    }
    var p := probe.dns.value;
    if p.isBogon || p.isInjected {
      return INCONSISTENT;
    }
    if p.error != "" && (control.None? || control.value.dns.None? || control.value.dns.value.error == "") {
      return INCONSISTENT;
    }
    if control.Some? && control.value.dns.Some? && |control.value.dns.value.answers| > 0 {
      var overlap := IpSetOverlap(p.answers, control.value.dns.value.answers);
      if !overlap {
        var cdn := CdnMatchAll(asn, p.answers, control.value.dns.value.answers);
        if cdn != "" {
          return CONSISTENT;
        }
        return INCONSISTENT;
      }
    }
    return CONSISTENT;
  }

  // ── TCP and TLS ────────────────────────────────────────────────────────────

  predicate AllFailed(attempts: seq<Attempt>) {
    attempts != [] && forall a :: a in attempts ==> !a.success
  }

  predicate AnySucceeded(attempts: seq<Attempt>) {
    exists a :: a in attempts && a.success
  }

  /** The error of the first failed attempt that gave one. */
  function FirstError(attempts: seq<Attempt>): string {
    if attempts == [] then ""
    else
      var before := FirstError(attempts[..|attempts| - 1]);
      var a := attempts[|attempts| - 1];
      if before == "" && !a.success then a.error else before
  }

  /** The probe loop shared by the two layers. */
  method Failures(attempts: seq<Attempt>) returns (allFail: bool, error: string)
    ensures allFail <==> forall a :: a in attempts ==> !a.success
    ensures error == FirstError(attempts)
  {
    allFail, error := true, "";
    for i := 0 to |attempts|
      invariant allFail <==> forall a :: a in attempts[..i] ==> !a.success
      invariant error == FirstError(attempts[..i])
    {
      assert attempts[..i + 1] == attempts[..i] + [attempts[i]];
      if attempts[i].success {
        allFail := false;
      } else if error == "" {
        error := attempts[i].error;
      }
    }
    assert attempts[..|attempts|] == attempts;
  }

  method SomeSuccess(attempts: seq<Attempt>) returns (ok: bool)
    ensures ok <==> AnySucceeded(attempts)
  {
    for i := 0 to |attempts|
      invariant forall k :: 0 <= k < i ==> !attempts[k].success
    {
      if attempts[i].success {
        return true;
      }
    }
    return false;
  }

  method CheckTcp(probe: Measurement, control: Option<Measurement>) returns (probeAllFail: bool, controlAnyOk: bool)
    ensures probeAllFail <==> AllFailed(probe.tcp)
    ensures controlAnyOk <==> probe.tcp != [] && control.Some? && AnySucceeded(control.value.tcp)
  {
    if |probe.tcp| == 0 {
      return false, false;
    }
    var firstError;
    probeAllFail, firstError := Failures(probe.tcp);
    controlAnyOk := false;
    if control.Some? {
      controlAnyOk := SomeSuccess(control.value.tcp);
    }
  }

  predicate Contains(s: string, sub: string) {
    sub <= s || (s != [] && Contains(s[1..], sub))
  }

  predicate SniError(error: string) {
    var lower := Lower(error);
    Contains(lower, "connection_reset") || Contains(lower, "tls_handshake_failure") || Contains(lower, "alert") || Contains(lower, "handshake")
  }

  method CheckTls(probe: Measurement, control: Option<Measurement>) returns (probeFail: bool, controlOk: bool)
    ensures probeFail <==> AllFailed(probe.tls) && SniError(FirstError(probe.tls))
    ensures controlOk <==> probe.tls != [] && control.Some? && AnySucceeded(control.value.tls)
  {
    if |probe.tls| == 0 {
      return false, false;
    }
    var error;
    probeFail, error := Failures(probe.tls);
    if probeFail && !SniError(error) {
      probeFail := false;
    }
    controlOk := false;
    if control.Some? {
      controlOk := SomeSuccess(control.value.tls);
    }
  }

  predicate TcpBlocked(probe: Measurement, control: Option<Measurement>) {
    AllFailed(probe.tcp) && control.Some? && AnySucceeded(control.value.tcp)
  }

  predicate TlsBlocked(probe: Measurement, control: Option<Measurement>) {
    AllFailed(probe.tls) && SniError(FirstError(probe.tls)) && control.Some? && AnySucceeded(control.value.tls)
  }

  // ── HTTP ───────────────────────────────────────────────────────────────────

  predicate HttpDiffers(p: HttpResult, c: HttpResult) {
    || (p.status != c.status && c.status >= 200 && p.status >= 200)
    || (p.title != c.title && c.title != "" && p.title != "")
    || (c.bodyLength > 0 && p.bodyLength > 0 && (10 * p.bodyLength < 3 * c.bodyLength || p.bodyLength > 3 * c.bodyLength))
  }

  function CheckHttp(probe: Measurement, control: Option<Measurement>): string {
    if probe.http.None? then NONE
    else
      var p := probe.http.value;
      if p.error != "" || p.status == 0 || p.status == 451 then HTTP_FAILURE
      else if control.Some? && control.value.http.Some? && control.value.http.value.error == ""
              && HttpDiffers(p, control.value.http.value) then HTTP_DIFF
      else NONE
  }

  // ── The verdict ────────────────────────────────────────────────────────────

  /** The first layer that shows blocking. */
  ghost function BlockingOf(asn: AsnDatabase, probe: Measurement, control: Option<Measurement>): string {
    if DnsBlocked(asn, probe, control) then DNS
    else if TcpBlocked(probe, control) then TCP_IP
    else if TlsBlocked(probe, control) then TLS_SNI
    else CheckHttp(probe, control)
  }

  /** `sub` stands in `text` at position k, apart from capital letters in the text. */
  predicate OccursAt(text: string, k: nat, sub: string) {
    && k + |sub| <= |text|
    && forall i :: 0 <= i < |sub| ==>
         text[k + i] == sub[i] || ('A' <= text[k + i] <= 'Z' && text[k + i] as int + 32 == sub[i] as int)
  }

  /** The error message of a handshake that was interfered with. */
  ghost predicate SniSign(error: string) {
    exists k: nat ::
      || OccursAt(error, k, "connection_reset") || OccursAt(error, k, "tls_handshake_failure")
      || OccursAt(error, k, "alert") || OccursAt(error, k, "handshake")
  }

  /** The probe was told lies, or failed alone, or got other addresses than the control without one CDN owning all. */
  ghost predicate DnsSign(asn: AsnDatabase, p: DnsResult, c: Option<DnsResult>) {
    || p.isBogon || p.isInjected
    || (p.error != "" && (c.None? || c.value.error == ""))
    || (c.Some? && c.value.answers != []
        && (forall ip :: ip in p.answers ==> ip !in c.value.answers)
        && !(asn.Some? && p.answers != []
             && forall ip, other :: ip in p.answers + c.value.answers && other in p.answers + c.value.answers ==>
                  asn.value(ip) == asn.value(other) != ""))
  }

  /** Every probe attempt failed where some attempt of the control did not. */
  predicate FailsAlone(probe: seq<Attempt>, control: seq<Attempt>) {
    && probe != [] && (forall i :: 0 <= i < |probe| ==> !probe[i].success)
    && exists i :: 0 <= i < |control| && control[i].success
  }

  /** Attempt number i is the first that gave an error. */
  predicate FirstToErr(attempts: seq<Attempt>, i: nat) {
    i < |attempts| && attempts[i].error != "" && forall j :: 0 <= j < i ==> attempts[j].error == ""
  }

  /** The first attempt that gave an error gave one that speaks of a broken handshake. */
  ghost predicate FirstErrorIsSni(attempts: seq<Attempt>) {
    exists i: nat :: FirstToErr(attempts, i) && SniSign(attempts[i].error)
  }

  /** Status, title, or body length (under 3/10 or over 3 times) of the two responses differ, where both have one. */
  predicate OtherContent(p: HttpResult, c: HttpResult) {
    || (p.status >= 200 && c.status >= 200 && p.status != c.status)
    || (p.title != "" && c.title != "" && p.title != c.title)
    || (p.bodyLength > 0 && c.bodyLength > 0 && !(3 * c.bodyLength <= 10 * p.bodyLength <= 30 * c.bodyLength))
  }

  /** What each verdict says about the two measurements. */
  ghost predicate IsVerdict(asn: AsnDatabase, probe: Measurement, control: Option<Measurement>, blocking: string) {
    var cdns := if control.Some? then control.value.dns else None;
    var ctcp := if control.Some? then control.value.tcp else [];
    var ctls := if control.Some? then control.value.tls else [];
    var chttp := if control.Some? then control.value.http else None;
    var dns := probe.dns.Some? && DnsSign(asn, probe.dns.value, cdns);
    var tcp := FailsAlone(probe.tcp, ctcp);
    var tls := FailsAlone(probe.tls, ctls) && FirstErrorIsSni(probe.tls);
    var failure := probe.http.Some? && (probe.http.value.error != "" || probe.http.value.status in {0, 451});
    var diff := probe.http.Some? && chttp.Some? && chttp.value.error == "" && OtherContent(probe.http.value, chttp.value);
    && (blocking == "dns" <==> dns)
    && (blocking == "tcp_ip" <==> !dns && tcp)
    && (blocking == "tls_sni" <==> !dns && !tcp && tls)
    && (blocking == "http-failure" <==> !dns && !tcp && !tls && failure)
    && (blocking == "http-diff" <==> !dns && !tcp && !tls && !failure && diff)
    && (blocking == "" <==> !dns && !tcp && !tls && !failure && !diff)
  }

  lemma {:induction false} ContainsSomewhere(s: string, sub: string)
    ensures Contains(s, sub) <==> exists k :: 0 <= k <= |s| && sub <= s[k..]
  {
    if sub <= s {
      assert sub <= s[0..];
    } else if s != [] {
      ContainsSomewhere(s[1..], sub);
      if k :| 0 <= k <= |s[1..]| && sub <= s[1..][k..] {
        assert s[k + 1..] == s[1..][k..];
      }
      if k :| 0 <= k <= |s| && sub <= s[k..] {
        assert k > 0 && s[1..][k - 1..] == s[k..];
      }
    }
  }

  lemma PrefixOccurs(text: string, k: nat, sub: string)
    requires k <= |text| && forall i :: 0 <= i < |sub| ==> !('A' <= sub[i] <= 'Z')
    ensures sub <= Lower(text)[k..] <==> OccursAt(text, k, sub)
  {
    var tail := Lower(text)[k..];
    assert forall i :: 0 <= i < |tail| ==> tail[i] == LowerChar(text[k + i]);
    if OccursAt(text, k, sub) {
      assert forall i :: 0 <= i < |sub| ==> tail[i] == sub[i];
    }
    if sub <= tail {
      assert forall i :: 0 <= i < |sub| ==> tail[i] == sub[i];
    }
  }

  lemma ContainsOccurs(text: string, sub: string)
    requires forall i :: 0 <= i < |sub| ==> !('A' <= sub[i] <= 'Z')
    ensures Contains(Lower(text), sub) <==> exists k: nat :: OccursAt(text, k, sub)
  {
    ContainsSomewhere(Lower(text), sub);
    if k: nat :| OccursAt(text, k, sub) {
      PrefixOccurs(text, k, sub);
    }
    if k :| 0 <= k <= |text| && sub <= Lower(text)[k..] {
      PrefixOccurs(text, k, sub);
    }
  }

  lemma SniMeans(error: string)
    ensures SniError(error) <==> SniSign(error)
  {
    ContainsOccurs(error, "connection_reset");
    ContainsOccurs(error, "tls_handshake_failure");
    ContainsOccurs(error, "alert");
    ContainsOccurs(error, "handshake");
  }

  lemma NoSniSign(error: string)
    requires |error| == 0
    ensures !SniSign(error)
  {
  }

  lemma {:induction false} NoFirstError(attempts: seq<Attempt>)
    requires forall i :: 0 <= i < |attempts| ==> !attempts[i].success && attempts[i].error == ""
    ensures FirstError(attempts) == ""
  {
    if attempts != [] {
      NoFirstError(attempts[..|attempts| - 1]);
    }
  }

  lemma {:induction false} FirstErrorIs(attempts: seq<Attempt>, i: nat)
    requires forall j :: 0 <= j < |attempts| ==> !attempts[j].success
    requires FirstToErr(attempts, i)
    ensures FirstError(attempts) == attempts[i].error
  {
    var n := |attempts| - 1;
    if i < n {
      FirstErrorIs(attempts[..n], i);
    } else {
      NoFirstError(attempts[..n]);
    }
  }

  lemma {:induction false} SomeFirstError(attempts: seq<Attempt>)
    ensures (forall i :: 0 <= i < |attempts| ==> attempts[i].error == "") || exists i: nat :: FirstToErr(attempts, i)
  {
    if attempts != [] {
      var n := |attempts| - 1;
      SomeFirstError(attempts[..n]);
      if i: nat :| FirstToErr(attempts[..n], i) {
        assert FirstToErr(attempts, i);
      } else {
        assert forall j :: 0 <= j < n ==> attempts[j] == attempts[..n][j];
        assert attempts[n].error != "" ==> FirstToErr(attempts, n);
      }
    }
  }

  lemma FirstErrorHas(attempts: seq<Attempt>, speaks: string -> bool)
    requires forall i :: 0 <= i < |attempts| ==> !attempts[i].success
    requires !speaks("")
    ensures speaks(FirstError(attempts)) <==> exists i: nat :: FirstToErr(attempts, i) && speaks(attempts[i].error)
  {
    SomeFirstError(attempts);
    if i: nat :| FirstToErr(attempts, i) {
      FirstErrorIs(attempts, i);
      forall k: nat | FirstToErr(attempts, k)
        ensures attempts[k].error == FirstError(attempts)
      {
        FirstErrorIs(attempts, k);
      }
    } else {
      NoFirstError(attempts);
    }
  }

  lemma FirstErrorIsSniWhen(attempts: seq<Attempt>)
    requires forall i :: 0 <= i < |attempts| ==> !attempts[i].success
    ensures FirstErrorIsSni(attempts) <==> SniError(FirstError(attempts))
  {
    SniMeans(FirstError(attempts));
    NoSniSign("");
    FirstErrorHas(attempts, error => SniSign(error));
  }

  lemma AttemptsMean(probe: seq<Attempt>, control: seq<Attempt>)
    ensures FailsAlone(probe, control) <==> AllFailed(probe) && AnySucceeded(control)
  {
  }

  lemma DnsMeans(asn: AsnDatabase, probe: Measurement, control: Option<Measurement>)
    ensures DnsBlocked(asn, probe, control) <==>
              probe.dns.Some? && DnsSign(asn, probe.dns.value, if control.Some? then control.value.dns else None)
  {
    if asn.Some? && probe.dns.Some? && HasControlAnswers(control) {
      var ps, cs := probe.dns.value.answers, control.value.dns.value.answers;
      var cdn := asn.value(cs[0]);
      assert cs[0] in ps + cs;
      if cdn != "" && forall ip :: ip in ps + cs ==> asn.value(ip) == cdn {
        assert AllIn(asn.value, cdn, ps) && AllIn(asn.value, cdn, cs);
      }
      assert Overlap(ps, cs) <==> !forall ip :: ip in ps ==> ip !in cs;
    }
  }

  lemma VerdictMeans(asn: AsnDatabase, probe: Measurement, control: Option<Measurement>)
    ensures IsVerdict(asn, probe, control, BlockingOf(asn, probe, control))
  {
    DnsMeans(asn, probe, control);
    AttemptsMean(probe.tcp, if control.Some? then control.value.tcp else []);
    AttemptsMean(probe.tls, if control.Some? then control.value.tls else []);
    if AllFailed(probe.tls) {
      FirstErrorIsSniWhen(probe.tls);
    }
  }

  /** The blocking type and accessibility are functions of the measurements alone; the confidence is passed through. */
  method Classify(asn: AsnDatabase, probe: Measurement, control: Option<Measurement>, confidence: nat) returns (v: Verdict)
    ensures v.blocking == BlockingOf(asn, probe, control)
    ensures IsVerdict(asn, probe, control, v.blocking)
    ensures v.accessible <==> v.blocking == ""
    ensures v.confidence == confidence && v.domain == probe.domain && v.probeNode == probe.node
    ensures v.controlNode == if control.Some? then control.value.node else ""
    ensures v.consistency == if v.blocking == "dns" then "inconsistent"
                             else if probe.dns.Some? || v.accessible then "consistent" else ""
  {
    VerdictMeans(asn, probe, control);
    v := Verdict(probe.domain, NONE, false, "", confidence, probe.node, if control.Some? then control.value.node else "");
    var consistency := CheckDns(asn, probe, control);
    v := v.(consistency := consistency);
    if consistency == INCONSISTENT {
      return v.(blocking := DNS, accessible := false);
    }
    var tcpFail, tcpOk := CheckTcp(probe, control);
    if tcpFail && tcpOk {
      return v.(blocking := TCP_IP, accessible := false);
    }
    var tlsFail, tlsOk := CheckTls(probe, control);
    if tlsFail && tlsOk {
      return v.(blocking := TLS_SNI, accessible := false);
    }
    var http := CheckHttp(probe, control);
    if http != NONE {
      return v.(blocking := http, accessible := false);
    }
    return v.(blocking := NONE, accessible := true, consistency := if consistency != "" then consistency else CONSISTENT);
  }

  // ── What verdicts mean ─────────────────────────────────────────────────────

  /** Without a control measurement only the heuristic verdicts remain, and they look at the probe alone. */
  lemma VerdictsThatNeedAControl(asn: AsnDatabase, probe: Measurement)
    ensures BlockingOf(asn, probe, None) in {NONE, DNS, HTTP_FAILURE}
    ensures BlockingOf(asn, probe, None) == DNS <==>
            probe.dns.Some? && (probe.dns.value.isBogon || probe.dns.value.isInjected || probe.dns.value.error != "")
  {
  }

  /** Disjoint answers with no other signal are excused exactly when both sides lie in one CDN. */
  lemma DisjointAnswersAreExcusedExactly(asn: AsnDatabase, probe: Measurement, control: Measurement)
    requires probe.dns.Some? && control.dns.Some?
    requires !probe.dns.value.isBogon && !probe.dns.value.isInjected && !OnlyProbeErred(probe.dns.value, Some(control))
    requires control.dns.value.answers != [] && !Overlap(probe.dns.value.answers, control.dns.value.answers)
    ensures !DnsBlocked(asn, probe, Some(control)) <==>
            && asn.Some? && probe.dns.value.answers != []
            && (var cdn := asn.value(control.dns.value.answers[0]);
                cdn != "" && AllIn(asn.value, cdn, probe.dns.value.answers + control.dns.value.answers))
  {
    var ps, cs := probe.dns.value.answers, control.dns.value.answers;
    assert cs[0] in cs;
    if asn.Some? {
      var cdn := asn.value(cs[0]);
      forall other | AllIn(asn.value, other, cs)
        ensures other == cdn
      {
      }
      assert AllIn(asn.value, cdn, ps + cs) <==> AllIn(asn.value, cdn, ps) && AllIn(asn.value, cdn, cs);
    }
  }

  ghost predicate SameSet<T(!new)>(a: seq<T>, b: seq<T>) {
    forall x :: x in a <==> x in b
  }

  ghost predicate SameDns(a: Option<DnsResult>, b: Option<DnsResult>) {
    match (a, b)
    case (None, None) => true
    case (Some(x), Some(y)) =>
      SameSet(x.answers, y.answers) && x.error == y.error && x.isBogon == y.isBogon && x.isInjected == y.isInjected
    case _ => false
  }

  /** Equal up to order and repetition of DNS answers and TCP attempts. */
  ghost predicate Equivalent(a: Measurement, b: Measurement) {
    SameDns(a.dns, b.dns) && SameSet(a.tcp, b.tcp) && a.tls == b.tls && a.http == b.http
  }

  lemma SameSetEmptiness<T(!new)>(a: seq<T>, b: seq<T>)
    requires SameSet(a, b)
    ensures a == [] <==> b == []
  {
    if a != [] { assert a[0] in b; }
    if b != [] { assert b[0] in a; }
  }

  lemma CdnIgnoresOrder(asn: AsnDatabase, p1: seq<string>, c1: seq<string>, p2: seq<string>, c2: seq<string>)
    requires SameSet(p1, p2) && SameSet(c1, c2)
    ensures OneCdn(asn, p1, c1) ==> OneCdn(asn, p2, c2)
  {
    SameSetEmptiness(p1, p2);
    SameSetEmptiness(c1, c2);
    if OneCdn(asn, p1, c1) {
      var cdn :| cdn != "" && AllIn(asn.value, cdn, p1) && AllIn(asn.value, cdn, c1);
      assert AllIn(asn.value, cdn, p2) && AllIn(asn.value, cdn, c2);
    }
  }

  lemma DnsIgnoresOrder(asn: AsnDatabase, p1: Measurement, c1: Measurement, p2: Measurement, c2: Measurement)
    requires SameDns(p1.dns, p2.dns) && SameDns(c1.dns, c2.dns)
    ensures DnsBlocked(asn, p1, Some(c1)) ==> DnsBlocked(asn, p2, Some(c2))
  {
    if p1.dns.Some? && c1.dns.Some? {
      var pa, pb := p1.dns.value.answers, p2.dns.value.answers;
      var ca, cb := c1.dns.value.answers, c2.dns.value.answers;
      SameSetEmptiness(ca, cb);
      CdnIgnoresOrder(asn, pb, cb, pa, ca);
      assert Overlap(pb, cb) ==> Overlap(pa, ca);
    }
  }

  lemma TcpIgnoresOrder(p1: Measurement, c1: Measurement, p2: Measurement, c2: Measurement)
    requires SameSet(p1.tcp, p2.tcp) && SameSet(c1.tcp, c2.tcp)
    ensures TcpBlocked(p1, Some(c1)) ==> TcpBlocked(p2, Some(c2))
  {
    SameSetEmptiness(p1.tcp, p2.tcp);
  }

  /** The order and repetition of answers and TCP attempts never change the verdict. */
  lemma OrderNeverMatters(asn: AsnDatabase, p1: Measurement, c1: Measurement, p2: Measurement, c2: Measurement)
    requires Equivalent(p1, p2) && Equivalent(c1, c2)
    ensures BlockingOf(asn, p1, Some(c1)) == BlockingOf(asn, p2, Some(c2))
  {
    DnsIgnoresOrder(asn, p1, c1, p2, c2);
    DnsIgnoresOrder(asn, p2, c2, p1, c1);
    TcpIgnoresOrder(p1, c1, p2, c2);
    TcpIgnoresOrder(p2, c2, p1, c1);
  }
}
