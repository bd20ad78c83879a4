/**
 Domain import from CSV (internal/importer/service.go): validating rows, creating the
 job, and the worker's accounting.  The model starts from already split CSV fields.

 What Go's unicode and time packages decide is given by a library value.
 */
module CsvImport {
  import opened Wrappers
  import opened Collections
  import opened DecimalText
  import opened CronField

  const MAX_ROWS: nat := 5000

  datatype Library = Library(parseDate: Text -> Option<int>, isLetter: char -> bool, isDigit: char -> bool, lower: char -> char)

  datatype ParsedRow = ParsedRow(
    fqdn: Text, expiry: Option<int>, autoRenew: bool, registrar: Option<nat>, provider: Option<nat>, tags: seq<Text>, notes: Text)

  datatype RowError = RowError(line: nat, fqdn: Text, reason: Text)

  datatype ParseError = EmptyCsv | InvalidHeader | TooManyRows

  datatype Parsed = Parsed(rows: seq<ParsedRow>, errors: seq<RowError>)

  type Row = seq<Text>
  type Headers = map<Text, nat>

  // ── One row ────────────────────────────────────────────────────────────────

  function Lower(lib: Library, s: Text): Text {
    seq(|s|, i requires 0 <= i < |s| => lib.lower(s[i]))
  }

  /** Bytes of a text in UTF-8. */
  function ByteLength(s: Text): nat {
    if s == [] then 0
    else
      var c := s[0] as int;
      (if c < 0x80 then 1 else if c < 0x800 then 2 else if c < 0x10000 then 3 else 4) + ByteLength(s[1..])
  }

  function ValidateFqdn(lib: Library, fqdn: Text): Option<Text> {
    if ByteLength(fqdn) > 253 then Some("fqdn exceeds 253 characters")
    else if '.' !in fqdn then Some("fqdn has no dot (must be fully-qualified)")
    else if exists c :: c in fqdn && !(lib.isLetter(c) || lib.isDigit(c) || c == '.' || c == '-') then Some("fqdn contains invalid character")
    else if exists l :: l in Split(fqdn, '.') && (l == [] || l[0] == '-' || l[|l| - 1] == '-') then Some("fqdn label is empty or starts or ends with hyphen")
    else None
  }

  /** A named column, trimmed; missing columns and short rows read as empty. */
  function Column(headers: Headers, row: Row, name: Text): Text {
    if name in headers && headers[name] < |row| then TrimSpace(row[headers[name]]) else ""
  }

  function ParseBool(s: Text): Option<bool> {
    if s in {"1", "t", "T", "true", "TRUE", "True"} then Some(true)
    else if s in {"0", "f", "F", "false", "FALSE", "False"} then Some(false)
    else None
  }

  /** A positive 64-bit decimal id. */
  function ParseId(s: Text): Option<nat> {
    var body := if s != [] && s[0] == '+' then s[1..] else s;
    if body == [] || !AllDigits(body) then None
    else
      var n := DecimalValue(body);
      if 1 <= n <= 0x7FFF_FFFF_FFFF_FFFF then Some(n) else None
  }

  function NonEmpty(parts: seq<Text>): seq<Text> {
    if parts == [] then []
    else (if TrimSpace(parts[0]) != "" then [TrimSpace(parts[0])] else []) + NonEmpty(parts[1..])
  }

  /** The trimmed texts of a row's columns. */
  datatype Cells = Cells(fqdn: Text, expiry: Text, renew: Text, registrar: Text, provider: Text, tags: Text, notes: Text)

  function CellsOf(headers: Headers, row: Row): Cells {
    Cells(Column(headers, row, "fqdn"), Column(headers, row, "expiry_date"), Column(headers, row, "auto_renew"),
          Column(headers, row, "registrar_account_id"), Column(headers, row, "dns_provider_id"),
          Column(headers, row, "tags"), Column(headers, row, "notes"))
  }

  // An empty cell stands for the default; None means that the cell cannot be read.

  function ExpiryOf(lib: Library, s: Text): Option<Option<int>> {
    if s == "" then Some(None) else if lib.parseDate(s).Some? then Some(lib.parseDate(s)) else None
  }

  function RenewOf(s: Text): Option<bool> {
    if s == "" then Some(true) else ParseBool(s)
  }

  function IdOf(s: Text): Option<Option<nat>> {
    if s == "" then Some(None) else if ParseId(s).Some? then Some(ParseId(s)) else None
  }

  function TagsOf(s: Text): seq<Text> {
    if s == "" then [] else NonEmpty(Split(s, ';'))
  }

  /** The row's fields if it is valid, else the name and reason it is rejected with. */
  function ParseCells(lib: Library, c: Cells): Result<ParsedRow, (Text, Text)> {
    var fqdn, expiry, renew := Lower(lib, c.fqdn), ExpiryOf(lib, c.expiry), RenewOf(c.renew);
    var registrar, provider := IdOf(c.registrar), IdOf(c.provider);
    if fqdn == "" then Err(("", "fqdn is empty"))
    else if ValidateFqdn(lib, fqdn).Some? then Err((fqdn, ValidateFqdn(lib, fqdn).value))
    else if expiry.None? then Err((fqdn, "invalid expiry_date: " + c.expiry))
    else if renew.None? then Err((fqdn, "invalid auto_renew: " + c.renew))
    else if registrar.None? then Err((fqdn, "invalid registrar_account_id: " + c.registrar))
    else if provider.None? then Err((fqdn, "invalid dns_provider_id: " + c.provider))
    else Ok(ParsedRow(fqdn, expiry.value, renew.value, registrar.value, provider.value, TagsOf(c.tags), c.notes))
  }

  function ParseRow(lib: Library, headers: Headers, row: Row): Result<ParsedRow, (Text, Text)> {
    ParseCells(lib, CellsOf(headers, row))
  }

  // ── The whole file ─────────────────────────────────────────────────────────

  /** Column positions by lower-cased name; a repeated name means its last column. */
  function HeadersOf(lib: Library, header: Row): Headers {
    if header == [] then map[]
    else
      var n := |header| - 1;
      HeadersOf(lib, header[..n])[Lower(lib, TrimSpace(header[n])) := n]
  }

  /** The valid rows in order. */
  function Accepted(lib: Library, h: Headers, data: seq<Row>): seq<ParsedRow> {
    if data == [] then []
    else
      var n := |data| - 1;
      var r := ParseRow(lib, h, data[n]);
      Accepted(lib, h, data[..n]) + (if r.Ok? then [r.value] else [])
  }

  /** The invalid rows in order, with the line of the file they stand on. */
  function Rejected(lib: Library, h: Headers, data: seq<Row>): seq<RowError> {
    if data == [] then []
    else
      var n := |data| - 1;
      var r := ParseRow(lib, h, data[n]);
      Rejected(lib, h, data[..n]) + (if r.Err? then [RowError(n + 2, r.error.0, r.error.1)] else [])
  }

  method ParseCsv(lib: Library, all: seq<Row>) returns (r: Result<Parsed, ParseError>)
    ensures r.Ok? <==> Parses(lib, all)
    ensures r.Err? ==> r.error == (if all == [] then EmptyCsv
                                   else if "fqdn" !in HeadersOf(lib, all[0]) then InvalidHeader
                                   else if |all| == 1 then EmptyCsv else TooManyRows)
    ensures r.Ok? ==>
              && r.value.rows == Accepted(lib, HeadersOf(lib, all[0]), all[1..])
              && r.value.errors == Rejected(lib, HeadersOf(lib, all[0]), all[1..])
  {
    if |all| == 0 {
      return Err(EmptyCsv);
    }
    var headers := ReadHeaders(lib, all[0]);
    if "fqdn" !in headers {
      return Err(InvalidHeader);
    }
    var data := all[1..];
    if |data| == 0 {
      return Err(EmptyCsv);
    }
    if |data| > MAX_ROWS {
      return Err(TooManyRows);
    }
    var result := ParseRows(lib, headers, data);
    return Ok(result);
  }

  /** The file is accepted. */
  predicate Parses(lib: Library, all: seq<Row>) {
    1 < |all| <= MAX_ROWS + 1 && "fqdn" in HeadersOf(lib, all[0])
  }

  method ReadHeaders(lib: Library, header: Row) returns (headers: Headers)
    ensures headers == HeadersOf(lib, header)
  {
    headers := map[];
    for i := 0 to |header|
      invariant headers == HeadersOf(lib, header[..i])
    {
      assert header[..i + 1][..i] == header[..i];
      headers := headers[Lower(lib, TrimSpace(header[i])) := i];
    }
    assert header[..|header|] == header;
  }

  method ParseRows(lib: Library, headers: Headers, data: seq<Row>) returns (result: Parsed)
    ensures result == Parsed(Accepted(lib, headers, data), Rejected(lib, headers, data))
  {
    result := Parsed([], []);
    for i := 0 to |data|
      invariant result == Parsed(Accepted(lib, headers, data[..i]), Rejected(lib, headers, data[..i]))
    {
      assert data[..i + 1][..i] == data[..i];
      var r := ParseRow(lib, headers, data[i]);
      match r
      case Ok(row) => result := result.(rows := result.rows + [row]);
      case Err(e) => result := result.(errors := result.errors + [RowError(i + 2, e.0, e.1)]);
    }
    assert data[..|data|] == data;
  }

  /** Every data row is counted once: as a valid row or as a row error. */
  lemma {:induction false} RowsAreConserved(lib: Library, h: Headers, data: seq<Row>)
    ensures |Accepted(lib, h, data)| + |Rejected(lib, h, data)| == |data|
  {
    if data != [] {
      RowsAreConserved(lib, h, data[..|data| - 1]);
    }
  }

  // ── The worker ─────────────────────────────────────────────────────────────

  const EXISTS: Text := "already exists"
  const REFUSED: Text := "registration failed"

  datatype Outcome = Imported | AlreadyExists | RegistrationFailed

  /** A domain_import_jobs row; `csv` is the stored file. */
  datatype Job = Job(csv: seq<Row>, status: Text, total: nat, imported: nat, skipped: nat, failed: nat, errors: seq<RowError>)

  /** The total stored at creation is the number of data rows of the stored file, and the counters never exceed it. */
  predicate JobFits(job: Job) {
    && job.total == (if job.csv == [] then 0 else |job.csv| - 1)
    && job.imported + job.skipped + job.failed <= job.total
  }

  /** What a worker run meets: the FQDNs taken when it starts, those the duplicate query returns, and the rows
      whose registration fails for a reason other than uniqueness. */
  datatype Setting = Setting(taken: set<Text>, visible: set<Text>, refused: set<nat>)

  /** The FQDNs registered by the given rows, in order. */
  function Registered(rows: seq<ParsedRow>, w: Setting): seq<Text>
    decreases |rows|, 0
  {
    if rows == [] then []
    else
      var n := |rows| - 1;
      Registered(rows[..n], w) + (if OutcomeAt(rows, n, w) == Imported then [rows[n].fqdn] else [])
  }

  /** A name the query returned is skipped; registration refuses a taken name, also one taken by an earlier row. */
  function OutcomeAt(rows: seq<ParsedRow>, i: nat, w: Setting): Outcome
    requires i < |rows|
    decreases i, 1
  {
    var fqdn := rows[i].fqdn;
    if fqdn in w.visible then AlreadyExists
    else if fqdn in w.taken || i in w.refused || fqdn in Registered(rows[..i], w) then RegistrationFailed
    else Imported
  }

  function Count(rows: seq<ParsedRow>, w: Setting, o: Outcome): nat {
    if rows == [] then 0
    else
      var n := |rows| - 1;
      Count(rows[..n], w, o) + (if OutcomeAt(rows, n, w) == o then 1 else 0)
  }

  /** The line the worker reports for the i-th valid row. */
  function ReportedLine(i: nat): nat {
    i + 2
  }

  function RowErrors(rows: seq<ParsedRow>, w: Setting): seq<RowError> {
    if rows == [] then []
    else
      var n := |rows| - 1;
      RowErrors(rows[..n], w) +
      (match OutcomeAt(rows, n, w)
       case Imported => []
       case AlreadyExists => [RowError(ReportedLine(n), rows[n].fqdn, EXISTS)]
       case RegistrationFailed => [RowError(ReportedLine(n), rows[n].fqdn, REFUSED)])
  }

  lemma OutcomeOfPrefix(rows: seq<ParsedRow>, i: nat, w: Setting)
    requires i < |rows|
    ensures OutcomeAt(rows[..i + 1], i, w) == OutcomeAt(rows, i, w)
  {
    assert rows[..i + 1][..i] == rows[..i];
  }

  /** What the next row adds to each of the worker's accounts. */
  lemma PrefixStep(rows: seq<ParsedRow>, i: nat, w: Setting)
    requires i < |rows|
    ensures var before, after, o := rows[..i], rows[..i + 1], OutcomeAt(rows, i, w);
            && Registered(after, w) == Registered(before, w) + (if o == Imported then [rows[i].fqdn] else [])
            && (forall x :: Count(after, w, x) == Count(before, w, x) + (if o == x then 1 else 0))
            && RowErrors(after, w) == RowErrors(before, w) +
                 (match o
                  case Imported => []
                  case AlreadyExists => [RowError(i + 2, rows[i].fqdn, EXISTS)]
                  case RegistrationFailed => [RowError(i + 2, rows[i].fqdn, REFUSED)])
  {
    assert rows[..i + 1][..i] == rows[..i];
    OutcomeOfPrefix(rows, i, w);
  }

  predicate Fresh(xs: seq<Text>, taken: set<Text>) {
    forall x :: x in xs ==> x !in taken
  }

  /** A run registers each name once, and only names that were free. */
  lemma {:induction false} RegisteredOnce(rows: seq<ParsedRow>, w: Setting)
    ensures Distinct(Registered(rows, w)) && Fresh(Registered(rows, w), w.taken)
    ensures |Registered(rows, w)| == Count(rows, w, Imported)
  {
    if rows != [] {
      RegisteredOnce(rows[..|rows| - 1], w);
    }
  }

  lemma {:induction false} OutcomesPartition(rows: seq<ParsedRow>, w: Setting)
    ensures Count(rows, w, Imported) + Count(rows, w, AlreadyExists) + Count(rows, w, RegistrationFailed) == |rows|
  {
    if rows != [] {
      OutcomesPartition(rows[..|rows| - 1], w);
    }
  }

  /** A name ends up registered exactly when some row with it was imported. */
  lemma {:induction false} RegisteredMeansImported(rows: seq<ParsedRow>, w: Setting, fqdn: Text)
    ensures fqdn in Registered(rows, w) <==>
            exists i :: 0 <= i < |rows| && rows[i].fqdn == fqdn && OutcomeAt(rows, i, w) == Imported
  {
    if rows != [] {
      var n := |rows| - 1;
      RegisteredMeansImported(rows[..n], w, fqdn);
      forall i | 0 <= i < n ensures OutcomeAt(rows[..n], i, w) == OutcomeAt(rows, i, w) {
        assert rows[..n][..i] == rows[..i];
      }
      if i :| 0 <= i < n && rows[..n][i].fqdn == fqdn && OutcomeAt(rows[..n], i, w) == Imported {
        assert rows[i].fqdn == fqdn;
      }
      if i :| 0 <= i < n && rows[i].fqdn == fqdn && OutcomeAt(rows, i, w) == Imported {
        assert rows[..n][i].fqdn == fqdn;
      }
    }
  }

  class Importer {
    /** Every FQDN in the domains table, and the ones imports put there, in order. */
    var taken: set<Text>
    var registrations: seq<Text>
    var job: Job

    ghost predicate Valid()
      reads this
    {
      && Distinct(registrations) && (forall x :: x in registrations ==> x in taken)
      && JobFits(job)
    }

    constructor (taken: set<Text>)
      ensures Valid() && this.taken == taken && registrations == []
    {
      this.taken := taken;
      registrations := [];
      job := Job([], "none", 0, 0, 0, 0, []);
    }

    /** Stores the file and its row total; a failed enqueue completes the job as failed. */
    method CreateJob(lib: Library, all: seq<Row>, createOk: bool, enqueueOk: bool) returns (ok: bool)
      requires Valid()
      modifies `job
      ensures Valid()
      ensures ok ==> |all| > 0 && job == Job(all, "pending", |all| - 1, 0, 0, 0, [])
      ensures ok <==> createOk && enqueueOk && Parses(lib, all)
      ensures !ok ==> job == if createOk && Parses(lib, all) then Job(all, "failed", |all| - 1, 0, 0, 0, []) else old(job)
    {
      var parsed := ParseCsv(lib, all);
      if parsed.Err? {
        return false;
      }
      RowsAreConserved(lib, HeadersOf(lib, all[0]), all[1..]);
      var total := |parsed.value.rows| + |parsed.value.errors|;
      if total == 0 || !createOk {
        return false;
      }
      job := Job(all, "pending", total, 0, 0, 0, []);
      if !enqueueOk {
        job := job.(status := "failed");
        return false;
      }
      return true;
    }

    /** The uniqueness of names is the table's; `refused` stands for every other reason. */
    method Register(fqdn: Text, refused: bool) returns (ok: bool)
      requires Valid()
      modifies `taken, `registrations
      ensures Valid()
      ensures ok <==> fqdn !in old(taken) && !refused
      ensures registrations == (if ok then old(registrations) + [fqdn] else old(registrations))
      ensures taken == (if ok then old(taken) + {fqdn} else old(taken))
    {
      if fqdn in taken || refused {
        return false;
      }
      taken := taken + {fqdn};
      registrations := registrations + [fqdn];
      return true;
    }

    /** One row: skipped when the query returned its name, otherwise handed to registration. */
    method ImportRow(fqdn: Text, visible: bool, refused: bool) returns (outcome: Outcome)
      requires Valid()
      modifies `taken, `registrations
      ensures Valid()
      ensures outcome == if visible then AlreadyExists else if fqdn in old(taken) || refused then RegistrationFailed else Imported
      ensures registrations == old(registrations) + (if outcome == Imported then [fqdn] else [])
      ensures taken == old(taken) + (if outcome == Imported then {fqdn} else {})
    {
      if visible {
        return AlreadyExists;
      }
      var ok := Register(fqdn, refused);
      return if ok then Imported else RegistrationFailed;
    }

    /** UpdateProgress. */
    method UpdateProgress(imported: nat, skipped: nat, failed: nat)
      requires Valid() && imported + skipped + failed <= job.total
      modifies `job
      ensures Valid() && job == old(job).(imported := imported, skipped := skipped, failed := failed)
    {
      job := job.(imported := imported, skipped := skipped, failed := failed);
    }

    /** The row loop. */
    method ImportRows(rows: seq<ParsedRow>, invalid: seq<RowError>, visible: set<Text>, refused: set<nat>)
      returns (imported: nat, skipped: nat, failed: nat, errors: seq<RowError>)
      requires Valid() && |invalid| + |rows| == job.total
      modifies this
      ensures Valid() && SameFile(old(job), job)
      ensures Tallied(rows, invalid, Setting(old(taken), visible, refused), imported, skipped, failed, errors)
      ensures registrations == old(registrations) + Registered(rows, Setting(old(taken), visible, refused))
      ensures forall x :: x in taken <==> x in old(taken) || x in Registered(rows, Setting(old(taken), visible, refused))
      ensures job.status == old(job).status
    {
      ghost var w := Setting(taken, visible, refused);
      imported, skipped, failed := 0, |invalid|, 0;
      errors := invalid;
      for i := 0 to |rows|
        invariant Valid() && SameFile(old(job), job) && job.status == old(job).status
        invariant Tallied(rows[..i], invalid, w, imported, skipped, failed, errors)
        invariant registrations == old(registrations) + Registered(rows[..i], w)
        invariant forall x :: x in taken <==> x in w.taken || x in Registered(rows[..i], w)
      {
        PrefixStep(rows, i, w);
        var fqdn := rows[i].fqdn;
        var outcome := ImportRow(fqdn, fqdn in visible, i in refused);
        TallyStep(rows, i, invalid, w, imported, skipped, failed, errors);
        match outcome
        case AlreadyExists =>
          skipped := skipped + 1;
          errors := errors + [RowError(i + 2, fqdn, EXISTS)];
        case RegistrationFailed =>
          failed := failed + 1;
          errors := errors + [RowError(i + 2, fqdn, REFUSED)];
        case Imported =>
          imported := imported + 1;
          if (imported + skipped + failed) % 100 == 0 {
            TallyIsBounded(rows[..i + 1], invalid, w, imported, skipped, failed, errors);
            UpdateProgress(imported, skipped, failed);
          }
      }
      assert rows[..|rows|] == rows;
    }

    /** One worker run over the stored file.  When it completes, the three counters add up to the total stored at
        creation, whatever registration does. */
    method ProcessImport(lib: Library, startOk: bool, readOk: bool, visible: set<Text>, refused: set<nat>, doneOk: bool)
      returns (ok: bool)
      requires Valid()
      modifies this
      ensures Valid() && SameFile(old(job), job)
      ensures ok <==> startOk && readOk && Parses(lib, old(job).csv)
      ensures !ok ==> registrations == old(registrations) && taken == old(taken)
      ensures job.status == if old(job).csv == [] || !startOk then old(job).status
                            else if !Parses(lib, job.csv) then "failed"
                            else if !ok || !doneOk then "processing"
                            else if job.failed > 0 && job.imported == 0 then "failed" else "completed"
      ensures ok ==>
                var rows := Accepted(lib, HeadersOf(lib, job.csv[0]), job.csv[1..]);
                var w := Setting(old(taken), visible, refused);
                && registrations == old(registrations) + Registered(rows, w)
                && (forall x :: x in taken <==> x in old(taken) || x in Registered(rows, w))
                && (doneOk ==>
                      && job.imported + job.skipped + job.failed == job.total
                      && job.imported == |Registered(rows, w)| && job.failed == Count(rows, w, RegistrationFailed)
                      && job.errors == Rejected(lib, HeadersOf(lib, job.csv[0]), job.csv[1..]) + RowErrors(rows, w))
    {
      if |job.csv| == 0 || !startOk {
        return false;
      }
      job := job.(status := "processing");
      var parsed := ParseCsv(lib, job.csv);
      if parsed.Err? {
        job := job.(status := "failed", imported := 0, skipped := 0, failed := 0);
        return false;
      }
      if !readOk {
        return false;
      }
      var rows, invalid := parsed.value.rows, parsed.value.errors;
      ghost var w := Setting(taken, visible, refused);
      RowsAreConserved(lib, HeadersOf(lib, job.csv[0]), job.csv[1..]);
      var imported, skipped, failed, errors := ImportRows(rows, invalid, visible, refused);
      TallyIsBounded(rows, invalid, w, imported, skipped, failed, errors);
      RegisteredOnce(rows, w);
      var status := "completed";
      if failed > 0 && imported == 0 {
        status := "failed";
      }
      if doneOk {
        job := job.(status := status, imported := imported, skipped := skipped, failed := failed, errors := errors);
      }
      return true;
    }
  }

  predicate SameFile(before: Job, after: Job) {
    after.csv == before.csv && after.total == before.total
  }

  /** The worker's accounts after the given rows: every counter counts its outcome, and the errors are listed. */
  predicate Tallied(rows: seq<ParsedRow>, invalid: seq<RowError>, w: Setting,
                    imported: nat, skipped: nat, failed: nat, errors: seq<RowError>) {
    && imported == Count(rows, w, Imported)
    && skipped == |invalid| + Count(rows, w, AlreadyExists)
    && failed == Count(rows, w, RegistrationFailed)
    && errors == invalid + RowErrors(rows, w)
  }

  lemma TallyIsBounded(rows: seq<ParsedRow>, invalid: seq<RowError>, w: Setting,
                       imported: nat, skipped: nat, failed: nat, errors: seq<RowError>)
    requires Tallied(rows, invalid, w, imported, skipped, failed, errors)
    ensures imported + skipped + failed == |invalid| + |rows|
  {
    OutcomesPartition(rows, w);
  }

  lemma TallyStep(rows: seq<ParsedRow>, i: nat, invalid: seq<RowError>, w: Setting,
                  imported: nat, skipped: nat, failed: nat, errors: seq<RowError>)
    requires i < |rows| && Tallied(rows[..i], invalid, w, imported, skipped, failed, errors)
    ensures var o, after := OutcomeAt(rows, i, w), rows[..i + 1];
            match o
            case Imported => Tallied(after, invalid, w, imported + 1, skipped, failed, errors)
            case AlreadyExists => Tallied(after, invalid, w, imported, skipped + 1, failed, errors + [RowError(i + 2, rows[i].fqdn, EXISTS)])
            case RegistrationFailed => Tallied(after, invalid, w, imported, skipped, failed + 1, errors + [RowError(i + 2, rows[i].fqdn, REFUSED)])
  {
    PrefixStep(rows, i, w);
  }

  // ── Reported lines ─────────────────────────────────────────────────────────

  /** The data row behind each valid row. */
  function AcceptedAt(lib: Library, h: Headers, data: seq<Row>): seq<nat> {
    if data == [] then []
    else
      var n := |data| - 1;
      AcceptedAt(lib, h, data[..n]) + (if ParseRow(lib, h, data[n]).Ok? then [n] else [])
  }

  /** Each record is what its row parses to. */
  lemma {:induction false} AcceptedAtParses(lib: Library, h: Headers, data: seq<Row>, j: nat)
    requires j < |Accepted(lib, h, data)| == |AcceptedAt(lib, h, data)|
    ensures var i := AcceptedAt(lib, h, data)[j]; i < |data| && ParseRow(lib, h, data[i]) == Ok(Accepted(lib, h, data)[j])
  {
    var n := |data| - 1;
    SameLength(lib, h, data[..n]);
    if j < |Accepted(lib, h, data[..n])| {
      AcceptedAtParses(lib, h, data[..n], j);
    }
  }

  /** The records before it are those of the rows before its row. */
  lemma {:induction false} AcceptedAtFacts(lib: Library, h: Headers, data: seq<Row>, j: nat)
    requires j < |Accepted(lib, h, data)| == |AcceptedAt(lib, h, data)|
    ensures var i := AcceptedAt(lib, h, data)[j]; i < |data| && |Accepted(lib, h, data[..i])| == j
  {
    var n := |data| - 1;
    SameLength(lib, h, data[..n]);
    if j < |Accepted(lib, h, data[..n])| {
      AcceptedAtFacts(lib, h, data[..n], j);
      var i := AcceptedAt(lib, h, data[..n])[j];
      assert data[..n][..i] == data[..i];
    }
  }

  lemma {:induction false} SameLength(lib: Library, h: Headers, data: seq<Row>)
    ensures |AcceptedAt(lib, h, data)| == |Accepted(lib, h, data)|
  {
    if data != [] {
      SameLength(lib, h, data[..|data| - 1]);
    }
  }

  /** The worker numbers valid rows only, so the line it reports is the row's own line exactly when no invalid row
      comes before it. */
  lemma ReportedLineIsRightExactly(lib: Library, h: Headers, data: seq<Row>, j: nat)
    requires j < |Accepted(lib, h, data)|
    ensures |AcceptedAt(lib, h, data)| == |Accepted(lib, h, data)|
    ensures var i := AcceptedAt(lib, h, data)[j];
            && i < |data| && ParseRow(lib, h, data[i]) == Ok(Accepted(lib, h, data)[j])
            && (ReportedLine(j) == i + 2 <==> Rejected(lib, h, data[..i]) == [])
            && ReportedLine(j) == i + 2 - |Rejected(lib, h, data[..i])|
  {
    SameLength(lib, h, data);
    AcceptedAtParses(lib, h, data, j);
    AcceptedAtFacts(lib, h, data, j);
    var i := AcceptedAt(lib, h, data)[j];
    RowsAreConserved(lib, h, data[..i]);
  }
}
