/** What the columns, rows and accounts of a CSV import mean, said of the texts themselves. */
module CsvMeaning {
  import opened Wrappers
  import opened Collections
  import opened DecimalText
  import opened CronField
  import opened CsvImport

  // ── Columns ────────────────────────────────────────────────────────────────

  /** The stretch i to j is the text without the white space at its ends. */
  predicate Trims(s: Text, i: nat, j: nat) {
    && i <= j <= |s| && (forall k :: 0 <= k < i ==> IsSpace(s[k])) && (forall k :: j <= k < |s| ==> IsSpace(s[k]))
    && (i < j ==> !IsSpace(s[i]) && !IsSpace(s[j - 1]))
  }

  lemma TrimsShift(s: Text, i: nat, j: nat)
    requires s != [] && IsSpace(s[0]) && Trims(s[1..], i, j)
    ensures Trims(s, i + 1, j + 1) && s[1..][i..j] == s[i + 1..j + 1]
  {
    assert forall k :: 0 < k < |s| ==> s[k] == s[1..][k - 1];
  }

  lemma TrimsGrow(s: Text, i: nat, j: nat)
    requires s != [] && IsSpace(s[|s| - 1]) && Trims(s[..|s| - 1], i, j)
    ensures Trims(s, i, j) && s[..|s| - 1][i..j] == s[i..j]
  {
  }

  lemma {:induction false} TrimLeaves(s: Text) returns (i: nat, j: nat)
    ensures Trims(s, i, j) && TrimSpace(s) == s[i..j]
    decreases |s|
  {
    i, j := 0, |s|;
    if s != [] && IsSpace(s[0]) {
      i, j := TrimLeaves(s[1..]);
      TrimsShift(s, i, j);
      i, j := i + 1, j + 1;
    } else if s != [] && IsSpace(s[|s| - 1]) {
      i, j := TrimLeaves(s[..|s| - 1]);
      TrimsGrow(s, i, j);
    }
  }

  /** Column number k is the last one with the title. */
  predicate Titled(lib: Library, header: Row, title: Text, k: nat) {
    && k < |header| && Lower(lib, TrimSpace(header[k])) == title
    && forall j :: k < j < |header| ==> Lower(lib, TrimSpace(header[j])) != title
  }

  lemma {:induction false} HeadersExist(lib: Library, header: Row, title: Text)
    ensures title in HeadersOf(lib, header) <==> exists k :: 0 <= k < |header| && Lower(lib, TrimSpace(header[k])) == title
  {
    if header != [] {
      var n := |header| - 1;
      HeadersExist(lib, header[..n], title);
      HeadersSnoc(lib, header, title);
      if k :| 0 <= k < n && Lower(lib, TrimSpace(header[..n][k])) == title {
        assert Lower(lib, TrimSpace(header[k])) == title;
      }
      if k :| 0 <= k < n && Lower(lib, TrimSpace(header[k])) == title {
        assert Lower(lib, TrimSpace(header[..n][k])) == title;
      }
    }
  }

  lemma {:induction false} HeadersAreLast(lib: Library, header: Row, title: Text)
    requires title in HeadersOf(lib, header)
    ensures Titled(lib, header, title, HeadersOf(lib, header)[title])
  {
    var n := |header| - 1;
    HeadersSnoc(lib, header, title);
    if Lower(lib, TrimSpace(header[n])) != title {
      HeadersAreLast(lib, header[..n], title);
      var k := HeadersOf(lib, header)[title];
      assert header[..n][k] == header[k] && forall j :: k < j < n ==> header[..n][j] == header[j];
    }
  }

  /** A title stands for the last column that carries it, in any case and with any white space around. */
  lemma HeadersMean(lib: Library, header: Row, title: Text)
    ensures title in HeadersOf(lib, header) <==> exists k :: 0 <= k < |header| && Lower(lib, TrimSpace(header[k])) == title
    ensures title in HeadersOf(lib, header) ==> Titled(lib, header, title, HeadersOf(lib, header)[title])
  {
    HeadersExist(lib, header, title);
    if title in HeadersOf(lib, header) {
      HeadersAreLast(lib, header, title);
    }
  }

  lemma HeadersSnoc(lib: Library, header: Row, title: Text)
    requires header != []
    ensures var n := |header| - 1;
            var front, all := HeadersOf(lib, header[..n]), HeadersOf(lib, header);
            if Lower(lib, TrimSpace(header[n])) == title then title in all && all[title] == n
            else (title in all <==> title in front) && (title in all ==> all[title] == front[title])
  {
  }

  /** A cell is the trimmed text of the column with its title, and empty if there is none or the row is too short. */
  lemma CellMeans(lib: Library, header: Row, row: Row, title: Text, k: nat)
    ensures Titled(lib, header, title, k) ==>
              Column(HeadersOf(lib, header), row, title) == if k < |row| then TrimSpace(row[k]) else ""
    ensures (forall j :: 0 <= j < |header| ==> Lower(lib, TrimSpace(header[j])) != title) ==>
              Column(HeadersOf(lib, header), row, title) == ""
  {
    HeadersMean(lib, header, title);
  }

  // ── Names ──────────────────────────────────────────────────────────────────

  predicate DotOrHyphen(c: char) {
    c == '.' || c == '-'
  }

  /** No label is empty or starts or ends with a hyphen: the ends of the text and the neighbours of its inner dots
      are neither dots nor hyphens. */
  predicate WellLabelled(s: Text) {
    && s != [] && !DotOrHyphen(s[0]) && !DotOrHyphen(s[|s| - 1])
    && forall i :: 0 < i < |s| - 1 && s[i] == '.' ==> !DotOrHyphen(s[i - 1]) && !DotOrHyphen(s[i + 1])
  }

  predicate GoodLabel(l: Text) {
    l != [] && l[0] != '-' && l[|l| - 1] != '-'
  }

  lemma {:induction false} FirstDot(s: Text) returns (p: nat)
    requires '.' in s
    ensures p < |s| && s[p] == '.' && '.' !in s[..p]
  {
    p := 0;
    if s[0] != '.' {
      p := FirstDot(s[1..]);
      assert s[..p + 1] == [s[0]] + s[1..][..p];
      p := p + 1;
    }
  }

  lemma {:induction false} LabelsAre(s: Text)
    ensures (forall l :: l in Split(s, '.') ==> GoodLabel(l)) <==> WellLabelled(s)
    decreases |s|
  {
    if '.' in s {
      var p := FirstDot(s);
      var first, rest := s[..p], s[p + 1..];
      assert s == first + ['.'] + rest;
      SplitAtSeparator(first, rest, '.');
      LabelsAre(rest);
      JoinLabels(s, p);
      assert forall l :: l in [first] + Split(rest, '.') <==> l == first || l in Split(rest, '.');
    } else {
      OneLabel(s);
    }
  }

  lemma OneLabel(s: Text)
    requires '.' !in s
    ensures (forall l :: l in Split(s, '.') ==> GoodLabel(l)) <==> WellLabelled(s)
  {
    SplitWhole(s, '.');
    assert [s][0] in Split(s, '.') && forall l :: l in Split(s, '.') ==> l == s;
    assert forall i :: 0 <= i < |s| ==> s[i] in s;
    assert GoodLabel(s) <==> WellLabelled(s);
  }

  lemma JoinLabels(s: Text, p: nat)
    requires p < |s| && s[p] == '.' && '.' !in s[..p]
    ensures WellLabelled(s) <==> GoodLabel(s[..p]) && WellLabelled(s[p + 1..])
  {
    var first, rest := s[..p], s[p + 1..];
    assert forall i :: 0 <= i < p ==> s[i] == first[i] && s[i] != '.';
    assert forall i :: p < i < |s| ==> s[i] == rest[i - p - 1];
    if WellLabelled(s) {
      assert 0 < p < |s| - 1;
    }
    if GoodLabel(first) && WellLabelled(rest) {
      forall i | 0 < i < |s| - 1 && s[i] == '.'
        ensures !DotOrHyphen(s[i - 1]) && !DotOrHyphen(s[i + 1])
      {
        assert i > p ==> rest[i - p - 1] == '.';
      }
    }
  }

  predicate AllowedChars(lib: Library, s: Text) {
    forall i :: 0 <= i < |s| ==> lib.isLetter(s[i]) || lib.isDigit(s[i]) || s[i] == '.' || s[i] == '-'
  }

  lemma CharsAre(lib: Library, s: Text)
    ensures AllowedChars(lib, s) <==> !exists c :: c in s && !(lib.isLetter(c) || lib.isDigit(c) || c == '.' || c == '-')
  {
    assert forall i :: 0 <= i < |s| ==> s[i] in s;
  }

  lemma BadLabelsAre(s: Text)
    ensures WellLabelled(s) <==> !exists l :: l in Split(s, '.') && (l == [] || l[0] == '-' || l[|l| - 1] == '-')
  {
    LabelsAre(s);
    assert forall l :: GoodLabel(l) <==> !(l == [] || l[0] == '-' || l[|l| - 1] == '-');
  }

  /** A domain name is accepted exactly if it has at most 253 bytes, a dot, only letters, digits, dots and hyphens, and
      well-formed labels. */
  lemma NameIsAcceptedExactly(lib: Library, name: Text)
    ensures ValidateFqdn(lib, name).None? <==>
              ByteLength(name) <= 253 && '.' in name && AllowedChars(lib, name) && WellLabelled(name)
  {
    CharsAre(lib, name);
    BadLabelsAre(name);
  }

  /** A text has one byte for each character exactly when it is ASCII. */
  lemma {:induction false} BytesOfAscii(s: Text)
    ensures |s| <= ByteLength(s) <= 4 * |s|
    ensures ByteLength(s) == |s| <==> forall i :: 0 <= i < |s| ==> s[i] < '\U{80}'
  {
    if s != [] {
      BytesOfAscii(s[1..]);
      assert forall i :: 0 < i < |s| ==> s[i] == s[1..][i - 1];
      assert forall i :: 0 <= i < |s| - 1 ==> s[1..][i] == s[i + 1];
    }
  }

  // ── Rows ───────────────────────────────────────────────────────────────────

  /** The ids a text can stand for: digits, maybe after a plus, that make a positive 64-bit number. */
  predicate IsId(s: Text, n: nat) {
    && 1 <= n <= 9_223_372_036_854_775_807
    && ((s != [] && AllDigits(s) && DecimalValue(s) == n)
        || (|s| > 1 && s[0] == '+' && AllDigits(s[1..]) && DecimalValue(s[1..]) == n))
  }

  lemma IdMeans(s: Text, n: nat)
    ensures ParseId(s) == Some(n) <==> IsId(s, n)
  {
    assert s != [] && s[0] == '+' ==> !AllDigits(s);
  }

  /** The number of an id is read back from its decimal text. */
  lemma DecimalIsId(n: nat)
    requires 1 <= n <= 9_223_372_036_854_775_807
    ensures ParseId(Decimal(n)) == Some(n)
  {
    DecimalRoundTrip(n);
    assert IsDigit(Decimal(n)[0]);
  }

  function IdText(id: Option<nat>): Text {
    if id.Some? then Decimal(id.value) else ""
  }

  predicate IdFits(id: Option<nat>) {
    id.Some? ==> 1 <= id.value <= 9_223_372_036_854_775_807
  }

  /** The tags of a cell: its parts between semicolons, trimmed, without the empty ones. */
  predicate IsTag(t: Text) {
    t != [] && ';' !in t && TrimSpace(t) == t
  }

  lemma {:induction false} NonEmptyKeeps(tags: seq<Text>)
    requires forall t :: t in tags ==> IsTag(t)
    ensures NonEmpty(tags) == tags
  {
    if tags != [] {
      NonEmptyKeeps(tags[1..]);
      assert IsTag(tags[0]);
    }
  }

  lemma TagsComeBack(tags: seq<Text>)
    requires tags != [] && forall t :: t in tags ==> IsTag(t)
    ensures Join(tags, ';') != "" && NonEmpty(Split(Join(tags, ';'), ';')) == tags
  {
    assert IsTag(tags[0]);
    SplitUndoesJoin(tags, ';');
    JoinStart(tags, ';');
    NonEmptyKeeps(tags);
  }

  predicate Yes(s: Text) {
    s == "1" || s == "t" || s == "T" || s == "true" || s == "TRUE" || s == "True"
  }

  predicate No(s: Text) {
    s == "0" || s == "f" || s == "F" || s == "false" || s == "FALSE" || s == "False"
  }

  lemma BoolMeans(s: Text)
    ensures RenewOf(s) == Some(true) <==> s == "" || Yes(s)
    ensures RenewOf(s) == Some(false) <==> No(s)
    ensures Yes(s) ==> !No(s)
  {
  }

  /** The cells hold a record's fields as text. */
  predicate Writes(lib: Library, c: Cells, r: ParsedRow) {
    && Lower(lib, c.fqdn) == r.fqdn
    && (if r.expiry.Some? then c.expiry != "" && lib.parseDate(c.expiry) == r.expiry else c.expiry == "")
    && (if r.autoRenew then Yes(c.renew) else No(c.renew))
    && c.registrar == IdText(r.registrar)
    && c.provider == IdText(r.provider)
    && (if r.tags == [] then c.tags == "" else c.tags == Join(r.tags, ';'))
    && c.notes == r.notes
  }

  /** A record that can stand in a file. */
  ghost predicate Writable(lib: Library, r: ParsedRow) {
    && r.fqdn != "" && ValidateFqdn(lib, r.fqdn).None?
    && IdFits(r.registrar) && IdFits(r.provider) && forall t :: t in r.tags ==> IsTag(t)
  }

  lemma IdComesBack(id: Option<nat>)
    requires IdFits(id)
    ensures IdOf(IdText(id)) == Some(id)
  {
    if id.Some? {
      DecimalIsId(id.value);
    }
  }

  /** Reading undoes writing: cells that hold a record's fields parse to that record. */
  lemma ReadingUndoesWriting(lib: Library, c: Cells, r: ParsedRow)
    requires Writes(lib, c, r) && Writable(lib, r)
    ensures ParseCells(lib, c) == Ok(r)
  {
    BoolMeans(c.renew);
    IdComesBack(r.registrar);
    IdComesBack(r.provider);
    assert TagsOf(c.tags) == r.tags by {
      if r.tags != [] {
        TagsComeBack(r.tags);
      }
    }
  }

  /** Where each field of a record stands in the file: column k holds the row's cell under the title. */
  lemma CellsMean(lib: Library, header: Row, row: Row, title: Text, k: nat)
    requires Titled(lib, header, title, k) && k < |row|
    ensures var c, text := CellsOf(HeadersOf(lib, header), row), TrimSpace(row[k]);
            && (title == "fqdn" ==> c.fqdn == text) && (title == "expiry_date" ==> c.expiry == text)
            && (title == "auto_renew" ==> c.renew == text) && (title == "registrar_account_id" ==> c.registrar == text)
            && (title == "dns_provider_id" ==> c.provider == text) && (title == "tags" ==> c.tags == text)
            && (title == "notes" ==> c.notes == text)
  {
    CellMeans(lib, header, row, title, k);
  }

  ghost predicate Id(s: Text) {
    exists n :: IsId(s, n)
  }

  lemma CellIsId(s: Text)
    ensures IdOf(s).Some? <==> s == "" || Id(s)
    ensures IdOf(s).Some? ==> if s == "" then IdOf(s).value == None else IdOf(s).value.Some? && IsId(s, IdOf(s).value.value)
  {
    if ParseId(s).Some? {
      IdMeans(s, ParseId(s).value);
    }
    if n :| IsId(s, n) {
      IdMeans(s, n);
    }
  }

  /** Whether each cell is in order. */
  ghost predicate InOrder(lib: Library, c: Cells) {
    && Lower(lib, c.fqdn) != "" && ValidateFqdn(lib, Lower(lib, c.fqdn)).None?
    && (c.expiry == "" || lib.parseDate(c.expiry).Some?)
    && (c.renew == "" || Yes(c.renew) || No(c.renew))
    && (c.registrar == "" || Id(c.registrar))
    && (c.provider == "" || Id(c.provider))
  }

  /** A row is accepted exactly when every cell is in order, and renews itself unless told otherwise. */
  lemma RowIsAcceptedExactly(lib: Library, c: Cells)
    ensures ParseCells(lib, c).Ok? <==> InOrder(lib, c)
    ensures ParseCells(lib, c).Ok? ==>
              var r := ParseCells(lib, c).value;
              && r.fqdn == Lower(lib, c.fqdn) && r.notes == c.notes && (r.autoRenew <==> !No(c.renew))
              && r.expiry == (if c.expiry == "" then None else lib.parseDate(c.expiry))
              && (if c.registrar == "" then r.registrar == None else r.registrar.Some? && IsId(c.registrar, r.registrar.value))
              && (if c.provider == "" then r.provider == None else r.provider.Some? && IsId(c.provider, r.provider.value))
  {
    BoolMeans(c.renew);
    CellIsId(c.registrar);
    CellIsId(c.provider);
  }

  /** The error names the row and the first cell that is not in order. */
  lemma FirstWrongCellIsReported(lib: Library, c: Cells)
    requires !InOrder(lib, c)
    ensures ParseCells(lib, c).Err?
    ensures var e, name := ParseCells(lib, c).error, Lower(lib, c.fqdn);
            && e.0 == name
            && (name == "" ==> e.1 == "fqdn is empty")
            && (name != "" && ValidateFqdn(lib, name).None? ==>
                  if c.expiry != "" && lib.parseDate(c.expiry).None? then e.1 == "invalid expiry_date: " + c.expiry
                  else if c.renew != "" && !Yes(c.renew) && !No(c.renew) then e.1 == "invalid auto_renew: " + c.renew
                  else if c.registrar != "" && !Id(c.registrar) then e.1 == "invalid registrar_account_id: " + c.registrar
                  else e.1 == "invalid dns_provider_id: " + c.provider)
  {
    BoolMeans(c.renew);
    CellIsId(c.registrar);
    CellIsId(c.provider);
  }

  // ── The file and the worker ────────────────────────────────────────────────

  /** A file is accepted exactly if it has a header that names the column of the domains and 1 to 5000 rows below it. */
  lemma FileIsAcceptedExactly(lib: Library, all: seq<Row>)
    ensures Parses(lib, all) <==>
              && 2 <= |all| <= 5001
              && exists k :: 0 <= k < |all[0]| && Lower(lib, TrimSpace(all[0][k])) == "fqdn"
  {
    if all != [] {
      HeadersMean(lib, all[0], "fqdn");
    }
  }

  /** The data rows that do not parse. */
  function RejectedAt(lib: Library, h: Headers, data: seq<Row>): seq<nat> {
    if data == [] then []
    else
      var n := |data| - 1;
      RejectedAt(lib, h, data[..n]) + (if ParseRow(lib, h, data[n]).Err? then [n] else [])
  }

  /** One error for each row that does not parse, in order. */
  lemma {:induction false} RejectedAtFacts(lib: Library, h: Headers, data: seq<Row>)
    ensures Positions(RejectedAt(lib, h, data), |data|) && |RejectedAt(lib, h, data)| == |Rejected(lib, h, data)|
  {
    if data != [] {
      RejectedAtFacts(lib, h, data[..|data| - 1]);
      PositionsGrow(RejectedAt(lib, h, data[..|data| - 1]), |data| - 1);
    }
  }

  lemma {:induction false} RejectedAtExactly(lib: Library, h: Headers, data: seq<Row>, i: nat)
    requires i < |data|
    ensures i in RejectedAt(lib, h, data) <==> ParseRow(lib, h, data[i]).Err?
  {
    var n := |data| - 1;
    var front, bad := RejectedAt(lib, h, data[..n]), ParseRow(lib, h, data[n]).Err?;
    RejectedAtFacts(lib, h, data[..n]);
    PositionsGrow(front, n);
    assert RejectedAt(lib, h, data) == if bad then front + [n] else front;
    if i < n {
      assert data[..n][i] == data[i];
      RejectedAtExactly(lib, h, data[..n], i);
    }
  }

  /** An error names the line of its row, counting the header as line 1, and what is wrong with it. */
  lemma {:induction false} ErrorsNameTheirLines(lib: Library, h: Headers, data: seq<Row>, k: nat)
    requires k < |Rejected(lib, h, data)| == |RejectedAt(lib, h, data)|
    ensures var i, e := RejectedAt(lib, h, data)[k], Rejected(lib, h, data)[k];
            i < |data| && e.line == i + 2 && ParseRow(lib, h, data[i]) == Err((e.fqdn, e.reason))
  {
    var n := |data| - 1;
    RejectedAtFacts(lib, h, data[..n]);
    if k < |Rejected(lib, h, data[..n])| {
      ErrorsNameTheirLines(lib, h, data[..n], k);
    }
  }

  /** What becomes of a row: skipped if the query returned its name, imported if the name was free, no earlier row with it
      was imported and registration does not refuse it, and failed otherwise. */
  lemma OutcomesMean(rows: seq<ParsedRow>, i: nat, w: Setting)
    requires i < |rows|
    ensures OutcomeAt(rows, i, w) == AlreadyExists <==> rows[i].fqdn in w.visible
    ensures OutcomeAt(rows, i, w) == Imported <==>
              && rows[i].fqdn !in w.visible && rows[i].fqdn !in w.taken && i !in w.refused
              && forall j :: 0 <= j < i && rows[j].fqdn == rows[i].fqdn ==> OutcomeAt(rows, j, w) != Imported
  {
    RegisteredMeansImported(rows[..i], w, rows[i].fqdn);
    forall j | 0 <= j < i
      ensures rows[..i][j] == rows[j] && OutcomeAt(rows[..i], j, w) == OutcomeAt(rows, j, w)
    {
      assert rows[..i][..j] == rows[..j];
    }
    if j :| 0 <= j < i && rows[j].fqdn == rows[i].fqdn && OutcomeAt(rows, j, w) == Imported {
      assert rows[..i][j].fqdn == rows[i].fqdn && OutcomeAt(rows[..i], j, w) == Imported;
    }
  }

  /** The rows with a given outcome. */
  function With(rows: seq<ParsedRow>, w: Setting, o: Outcome): set<nat> {
    set i: nat | i < |rows| && OutcomeAt(rows, i, w) == o
  }

  lemma SameOutcomes(rows: seq<ParsedRow>, n: nat, w: Setting, i: nat)
    requires i < n <= |rows|
    ensures OutcomeAt(rows[..n], i, w) == OutcomeAt(rows, i, w)
  {
    assert rows[..n][..i] == rows[..i] && rows[..n][i] == rows[i];
  }

  lemma WithSnoc(rows: seq<ParsedRow>, w: Setting, o: Outcome)
    requires rows != []
    ensures var n := |rows| - 1;
            |With(rows, w, o)| == |With(rows[..n], w, o)| + if OutcomeAt(rows, n, w) == o then 1 else 0
  {
    var n := |rows| - 1;
    var front, all, last := With(rows[..n], w, o), With(rows, w, o), OutcomeAt(rows, n, w) == o;
    forall i: nat | i < n
      ensures i in front <==> i in all
    {
      SameOutcomes(rows, n, w, i);
    }
    assert n in all <==> last;
    assert all == if last then front + {n} else front;
  }

  /** A counter of the worker is the number of rows with its outcome. */
  lemma {:induction false} CountIs(rows: seq<ParsedRow>, w: Setting, o: Outcome)
    ensures Count(rows, w, o) == |With(rows, w, o)|
  {
    if rows != [] {
      CountIs(rows[..|rows| - 1], w, o);
      WithSnoc(rows, w, o);
    }
  }
}
