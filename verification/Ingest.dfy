/** The command line's pipeline: records to rows, rows in order, one request, one summary. */
module Ingest {
  import opened Domain
  import opened Wallet
  import opened Text
  import opened Timestamps
  import opened Chronology
  import opened Instants
  import opened Sorting
  import opened Batch
  import opened WalletService

  /** The header line: ref,account_id,kind,points,occurred_at. */
  const EXPECTED_HEADER := "ref" + "," + ("account_id" + "," + ("kind" + "," + ("points" + "," + "occurred_at")))

  const COLUMNS := ["ref", "account_id", "kind", "points", "occurred_at"]

  /** What the CSV grammar yields for one data record: its fields, or an error. */
  datatype Record = Fields(fields: seq<string>) | Malformed(cause: string)

  /** The reader takes the header's number of fields for the number in every record. */
  function ReadRecord(width: nat, record: Record): Record {
    if record.Fields? && |record.fields| != width then Malformed("wrong number of fields") else record
  }

  /** How a command ends: with a value, with an error, or in a panic. */
  datatype Exit<+T> = Returned(value: T) | Stopped(error: Error) | Panicked

  datatype Row = Row(line: int, ref: string, accountID: string, kind: string, points: int, occurredAt: Time)

  datatype RowError = RowError(line: int, ref: string, reason: string)

  datatype Parsed = Good(row: Row) | Bad(error: RowError)

  /** A decimal int64 with an optional sign. */
  function ParseInt(s: string): Option<int> {
    var negative := s != "" && s[0] == '-';
    var digits := if s != "" && (s[0] == '-' || s[0] == '+') then s[1..] else s;
    if digits == "" || !AllDigits(digits) then None
    else
      var n: int := Value(digits, |digits|);
      var v := if negative then -n else n;
      if -MAX_INT64 - 1 <= v <= MAX_INT64 then Some(v) else None
  }

  lemma ShiftDigit(d: int, p: int)
    ensures d * (10 * p) == 10 * (d * p)
  {
  }

  /** A digit more at the end is ten times the value and the digit. */
  lemma {:induction false} ValueAppend(s: string, c: char)
    requires AllDigits(s) && IsDigit(c)
    ensures AllDigits(s + [c]) && Value(s + [c], |s| + 1) == 10 * Value(s, |s|) + DigitValue(c)
  {
    if s == "" {
      assert (s + [c])[1..] == "";
      assert Pow10(0) == 1;
    } else {
      assert (s + [c])[1..] == s[1..] + [c];
      ValueAppend(s[1..], c);
      ShiftDigit(DigitValue(s[0]), Pow10(|s| - 1));
    }
  }

  lemma DigitReads(d: int)
    requires 0 <= d <= 9
    ensures IsDigit(DigitChar(d)) && DigitValue(DigitChar(d)) == d
    ensures Value([DigitChar(d)], 1) == d
  {
    assert [DigitChar(d)][1..] == "" && Pow10(0) == 1;
  }

  lemma {:induction false} DecimalValue(n: nat)
    ensures Value(Decimal(n), |Decimal(n)|) == n
  {
    if n < 10 {
      DigitReads(n);
    } else {
      DecimalValue(n / 10);
      DigitReads(n % 10);
      ValueAppend(Decimal(n / 10), DigitChar(n % 10));
    }
  }

  /** Digits read as their number exactly when it fits 64 bits, negative after a minus sign. */
  lemma ParseIntReads(s: string, digits: string, n: int)
    requires digits != "" && AllDigits(digits) && Value(digits, |digits|) == n
    requires s == digits || s == "+" + digits || s == "-" + digits
    ensures var v := if s[0] == '-' then -n else n;
            ParseInt(s) == if -0x8000_0000_0000_0000 <= v < 0x8000_0000_0000_0000 then Some(v) else None
  {
    assert IsDigit(digits[0]);
    if s != digits {
      assert s[1..] == digits;
    }
  }

  /** So a number written in decimal reads as itself. */
  lemma ParseIntRoundTrip(n: int)
    requires -0x8000_0000_0000_0000 <= n < 0x8000_0000_0000_0000
    ensures ParseInt(if n < 0 then "-" + Decimal(-n) else Decimal(n)) == Some(n)
  {
    var m: nat := if n < 0 then -n else n;
    var digits := Decimal(m);
    DecimalValue(m);
    assert IsDigit(digits[0]);
    ParseIntReads(if n < 0 then "-" + digits else digits, digits, m);
  }

  /** The time of a cell: blank is the absent time. */
  function ParseCell(raw: string): Option<Time> {
    if TrimSpace(raw) == "" then Some(NO_TIME)
    else
      var stamp := Parse(TrimSpace(raw));
      if stamp.None? then None else Some(InstantOf(stamp.value))
  }

  /** The parser indexes the fourth field of every record, and the fifth once the points parsed: a
      record this short is a panic. */
  predicate Breaks(width: nat, record: Record) {
    ReadRecord(width, record).Fields?
    && (width <= 3 || (width == 4 && ParseInt(TrimSpace(record.fields[3])).Some?))
  }

  ghost predicate NoneBreaks(width: nat, records: seq<Record>) {
    forall k :: 0 <= k < |records| ==> !Breaks(width, records[k])
  }

  /** What becomes of the record with this number. */
  function Classify(line: int, width: nat, record: Record): Parsed
    requires !Breaks(width, record)
  {
    match ReadRecord(width, record)
    case Malformed(cause) => Bad(RowError(line, "", "malformed row: " + cause))
    case Fields(fields) =>
      var p := ParseInt(TrimSpace(fields[3]));
      if p.None? then Bad(RowError(line, fields[0], "invalid points: " + fields[3]))
      else
        var t := ParseCell(fields[4]);
        if t.None? then Bad(RowError(line, fields[0], "invalid occurred_at: " + fields[4] + " (want RFC 3339)"))
        else Good(Row(line, fields[0], fields[1], fields[2], p.value, t.value))
  }

  function NumberOf(p: Parsed): int {
    match p
    case Good(row) => row.line
    case Bad(error) => error.line
  }

  /** A row says what its record says: the first three fields as they are, the number of the fourth, and the
      instant of the fifth, none when it is blank. */
  ghost predicate SaysRow(line: int, fields: seq<string>, row: Row) {
    && |fields| >= 5 && row.line == line
    && row.ref == fields[0] && row.accountID == fields[1] && row.kind == fields[2]
    && ParseInt(TrimSpace(fields[3])) == Some(row.points)
    && (if TrimSpace(fields[4]) == "" then row.occurredAt == NO_TIME
        else Parse(TrimSpace(fields[4])).Some? && row.occurredAt == InstantOf(Parse(TrimSpace(fields[4])).value))
  }

  /** An error says what is wrong with its record: it does not read, its points do not, or its time does not. */
  ghost predicate SaysError(line: int, width: nat, record: Record, error: RowError) {
    && error.line == line
    && match record
       case Malformed(cause) => error.ref == "" && error.reason == "malformed row: " + cause
       case Fields(fields) =>
         if |fields| != width then error.ref == "" && error.reason == "malformed row: wrong number of fields"
         else
           && |fields| >= 4 && error.ref == fields[0]
           && if ParseInt(TrimSpace(fields[3])).None? then error.reason == "invalid points: " + fields[3]
              else |fields| >= 5 && TrimSpace(fields[4]) != "" && Parse(TrimSpace(fields[4])).None?
                   && error.reason == "invalid occurred_at: " + fields[4] + " (want RFC 3339)"
  }

  lemma ClassifyMeans(line: int, width: nat, record: Record)
    requires !Breaks(width, record)
    ensures match Classify(line, width, record)
            case Good(row) => record.Fields? && |record.fields| == width && SaysRow(line, record.fields, row)
            case Bad(error) => SaysError(line, width, record, error)
  {
  }

  /** What becomes of every record, by its number from 1. */
  ghost function ClassifyAll(width: nat, records: seq<Record>): (outcomes: seq<Parsed>)
    requires NoneBreaks(width, records)
    ensures |outcomes| == |records|
    ensures forall k :: 0 <= k < |records| ==>
              outcomes[k] == Classify(k + 1, width, records[k]) && NumberOf(outcomes[k]) == k + 1
  {
    seq(|records|, k requires 0 <= k < |records| => Classify(k + 1, width, records[k]))
  }

  /** The rows are good records of the first n, in the order of the file. */
  ghost predicate RowsFrom(outcomes: seq<Parsed>, n: nat, rows: seq<Row>) {
    && n <= |outcomes|
    && (forall i, j :: 0 <= i < j < |rows| ==> rows[i].line < rows[j].line)
    && (forall i :: 0 <= i < |rows| ==> 1 <= rows[i].line <= n && outcomes[rows[i].line - 1] == Good(rows[i]))
  }

  ghost predicate ErrorsFrom(outcomes: seq<Parsed>, n: nat, errors: seq<RowError>) {
    && n <= |outcomes|
    && (forall i, j :: 0 <= i < j < |errors| ==> errors[i].line < errors[j].line)
    && (forall i :: 0 <= i < |errors| ==> 1 <= errors[i].line <= n && outcomes[errors[i].line - 1] == Bad(errors[i]))
  }

  ghost predicate Placed(p: Parsed, rows: seq<Row>, errors: seq<RowError>) {
    match p
    case Good(row) => row in rows
    case Bad(error) => error in errors
  }

  ghost predicate AllPlaced(outcomes: seq<Parsed>, n: nat, rows: seq<Row>, errors: seq<RowError>) {
    n <= |outcomes| && forall k :: 0 <= k < n ==> Placed(outcomes[k], rows, errors)
  }

  /** Rows and errors together account for records 1 to n: every record is in exactly one of them, and
      both keep the order of the file. */
  ghost predicate Partition(outcomes: seq<Parsed>, n: nat, rows: seq<Row>, errors: seq<RowError>) {
    && |rows| + |errors| == n
    && RowsFrom(outcomes, n, rows) && ErrorsFrom(outcomes, n, errors) && AllPlaced(outcomes, n, rows, errors)
  }

  lemma RowsStep(outcomes: seq<Parsed>, n: nat, rows: seq<Row>, row: Row)
    requires n < |outcomes| && RowsFrom(outcomes, n, rows) && outcomes[n] == Good(row) && row.line == n + 1
    ensures RowsFrom(outcomes, n + 1, rows + [row])
  {
  }

  lemma ErrorsStep(outcomes: seq<Parsed>, n: nat, errors: seq<RowError>, error: RowError)
    requires n < |outcomes| && ErrorsFrom(outcomes, n, errors) && outcomes[n] == Bad(error) && error.line == n + 1
    ensures ErrorsFrom(outcomes, n + 1, errors + [error])
  {
  }

  lemma PlacedStep(outcomes: seq<Parsed>, n: nat, rows: seq<Row>, errors: seq<RowError>, rows': seq<Row>, errors': seq<RowError>)
    requires n < |outcomes| && AllPlaced(outcomes, n, rows, errors) && Placed(outcomes[n], rows', errors')
    requires rows <= rows' && errors <= errors'
    ensures AllPlaced(outcomes, n + 1, rows', errors')
  {
    forall k | 0 <= k < n
      ensures Placed(outcomes[k], rows', errors')
    {
      assert Placed(outcomes[k], rows, errors);
      match outcomes[k]
      case Good(row) => assert row in rows'[..|rows|];
      case Bad(error) => assert error in errors'[..|errors|];
    }
  }

  lemma PartitionStep(outcomes: seq<Parsed>, n: nat, rows: seq<Row>, errors: seq<RowError>)
    requires n < |outcomes| && Partition(outcomes, n, rows, errors) && NumberOf(outcomes[n]) == n + 1
    ensures match outcomes[n]
            case Good(row) => Partition(outcomes, n + 1, rows + [row], errors)
            case Bad(error) => Partition(outcomes, n + 1, rows, errors + [error])
  {
    match outcomes[n]
    case Good(row) =>
      RowsStep(outcomes, n, rows, row);
      assert (rows + [row])[|rows|] == row;
      PlacedStep(outcomes, n, rows, errors, rows + [row], errors);
    case Bad(error) =>
      ErrorsStep(outcomes, n, errors, error);
      assert (errors + [error])[|errors|] == error;
      PlacedStep(outcomes, n, rows, errors, rows, errors + [error]);
  }

  predicate HeaderFits(header: Option<seq<string>>) {
    header.Some? && Join(header.value, ",") == EXPECTED_HEADER
  }

  /** One record, as the reader hands it over. */
  method ParseRecord(line: int, width: nat, entry: Record) returns (r: Exit<Parsed>)
    ensures r.Panicked? <==> Breaks(width, entry)
    ensures r.Returned? ==> r.value == Classify(line, width, entry)
    ensures !r.Stopped?
  {
    var record := ReadRecord(width, entry);
    if record.Malformed? {
      return Returned(Bad(RowError(line, "", "malformed row: " + record.cause)));
    }
    var fields := record.fields;
    if |fields| <= 3 {
      return Panicked;
    }
    var ref := fields[0];
    var points := ParseInt(TrimSpace(fields[3]));
    if points.None? {
      return Returned(Bad(RowError(line, ref, "invalid points: " + fields[3])));
    }
    if |fields| == 4 {
      return Panicked;
    }
    var occurredAt := NO_TIME;
    var raw := TrimSpace(fields[4]);
    if raw != "" {
      var stamp := Parse(raw);
      if stamp.None? {
        return Returned(Bad(RowError(line, ref, "invalid occurred_at: " + fields[4] + " (want RFC 3339)")));
      }
      occurredAt := InstantOf(stamp.value);
    }
    return Returned(Good(Row(line, ref, fields[1], fields[2], points.value, occurredAt)));
  }

  /** Reads to the end of the file; a bad record is an error row, a bad header is fatal. It panics exactly
      when a header of too few fields got past the comparison and a record of as many follows. */
  method ParseCSV(header: Option<seq<string>>, records: seq<Record>) returns (r: Exit<(seq<Row>, seq<RowError>)>)
    ensures r.Stopped? <==> !HeaderFits(header)
    ensures r.Panicked? <==> HeaderFits(header) && !NoneBreaks(|header.value|, records)
    ensures r.Returned? ==> Partition(ClassifyAll(|header.value|, records), |records|, r.value.0, r.value.1)
    ensures r.Returned? ==> RowsSay(records, r.value.0) && ErrorsSay(|header.value|, records, r.value.1)
  {
    if header.None? {
      return Stopped(Storage("read CSV header", "unreadable"));
    }
    if Join(header.value, ",") != EXPECTED_HEADER {
      return Stopped(Invalid("ParseCSV", ["invalid CSV header"]));
    }
    var width := |header.value|;
    ghost var safe := NoneBreaks(width, records);
    ghost var outcomes := if safe then ClassifyAll(width, records) else [];
    var rows: seq<Row> := [];
    var rowErrors: seq<RowError> := [];
    var line := 0;
    while line < |records|
      invariant line <= |records| && forall k :: 0 <= k < line ==> !Breaks(width, records[k])
      invariant safe ==> Partition(outcomes, line, rows, rowErrors)
    {
      var parsed := ParseRecord(line + 1, width, records[line]);
      if parsed.Panicked? {
        return Panicked;
      }
      if safe {
        assert parsed.value == outcomes[line];
        PartitionStep(outcomes, line, rows, rowErrors);
      }
      line := line + 1;
      match parsed.value {
        case Bad(error) => rowErrors := rowErrors + [error];
        case Good(row) => rows := rows + [row];
      }
    }
    PartitionSays(width, records, rows, rowErrors);
    return Returned((rows, rowErrors));
  }

  /** Each row is that of the record with its number. */
  ghost predicate RowsSay(records: seq<Record>, rows: seq<Row>) {
    forall i :: 0 <= i < |rows| ==>
      && 1 <= rows[i].line <= |records| && records[rows[i].line - 1].Fields?
      && SaysRow(rows[i].line, records[rows[i].line - 1].fields, rows[i])
  }

  ghost predicate ErrorsSay(width: nat, records: seq<Record>, errors: seq<RowError>) {
    forall i :: 0 <= i < |errors| ==>
      && 1 <= errors[i].line <= |records|
      && SaysError(errors[i].line, width, records[errors[i].line - 1], errors[i])
  }

  lemma PartitionSays(width: nat, records: seq<Record>, rows: seq<Row>, errors: seq<RowError>)
    requires NoneBreaks(width, records) && Partition(ClassifyAll(width, records), |records|, rows, errors)
    ensures RowsSay(records, rows) && ErrorsSay(width, records, errors)
  {
    forall i | 0 <= i < |rows|
      ensures records[rows[i].line - 1].Fields? && SaysRow(rows[i].line, records[rows[i].line - 1].fields, rows[i])
    {
      ClassifyMeans(rows[i].line, width, records[rows[i].line - 1]);
    }
    forall i | 0 <= i < |errors|
      ensures SaysError(errors[i].line, width, records[errors[i].line - 1], errors[i])
    {
      ClassifyMeans(errors[i].line, width, records[errors[i].line - 1]);
    }
  }

  // ---------------------------------------------------------------- the header

  function Count(s: string, c: char): nat {
    if s == "" then 0 else (if s[0] == c then 1 else 0) + Count(s[1..], c)
  }

  lemma {:induction false} CountConcat(a: string, b: string, c: char)
    ensures Count(a + b, c) == Count(a, c) + Count(b, c)
  {
    if a == "" {
      assert a + b == b;
    } else {
      assert (a + b)[1..] == a[1..] + b;
      CountConcat(a[1..], b, c);
    }
  }

  lemma {:induction false} CountAbsent(s: string, c: char)
    ensures Count(s, c) == 0 <==> c !in s
  {
    if s != "" {
      CountAbsent(s[1..], c);
      assert s == [s[0]] + s[1..];
    }
  }

  function CountAll(parts: seq<string>, c: char): nat {
    if parts == [] then 0 else Count(parts[0], c) + CountAll(parts[1..], c)
  }

  lemma {:induction false} CountJoin(parts: seq<string>, c: char)
    requires parts != []
    ensures Count(Join(parts, [c]), c) == |parts| - 1 + CountAll(parts, c)
  {
    if |parts| > 1 {
      CountJoin(parts[1..], c);
      CountConcat(parts[0], [c], c);
      CountConcat(parts[0] + [c], Join(parts[1..], [c]), c);
      assert Count([c], c) == 1 + Count([c][1..], c);
    } else {
      assert CountAll(parts[1..], c) == 0;
    }
  }

  lemma {:induction false} CountAllAbsent(parts: seq<string>, c: char)
    requires CountAll(parts, c) == 0
    ensures forall k :: 0 <= k < |parts| ==> c !in parts[k]
  {
    if parts != [] {
      CountAbsent(parts[0], c);
      CountAllAbsent(parts[1..], c);
    }
  }

  lemma JoinFour(parts: seq<string>, sep: string)
    requires |parts| == 4
    ensures Join(parts, sep) == parts[0] + sep + (parts[1] + sep + (parts[2] + sep + parts[3]))
  {
    assert Join(parts[1..], sep) == parts[1] + sep + Join(parts[1..][1..], sep);
    assert Join(parts[1..][1..], sep) == parts[2] + sep + Join(parts[1..][1..][1..], sep);
    assert Join(parts[1..][1..][1..], sep) == parts[3];
  }

  lemma ColumnsJoin()
    ensures Join(COLUMNS, ",") == EXPECTED_HEADER
  {
    var rest := COLUMNS[1..];
    assert rest == ["account_id", "kind", "points", "occurred_at"];
    JoinFour(rest, ",");
  }

  lemma ColumnsPlain()
    ensures CountAll(COLUMNS, ',') == 0
  {
    var columns := COLUMNS;
    forall k | 0 <= k < |columns|
      ensures ',' !in columns[k]
    {
      assert forall i :: 0 <= i < |columns[k]| ==> columns[k][i] != ',';
    }
    PlainCount(columns, ',');
  }

  lemma {:induction false} PlainCount(parts: seq<string>, c: char)
    requires forall k :: 0 <= k < |parts| ==> c !in parts[k]
    ensures CountAll(parts, c) == 0
  {
    if parts != [] {
      CountAbsent(parts[0], c);
      PlainCount(parts[1..], c);
    }
  }

  /** Against texts free of the separator, a list that joins to the same is no longer, and is the same
      list exactly when it is as long. */
  lemma JoinsAgree(a: seq<string>, b: seq<string>, c: char)
    requires a != [] && b != [] && Join(a, [c]) == Join(b, [c]) && CountAll(b, c) == 0
    ensures |a| <= |b| && (|a| == |b| <==> a == b)
  {
    CountJoin(a, c);
    CountJoin(b, c);
    if |a| == |b| {
      CountAllAbsent(a, c);
      CountAllAbsent(b, c);
      SplitIsOnly(a, c);
      SplitIsOnly(b, c);
    }
  }

  /** A header that passes has at most five fields, and the five it should have exactly when it has
      five; quoted fields may hide commas and make it fewer. */
  lemma FittingHeader(header: seq<string>, columns: seq<string>)
    requires HeaderFits(Some(header)) && columns == COLUMNS
    ensures 1 <= |header| <= |columns| == 5
    ensures |header| == |columns| <==> header == columns
  {
    ColumnsJoin();
    ColumnsPlain();
    assert [','] == ",";
    JoinsAgree(header, columns, ',');
  }

  /** With its five columns a file never breaks the parser, whatever its records hold. */
  lemma FiveColumnsNeverBreak(header: seq<string>, records: seq<Record>)
    requires header == COLUMNS
    ensures HeaderFits(Some(header)) && NoneBreaks(|header|, records)
  {
    ColumnsJoin();
  }

  lemma OneDigitParses(s: string)
    requires |s| == 1 && IsDigit(s[0])
    ensures ParseInt(TrimSpace(s)).Some?
  {
    assert TrimLeft(s) == s && TrimRight(s) == s;
    assert Value(s, 1) == DigitValue(s[0]) * Pow10(0) + Value(s[1..], 0);
  }

  /** A header of fewer fields passes too, and a record of as many breaks the parser: with one field
      any record does. */
  lemma OneFieldBreaks(header: seq<string>, record: Record)
    requires header == [EXPECTED_HEADER] && record.Fields? && |record.fields| == 1
    ensures HeaderFits(Some(header)) && Breaks(|header|, record)
  {
  }

  /** With four, one whose last field reads as a number. */
  lemma FourFieldsBreak(header: seq<string>, record: Record)
    requires header == ["ref" + "," + "account_id", "kind", "points", "occurred_at"]
    requires record.Fields? && |record.fields| == 4 && ParseInt(TrimSpace(record.fields[3])).Some?
    ensures HeaderFits(Some(header)) && Breaks(|header|, record)
  {
    JoinFour(header, ",");
    ColumnsAfter("ref", "account_id", "kind" + "," + ("points" + "," + "occurred_at"));
  }

  lemma ColumnsAfter(a: string, b: string, rest: string)
    ensures (a + "," + b) + "," + rest == a + "," + (b + "," + rest)
  {
  }

  /** Both kinds of file can be written. */
  lemma ShortHeadersOccur() returns (one: seq<string>, single: Record, four: seq<string>, quad: Record)
    ensures HeaderFits(Some(one)) && |one| == 1 && Breaks(1, single)
    ensures HeaderFits(Some(four)) && |four| == 4 && Breaks(4, quad)
  {
    one, single := [EXPECTED_HEADER], Fields(["r"]);
    OneFieldBreaks(one, single);
    var last := "7";
    four, quad := ["ref" + "," + "account_id", "kind", "points", "occurred_at"], Fields(["r,a", "earn", "5", last]);
    OneDigitParses(last);
    FourFieldsBreak(four, quad);
  }

  // ---------------------------------------------------------------- order

  function ByTimeAndLine(row: Row): Key { Key(row.occurredAt, row.line) }

  /** Sorts the rows where they are. */
  method SortRows(rows: array<Row>)
    modifies rows
    ensures rows[..] == StableSort(old(rows[..]), ByTimeAndLine)
  {
    var sorted := StableSort(rows[..], ByTimeAndLine);
    SortIsStable(rows[..], ByTimeAndLine);
    for i := 0 to rows.Length
      invariant rows[..i] == sorted[..i]
    {
      rows[i] := sorted[i];
    }
    assert rows[..] == rows[..rows.Length];
  }

  ghost predicate DistinctLines(rows: seq<Row>) {
    forall i, j :: 0 <= i < j < |rows| ==> rows[i].line != rows[j].line
  }

  /** The sorted rows are the one permutation in order of time and line. */
  lemma SortRowsIsTheOrder(rows: seq<Row>, t: seq<Row>)
    requires DistinctLines(rows)
    ensures multiset(t) == multiset(rows) && Sorted(t, ByTimeAndLine) <==> t == StableSort(rows, ByTimeAndLine)
  {
    SortIsStable(rows, ByTimeAndLine);
    var u := StableSort(rows, ByTimeAndLine);
    if multiset(t) == multiset(rows) && Sorted(t, ByTimeAndLine) {
      forall x, y | x in u && y in u && ByTimeAndLine(x) == ByTimeAndLine(y)
        ensures x == y
      {
        PermutedMember(u, rows, x);
        PermutedMember(u, rows, y);
      }
      SortedPermutation(u, t, ByTimeAndLine);
    }
  }

  // ---------------------------------------------------------------- the request

  datatype TransactionParams = TransactionParams(ref: string, accountID: string, kind: string, points: int, occurredAt: Time)

  const SECOND: int := 1_000_000_000

  /** What is left of a time written with whole seconds; the absent time is left out, which reads back
      as the absent time. */
  function WholeSeconds(t: Time): (w: Time)
    ensures w <= t < w + 1_000_000_000 && w % 1_000_000_000 == 0
  {
    t - t % SECOND
  }

  /** One entry for each row, in the order of the rows. */
  method BuildRequest(rows: seq<Row>) returns (transactions: seq<TransactionParams>)
    ensures transactions == ParamsOf(rows)
  {
    transactions := [];
    for i := 0 to |rows|
      invariant transactions == ParamsOf(rows[..i])
    {
      var row := rows[i];
      var occurredAt := NO_TIME;
      if row.occurredAt != NO_TIME {
        occurredAt := WholeSeconds(row.occurredAt);
      }
      transactions := transactions
        + [TransactionParams(row.ref, row.accountID, row.kind, row.points, occurredAt)];
    }
    assert rows[..|rows|] == rows;
  }

  function ParamsOf(rows: seq<Row>): (p: seq<TransactionParams>)
    ensures |p| == |rows|
    ensures forall k :: 0 <= k < |rows| ==>
              p[k] == TransactionParams(rows[k].ref, rows[k].accountID, rows[k].kind, rows[k].points,
                                        WholeSeconds(rows[k].occurredAt))
  {
    seq(|rows|, k requires 0 <= k < |rows| =>
      TransactionParams(rows[k].ref, rows[k].accountID, rows[k].kind, rows[k].points, WholeSeconds(rows[k].occurredAt)))
  }

  /** The requests the server makes of the entries, for the caller it authenticated. */
  function Received(userID: string, p: seq<TransactionParams>): (r: seq<ProcessRequest>)
    ensures |r| == |p|
    ensures forall k :: 0 <= k < |p| ==>
              r[k] == ProcessRequest(userID, p[k].ref, p[k].accountID, p[k].kind, p[k].points, p[k].occurredAt)
  {
    seq(|p|, k requires 0 <= k < |p| =>
      ProcessRequest(userID, p[k].ref, p[k].accountID, p[k].kind, p[k].points, p[k].occurredAt))
  }

  lemma WholeSecondsKeepOrder(a: Time, b: Time)
    requires a <= b
    ensures WholeSeconds(a) <= WholeSeconds(b)
  {
  }

  /** The two sorts agree: the list the command line sends is already in the server's order, blank
      times included, so the server applies it as sent. */
  lemma SortsAgree(rows: seq<Row>, userID: string)
    ensures var sent := Received(userID, ParamsOf(StableSort(rows, ByTimeAndLine)));
            StableSort(sent, ByTime) == sent
  {
    var sorted := StableSort(rows, ByTimeAndLine);
    SortIsStable(rows, ByTimeAndLine);
    var sent := Received(userID, ParamsOf(sorted));
    forall i, j | 0 <= i < j < |sent|
      ensures Below(ByTime(sent[i]), ByTime(sent[j]))
    {
      assert Below(ByTimeAndLine(sorted[i]), ByTimeAndLine(sorted[j]));
      WholeSecondsKeepOrder(sorted[i].occurredAt, sorted[j].occurredAt);
    }
    SortedStays(sent, ByTime);
  }

  /** So the server runs the batch exactly in the order of the request. */
  lemma AppliedAsSent(b: Books, claims: seq<string>, rows: seq<Row>, userID: string, clock: nat -> Batch.Stamp)
    ensures var sent := Received(userID, ParamsOf(StableSort(rows, ByTimeAndLine)));
            var calls := CallsFor(claims, sent, clock);
            RunBatch(b, claims, sent, clock)
            == (RunAll(b, calls).books, ResponseOf(ElementsOf(calls, RunAll(b, calls).outcomes)))
  {
    SortsAgree(rows, userID);
  }

  // ---------------------------------------------------------------- the summary

  datatype Rejection = Rejection(line: int, ref: string, reason: string)

  datatype Summary = Summary(
    file: string, sent: nat, accepted: nat, duplicates: nat, rejected: nat, localErrors: nat, rejections: seq<Rejection>)

  /** What came back: an error for the whole batch, a result that does not decode, or the results. */
  datatype Answer =
    | Failed(message: string)
    | Undecodable(cause: string)
    | Decoded(results: seq<Element>, accepted: nat, duplicate: nat, rejected: nat)

  function LocalRejections(errors: seq<RowError>): (r: seq<Rejection>)
    ensures |r| == |errors|
    ensures forall k :: 0 <= k < |r| ==>
              r[k].line == errors[k].line && r[k].ref == errors[k].ref && r[k].reason == errors[k].reason
  {
    if errors == [] then []
    else
      var e := errors[|errors| - 1];
      LocalRejections(errors[..|errors| - 1]) + [Rejection(e.line, e.ref, e.reason)]
  }

  function AllRejected(rows: seq<Row>, reason: string): (r: seq<Rejection>)
    ensures |r| == |rows|
    ensures forall k :: 0 <= k < |r| ==> r[k].line == rows[k].line && r[k].ref == rows[k].ref && r[k].reason == reason
  {
    if rows == [] then []
    else
      var row := rows[|rows| - 1];
      AllRejected(rows[..|rows| - 1], reason) + [Rejection(row.line, row.ref, reason)]
  }

  /** The line of the last row with the ref, or zero when there is none. */
  ghost predicate IsLineOf(rows: seq<Row>, ref: string, line: int) {
    if forall k :: 0 <= k < |rows| ==> rows[k].ref != ref then line == 0
    else exists k :: 0 <= k < |rows| && rows[k].ref == ref && rows[k].line == line
                     && forall m :: k < m < |rows| ==> rows[m].ref != ref
  }

  function LineOf(rows: seq<Row>, ref: string): (line: int)
    ensures IsLineOf(rows, ref, line)
  {
    if rows == [] then 0
    else if rows[|rows| - 1].ref == ref then rows[|rows| - 1].line
    else LineOf(rows[..|rows| - 1], ref)
  }

  /** The elements that were rejected, in order. */
  function RejectedOnes(results: seq<Element>): seq<Element> {
    if results == [] then []
    else
      var e := results[|results| - 1];
      RejectedOnes(results[..|results| - 1]) + if e.verdict == BatchRejected then [e] else []
  }

  function ServerRejections(rows: seq<Row>, results: seq<Element>): (r: seq<Rejection>)
    ensures |r| == |RejectedOnes(results)|
    ensures forall k :: 0 <= k < |r| ==>
              && r[k].ref == RejectedOnes(results)[k].ref && r[k].reason == RejectedOnes(results)[k].reason
              && IsLineOf(rows, r[k].ref, r[k].line)
  {
    if results == [] then []
    else
      var e := results[|results| - 1];
      ServerRejections(rows, results[..|results| - 1])
      + if e.verdict.BatchRejected? then [Rejection(LineOf(rows, e.ref), e.ref, e.reason)] else []
  }

  method RejectAll(rows: seq<Row>, reason: string, start: seq<Rejection>) returns (rejections: seq<Rejection>)
    ensures rejections == start + AllRejected(rows, reason)
  {
    rejections := start;
    for i := 0 to |rows|
      invariant rejections == start + AllRejected(rows[..i], reason)
    {
      rejections := rejections + [Rejection(rows[i].line, rows[i].ref, reason)];
      assert rows[..i + 1][..i] == rows[..i];
    }
    assert rows[..|rows|] == rows;
  }

  /** The map from a ref to its line; a ref that repeats keeps its last. */
  method LinesByRef(rows: seq<Row>) returns (lineByRef: map<string, int>)
    ensures forall ref :: IsLineOf(rows, ref, if ref in lineByRef then lineByRef[ref] else 0)
    ensures forall ref :: (if ref in lineByRef then lineByRef[ref] else 0) == LineOf(rows, ref)
  {
    lineByRef := map[];
    for i := 0 to |rows|
      invariant forall ref :: (if ref in lineByRef then lineByRef[ref] else 0) == LineOf(rows[..i], ref)
    {
      lineByRef := lineByRef[rows[i].ref := rows[i].line];
      assert rows[..i + 1][..i] == rows[..i];
    }
    assert rows[..|rows|] == rows;
  }

  /** The counts and the list of rejections that go with an answer. */
  ghost predicate Tallied(s: Summary, rows: seq<Row>, localErrors: seq<RowError>, answer: Answer) {
    match answer
    case Failed(message) =>
      s.accepted == s.duplicates == 0 && s.rejected == |rows|
      && s.rejections == LocalRejections(localErrors) + AllRejected(rows, message)
    case Undecodable(cause) =>
      s.accepted == s.duplicates == 0 && s.rejected == |rows|
      && s.rejections == LocalRejections(localErrors) + AllRejected(rows, "could not decode batch result: " + cause)
    case Decoded(results, accepted, duplicate, rejected) =>
      s.accepted == accepted && s.duplicates == duplicate && s.rejected == rejected
      && s.rejections == LocalRejections(localErrors) + ServerRejections(rows, results)
  }

  /** Tallies a run: local errors first, then what the server rejected. With no answer (a dry run) only
      the local errors are reported. */
  method Summarize(file: string, rows: seq<Row>, localErrors: seq<RowError>, answer: Option<Answer>) returns (s: Summary)
    ensures s.file == file && s.sent == |rows| && s.localErrors == |localErrors|
    ensures answer.None? ==>
              s.accepted == s.duplicates == s.rejected == 0 && s.rejections == LocalRejections(localErrors)
    ensures answer.Some? ==> Tallied(s, rows, localErrors, answer.value)
  {
    s := Summary(file, |rows|, 0, 0, 0, |localErrors|, []);
    for i := 0 to |localErrors|
      invariant s == Summary(file, |rows|, 0, 0, 0, |localErrors|, LocalRejections(localErrors[..i]))
    {
      var e := localErrors[i];
      s := s.(rejections := s.rejections + [Rejection(e.line, e.ref, e.reason)]);
      assert localErrors[..i + 1][..i] == localErrors[..i];
    }
    assert localErrors[..|localErrors|] == localErrors;
    if answer.None? {
      return;
    }
    var lineByRef := LinesByRef(rows);
    match answer.value {
      case Failed(message) =>
        var rejections := RejectAll(rows, message, s.rejections);
        s := s.(rejected := |rows|, rejections := rejections);
      case Undecodable(cause) =>
        var rejections := RejectAll(rows, "could not decode batch result: " + cause, s.rejections);
        s := s.(rejected := |rows|, rejections := rejections);
      case Decoded(results, accepted, duplicate, rejected) =>
        s := s.(accepted := accepted, duplicates := duplicate, rejected := rejected);
        var rejections := s.rejections;
        for i := 0 to |results|
          invariant rejections == LocalRejections(localErrors) + ServerRejections(rows, results[..i])
        {
          var e := results[i];
          if e.verdict.BatchRejected? {
            var line := if e.ref in lineByRef then lineByRef[e.ref] else 0;
            rejections := rejections + [Rejection(line, e.ref, e.reason)];
          }
          assert results[..i + 1][..i] == results[..i];
        }
        assert results[..|results|] == results;
        s := s.(rejections := rejections);
    }
  }

  lemma {:induction false} RejectionCount(rows: seq<Row>, results: seq<Element>)
    ensures |ServerRejections(rows, results)| == |RejectedOnes(results)| == |RefsMarked(results, BatchRejected)|
  {
    if results != [] {
      RejectionCount(rows, results[..|results| - 1]);
    }
  }

  // ---------------------------------------------------------------- end to end

  /** What the network and the server's front make of the request: it may not get there, or its reply
      may not get back, or be refused before the service, or be garbled. */
  datatype Wire =
    | Unreachable(cause: string)
    | NoReply(cause: string)
    | Denied(message: string)
    | Garbled(cause: string)
    | Works

  /** The request never got as far as the service. */
  predicate StopsShort(wire: Wire) {
    wire.Unreachable? || wire.Denied?
  }

  /** The whole command against a server. It panics exactly when the parser does, it stops with an error
      exactly when the header does not fit or no reply comes back, and otherwise every data record ends
      up accepted, duplicate, rejected or a local error, counted once, and every rejected one and every
      local error is listed. */
  method IngestFile(
    file: string, header: Option<seq<string>>, records: seq<Record>, wire: Wire,
    service: Service, claims: seq<string>, userID: string, clock: nat -> Batch.Stamp) returns (r: Exit<Summary>)
    requires service.db.Valid() && service.db.saved.None?
    modifies service.db
    ensures service.db.Valid() && service.db.saved.None?
    ensures r.Panicked? <==> HeaderFits(header) && !NoneBreaks(|header.value|, records)
    ensures r.Stopped? <==>
              !HeaderFits(header)
              || (NoneBreaks(|header.value|, records) && (wire.Unreachable? || wire.NoReply?))
    ensures r.Returned? ==>
              var s := r.value;
              && s.accepted + s.duplicates + s.rejected + s.localErrors == |records|
              && |s.rejections| == s.rejected + s.localErrors
              && (wire.Works? ==> s.accepted == |service.db.ledger| - |old(service.db.ledger)|)
    ensures r.Panicked? || !HeaderFits(header) || StopsShort(wire) ==> service.db.Books() == old(service.db.Books())
  {
    var parsed := ParseCSV(header, records);
    if parsed.Stopped? {
      return Stopped(parsed.error);
    }
    if parsed.Panicked? {
      return Panicked;
    }
    var (found, rowErrors) := parsed.value;
    var rows := new Row[|found|](i requires 0 <= i < |found| => found[i]);
    assert rows[..] == found;
    SortRows(rows);
    SortIsStable(found, ByTimeAndLine);
    r := Submit(file, rows[..], rowErrors, wire, service, claims, userID, clock);
  }

  /** Sends the rows in the order they are in and tallies the reply. */
  method Submit(
    file: string, rows: seq<Row>, rowErrors: seq<RowError>, wire: Wire,
    service: Service, claims: seq<string>, userID: string, clock: nat -> Batch.Stamp) returns (r: Exit<Summary>)
    requires service.db.Valid() && service.db.saved.None?
    modifies service.db
    ensures service.db.Valid() && service.db.saved.None?
    ensures !r.Panicked? && (r.Stopped? <==> wire.Unreachable? || wire.NoReply?)
    ensures r.Returned? ==>
              var s := r.value;
              && s.sent == |rows| && s.localErrors == |rowErrors|
              && s.accepted + s.duplicates + s.rejected == |rows|
              && |s.rejections| == s.rejected + s.localErrors
              && (wire.Works? ==> s.accepted == |service.db.ledger| - |old(service.db.ledger)|)
    ensures StopsShort(wire) ==> service.db.Books() == old(service.db.Books())
  {
    var request := BuildRequest(rows);
    if wire.Unreachable? {
      return Stopped(Storage("reach server", wire.cause));
    }
    var answer;
    if wire.Denied? {
      answer := Failed(wire.message);
    } else {
      var reply := service.ProcessTransactionBatch(claims, Received(userID, request), clock);
      if wire.NoReply? {
        return Stopped(Storage("read response", wire.cause));
      }
      answer := if wire.Garbled? then Undecodable(wire.cause) else AnswerOf(reply);
      if reply.Ok? {
        RejectionCount(rows, reply.value.results);
      }
    }
    var s := Summarize(file, rows, rowErrors, Some(answer));
    return Returned(s);
  }

  function AnswerOf(reply: Result<Response>): Answer {
    match reply
    case Err(error) => Failed(Message(error))
    case Ok(response) => Decoded(response.results, response.accepted, response.duplicate, response.rejected)
  }
}
