/**
 * The row join of `process_csv`: every data row of the entropy table gets the
 * registry metadata of its signal, and the rows are written under the
 * rewritten header by a `csv.DictWriter`.
 */
module Augment {
  import opened Wrappers
  import opened SignalRegistry
  import opened Header

  /** A data row as `csv.DictReader` yields it: column name to cell text. */
  type Row = map<string, string>

  /** The augmented table: the rewritten header and the augmented rows, in input order. */
  datatype Table = Table(fieldnames: seq<string>, rows: seq<Row>)

  /**
   * The `ValueError` a `DictWriter` raises when a row has keys that are not
   * among its fieldnames: the index of that data row and the offending keys.
   */
  datatype ProcessError = ExtraFields(row: nat, fields: set<string>)

  /**
   * How `process_csv` fails: the reader found no header line (its `fieldnames`
   * is `None`, and iterating it raises `TypeError`), or the writer rejected a row.
   */
  datatype CsvError = NoFieldnames | RowRejected(writer: ProcessError)

  /** `row.get("Signal Name")`. */
  function SignalNameOf(row: Row): Option<string> {
    if SignalNameField in row then Some(row[SignalNameField]) else None
  }

  /** True when the row names a signal the registry knows. */
  predicate KnownSignal(row: Row) {
    SignalNameField in row && row[SignalNameField] in Registry()
  }

  /**
   * The two assignments of the row loop: the row gains the metadata columns,
   * filled from the registry for a known signal and empty otherwise, and every
   * other cell is kept.
   */
  function AugmentRow(row: Row): (r: Row)
    ensures forall k :: k in r <==> k in row || k == UserResettableField || k == ReadPrivilegesField
    ensures forall k :: k in row && k != UserResettableField && k != ReadPrivilegesField ==> r[k] == row[k]
    ensures KnownSignal(row) ==>
              && r[UserResettableField] == Registry()[row[SignalNameField]].userResettable
              && r[ReadPrivilegesField] == Registry()[row[SignalNameField]].readPrivileges
    ensures !KnownSignal(row) ==> r[UserResettableField] == "" && r[ReadPrivilegesField] == ""
  {
    var metadata := Lookup(SignalNameOf(row));
    row[UserResettableField := metadata.userResettable][ReadPrivilegesField := metadata.readPrivileges]
  }

  /** Every key of `row` is among `fieldnames`, so `DictWriter.writerow` accepts it. */
  predicate Fits(fieldnames: seq<string>, row: Row) {
    forall k :: k in row ==> k in fieldnames
  }

  /** The keys of `row` that are not among `fieldnames`: what makes `DictWriter.writerow` raise. */
  function Extras(fieldnames: seq<string>, row: Row): set<string> {
    set k | k in row.Keys && k !in fieldnames
  }

  /** The writer rejects nothing exactly when every key of the row is a column. */
  lemma ExtrasEmpty(fieldnames: seq<string>, row: Row)
    ensures Extras(fieldnames, row) == {} <==> Fits(fieldnames, row)
  {
    if !Fits(fieldnames, row) {
      var k :| k in row && k !in fieldnames;
      assert k in Extras(fieldnames, row);
    }
  }

  /**
   * Augments and writes the rows in order; the first row with a key outside
   * `fieldnames` stops the run.
   */
  function AugmentAll(fieldnames: seq<string>, rows: seq<Row>): (r: Result<seq<Row>, ProcessError>)
    ensures r.Success? <==> forall i :: 0 <= i < |rows| ==> Fits(fieldnames, AugmentRow(rows[i]))
    ensures r.Success? ==> |r.value| == |rows|
    ensures r.Success? ==> forall i :: 0 <= i < |rows| ==> r.value[i] == AugmentRow(rows[i])
    ensures r.Failure? ==>
              && r.error.row < |rows|
              && r.error.fields == Extras(fieldnames, AugmentRow(rows[r.error.row]))
              && !Fits(fieldnames, AugmentRow(rows[r.error.row]))
              && forall i :: 0 <= i < r.error.row ==> Fits(fieldnames, AugmentRow(rows[i]))
  {
    if rows == [] then Success([])
    else
      var n := |rows| - 1;
      assert forall i :: 0 <= i < n ==> rows[..n][i] == rows[i];
      match AugmentAll(fieldnames, rows[..n])
      case Failure(e) => Failure(e)
      case Success(done) =>
        var row := AugmentRow(rows[n]);
        if Fits(fieldnames, row) then Success(done + [row]) else Failure(ExtraFields(n, Extras(fieldnames, row)))
  }

  /** `process_csv` on an already-parsed table: rewrite the header, then join every row. */
  function Process(header: seq<string>, rows: seq<Row>): (r: Result<Table, ProcessError>)
    ensures r.Success? <==> forall i :: 0 <= i < |rows| ==> Fits(Extended(header), AugmentRow(rows[i]))
    ensures r.Failure? ==> r.error.row < |rows| && !Fits(Extended(header), AugmentRow(rows[r.error.row]))
  {
    var fieldnames := Extended(header);
    match AugmentAll(fieldnames, rows)
    case Success(augmented) => Success(Table(fieldnames, augmented))
    case Failure(e) => Failure(e)
  }

  /** `DictWriter`'s record for a row: one cell per fieldname, "" where the row has no such key. */
  function Record(fieldnames: seq<string>, row: Row): (rec: seq<string>)
    ensures |rec| == |fieldnames|
    ensures Fits(fieldnames, row) ==>
              forall k :: k in row ==> exists i :: 0 <= i < |fieldnames| && fieldnames[i] == k && rec[i] == row[k]
  {
    seq(|fieldnames|, i requires 0 <= i < |fieldnames| => if fieldnames[i] in row then row[fieldnames[i]] else "")
  }

  /** The records the writer emits for a table: the header, then one record per row. */
  function Written(t: Table): (w: seq<seq<string>>)
    ensures |w| == |t.rows| + 1 && w[0] == t.fieldnames
    ensures forall j :: 0 < j < |w| ==> |w[j]| == |t.fieldnames|
  {
    [t.fieldnames] + seq(|t.rows|, k requires 0 <= k < |t.rows| => Record(t.fieldnames, t.rows[k]))
  }

  /** A run stops at the first row that does not fit, and reports that row's extra keys. */
  lemma FirstMisfit(fieldnames: seq<string>, rows: seq<Row>, i: nat)
    requires i < |rows|
    requires forall j :: 0 <= j < i ==> Fits(fieldnames, AugmentRow(rows[j]))
    requires !Fits(fieldnames, AugmentRow(rows[i]))
    ensures AugmentAll(fieldnames, rows) == Failure(ExtraFields(i, Extras(fieldnames, AugmentRow(rows[i]))))
  {
    var r := AugmentAll(fieldnames, rows);
    assert r.Failure?;
    assert r.error.row == i;
  }

  /** One more fitting row extends a successful run by its augmented row. */
  lemma AugmentAllStep(fieldnames: seq<string>, rows: seq<Row>, i: nat, done: seq<Row>)
    requires i < |rows|
    requires AugmentAll(fieldnames, rows[..i]) == Success(done)
    requires Fits(fieldnames, AugmentRow(rows[i]))
    ensures AugmentAll(fieldnames, rows[..i + 1]) == Success(done + [AugmentRow(rows[i])])
  {
    assert rows[..i + 1][..i] == rows[..i];
  }

  /** Writing one more row appends its record. */
  lemma WrittenStep(fieldnames: seq<string>, done: seq<Row>, row: Row)
    ensures Written(Table(fieldnames, done + [row])) == Written(Table(fieldnames, done)) + [Record(fieldnames, row)]
  {
  }

  /**
   * `process_csv`: builds the header with the field loop, writes it, then
   * augments and writes each row in turn into the output buffer. `header` is
   * the reader's `fieldnames`, `None` when the CSV text has no header line.
   */
  method ProcessCsv(header: Option<seq<string>>, rows: seq<Row>) returns (r: Result<seq<seq<string>>, CsvError>)
    ensures header.None? ==> r == Failure(NoFieldnames)
    ensures header.Some? ==> (r.Success? <==> Process(header.value, rows).Success?)
    ensures header.Some? && r.Success? ==> r.value == Written(Process(header.value, rows).value)
    ensures header.Some? && r.Failure? ==> r == Failure(RowRejected(Process(header.value, rows).error))
  {
    if header.None? {
      return Failure(NoFieldnames);
    }
    var originalFields := header.value;
    var fieldnames := ExtendFieldnames(originalFields);
    var output := [fieldnames];
    ghost var done: seq<Row> := [];
    for i := 0 to |rows|
      invariant AugmentAll(fieldnames, rows[..i]) == Success(done)
      invariant output == Written(Table(fieldnames, done))
    {
      var row := AugmentRow(rows[i]);
      var wrong := Extras(fieldnames, row);
      ExtrasEmpty(fieldnames, row);
      if wrong != {} {
        assert forall j :: 0 <= j < i ==> rows[..i][j] == rows[j];
        FirstMisfit(fieldnames, rows, i);
        return Failure(RowRejected(ExtraFields(i, wrong)));
      }
      AugmentAllStep(fieldnames, rows, i, done);
      WrittenStep(fieldnames, done, row);
      output := output + [Record(fieldnames, row)];
      done := done + [row];
    }
    assert rows[..|rows|] == rows;
    return Success(output);
  }

  /** Every row has only columns of `header`, as `csv.DictReader` produces for rows no longer than the header. */
  predicate KeyedBy(header: seq<string>, rows: seq<Row>) {
    forall i, k :: 0 <= i < |rows| && k in rows[i] ==> k in header
  }

  /**
   * With rows read under `header`, processing succeeds exactly when there are
   * no rows, or the rewritten header holds both metadata columns: it has a
   * "Signal Name" column, or already had both metadata columns. An unknown
   * signal never makes it fail.
   */
  lemma ProcessSucceeds(header: seq<string>, rows: seq<Row>)
    requires KeyedBy(header, rows)
    ensures Process(header, rows).Success? <==>
              |rows| == 0 || SignalNameField in header
              || (UserResettableField in header && ReadPrivilegesField in header)
  {
    var fieldnames := Extended(header);
    ExtendedMembers(header, UserResettableField);
    ExtendedMembers(header, ReadPrivilegesField);
    if UserResettableField in fieldnames && ReadPrivilegesField in fieldnames {
      forall i | 0 <= i < |rows| ensures Fits(fieldnames, AugmentRow(rows[i])) {
        forall k | k in rows[i] ensures k in fieldnames {
          ExtendedMembers(header, k);
        }
      }
    } else if |rows| > 0 {
      assert !Fits(fieldnames, AugmentRow(rows[0]));
    }
  }

  /** The record of an augmented row holds the row's metadata under the two metadata columns. */
  lemma RecordMetadata(fieldnames: seq<string>, row: Row, p: nat)
    requires p + 2 < |fieldnames|
    requires fieldnames[p + 1] == UserResettableField && fieldnames[p + 2] == ReadPrivilegesField
    ensures |Record(fieldnames, AugmentRow(row))| == |fieldnames|
    ensures Record(fieldnames, AugmentRow(row))[p + 1] == Lookup(SignalNameOf(row)).userResettable
    ensures Record(fieldnames, AugmentRow(row))[p + 2] == Lookup(SignalNameOf(row)).readPrivileges
  {
    var md := Lookup(SignalNameOf(row));
    var augmented := AugmentRow(row);
    assert augmented == row[UserResettableField := md.userResettable][ReadPrivilegesField := md.readPrivileges];
    assert augmented[UserResettableField] == md.userResettable;
  }

  /** The record of an augmented row keeps the row's cell under any other column, "" where it has none. */
  lemma RecordOther(fieldnames: seq<string>, row: Row, p: nat)
    requires p < |fieldnames|
    requires fieldnames[p] != UserResettableField && fieldnames[p] != ReadPrivilegesField
    ensures |Record(fieldnames, AugmentRow(row))| == |fieldnames|
    ensures Record(fieldnames, AugmentRow(row))[p] == (if fieldnames[p] in row then row[fieldnames[p]] else "")
  {
  }

  /** A successful run keeps the rewritten header and one augmented row per input row, in order. */
  lemma ProcessRows(header: seq<string>, rows: seq<Row>, t: Table)
    requires Process(header, rows) == Success(t)
    ensures t.fieldnames == Extended(header) && |t.rows| == |rows|
    ensures forall k :: 0 <= k < |rows| ==> t.rows[k] == AugmentRow(rows[k])
  {
    var r := AugmentAll(Extended(header), rows);
    assert r.Success? && r.value == t.rows;
  }

  /** The record written for row `k` of a table. */
  lemma WrittenRecord(t: Table, k: nat)
    requires k < |t.rows|
    ensures |Written(t)| == |t.rows| + 1
    ensures Written(t)[k + 1] == Record(t.fieldnames, t.rows[k])
  {
  }

  /** A successful run writes the rewritten header, then one record per input row, each as long as the header. */
  lemma WrittenShape(header: seq<string>, rows: seq<Row>, t: Table)
    requires Process(header, rows) == Success(t)
    ensures |Written(t)| == |rows| + 1 && Written(t)[0] == Extended(header)
    ensures forall j :: 0 <= j < |Written(t)| ==> |Written(t)[j]| == |Extended(header)|
  {
    ProcessRows(header, rows, t);
  }

  /**
   * In the record of row `k`, the cell under input column `i` is the row's
   * own cell, or "" when the row lacks that column. A column already named
   * `user_resettable` or `read_privileges` is excluded: its cell is
   * overwritten with the metadata, as `WrittenMetadataColumn` states.
   */
  lemma WrittenInputCell(header: seq<string>, rows: seq<Row>, t: Table, k: nat, i: nat)
    requires Process(header, rows) == Success(t)
    requires k < |rows| && i < |header|
    requires header[i] != UserResettableField && header[i] != ReadPrivilegesField
    ensures |Written(t)| == |rows| + 1 && Position(header, i) < |Written(t)[k + 1]|
    ensures Written(t)[k + 1][Position(header, i)] == (if header[i] in rows[k] then rows[k][header[i]] else "")
  {
    ExtendedAt(header, i);
    ProcessRows(header, rows, t);
    WrittenRecord(t, k);
    RecordOther(Extended(header), rows[k], Position(header, i));
  }

  /**
   * In the record of row `k`, the two cells after a "Signal Name" column hold
   * the registry metadata of that row's signal, or "" for an unknown one.
   */
  lemma WrittenMetadataCells(header: seq<string>, rows: seq<Row>, t: Table, k: nat, i: nat)
    requires Process(header, rows) == Success(t)
    requires k < |rows| && i < |header| && header[i] == SignalNameField
    ensures |Written(t)| == |rows| + 1 && Position(header, i) + 2 < |Written(t)[k + 1]|
    ensures Written(t)[k + 1][Position(header, i) + 1] == Lookup(SignalNameOf(rows[k])).userResettable
    ensures Written(t)[k + 1][Position(header, i) + 2] == Lookup(SignalNameOf(rows[k])).readPrivileges
  {
    ExtendedAt(header, i);
    ProcessRows(header, rows, t);
    WrittenRecord(t, k);
    var p := Position(header, i);
    var md := Lookup(SignalNameOf(rows[k]));
    RecordMetadata(Extended(header), rows[k], p);
    assert Written(t)[k + 1][p + 1] == md.userResettable;
  }

  /**
   * In the record of row `k`, every column named `user_resettable` or
   * `read_privileges` holds the looked-up metadata of the row's signal: the
   * pair inserted after a "Signal Name" column, and also such a column that
   * was already in the input header, whose cell is overwritten.
   */
  lemma WrittenMetadataColumn(header: seq<string>, rows: seq<Row>, t: Table, k: nat, j: nat)
    requires Process(header, rows) == Success(t)
    requires k < |rows| && j < |Extended(header)|
    ensures |Written(t)| == |rows| + 1 && j < |Written(t)[k + 1]|
    ensures Extended(header)[j] == UserResettableField ==>
              Written(t)[k + 1][j] == Lookup(SignalNameOf(rows[k])).userResettable
    ensures Extended(header)[j] == ReadPrivilegesField ==>
              Written(t)[k + 1][j] == Lookup(SignalNameOf(rows[k])).readPrivileges
  {
    ProcessRows(header, rows, t);
    WrittenRecord(t, k);
    var md := Lookup(SignalNameOf(rows[k]));
    var augmented := AugmentRow(rows[k]);
    assert augmented == rows[k][UserResettableField := md.userResettable][ReadPrivilegesField := md.readPrivileges];
    assert augmented[UserResettableField] == md.userResettable;
  }
}
