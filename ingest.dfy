/** `ingest_csv_real_estate_data_to_db`: four guarded steps (existence check,
    parse, connect, write) whose first failure decides the error, ending in
    a wholesale replacement of the `listings` table. */
module Ingest {
  import opened Listings
  import Filtering

  /** The CSV argument: a path, with whether it names an existing regular
      file, or any other object `read_csv` accepts (no existence check). */
  datatype CsvSource = CsvPath(path: string, isFile: bool) | CsvObject

  /** What parsing the CSV yields; the parser itself is abstract. */
  datatype CsvContent = Parsed(rows: Table) | Malformed(reason: string)

  /** The database argument: a connection the caller owns, or a path whose
      `sqlite3.connect` either opens the file or raises a `sqlite3.Error`. */
  datatype Target = Given(conn: Connection) | DbPath(path: string, file: Database, opens: bool, reason: string)

  /** How `to_sql` ends on an open connection: it replaces the table, or it
      raises, leaving the `listings` table absent or holding whatever part
      of the work was done. */
  datatype WriteFault = WriteSucceeds | WriteBreaks(reason: string, leftover: Option<Table>)

  /** The step a `sqlite3.DatabaseError` comes from; its message prefix
      names it. */
  datatype Step = Connecting | Writing

  /** `FileNotFoundError`, `ValueError`, `sqlite3.DatabaseError`. */
  datatype IngestError = FileNotFound(path: string) | ValueError(reason: string) | DatabaseError(step: Step, reason: string)

  datatype Outcome = Ingested | Failed(error: IngestError)

  /** The error `to_sql` meets on a connection the caller already closed. */
  const ClosedConnection: string := "Cannot operate on a closed database."

  /** The database file the ingest writes to. */
  function TargetFile(target: Target): Database {
    match target
    case Given(conn) => conn.file
    case DbPath(_, file, _, _) => file
  }

  /** Whether the write step is reached. */
  predicate ReachesWrite(csv: CsvSource, content: CsvContent, target: Target) {
    !(csv.CsvPath? && !csv.isFile) && content.Parsed? && !(target.DbPath? && !target.opens)
  }

  /** The outcome of an ingest; `connOpen` is whether a given connection is
      still open. */
  function Result(csv: CsvSource, content: CsvContent, target: Target, connOpen: bool, fault: WriteFault): (o: Outcome)
    ensures csv.CsvPath? && !csv.isFile ==> o == Failed(FileNotFound(csv.path))
    ensures !(csv.CsvPath? && !csv.isFile) && content.Malformed? ==> o == Failed(ValueError(content.reason))
    ensures !(csv.CsvPath? && !csv.isFile) && content.Parsed? && target.DbPath? && !target.opens ==>
      o == Failed(DatabaseError(Connecting, target.reason))
    ensures ReachesWrite(csv, content, target) ==>
      && (target.Given? && !connOpen ==> o == Failed(DatabaseError(Writing, ClosedConnection)))
      && (target.DbPath? || connOpen ==>
            (fault.WriteSucceeds? <==> o == Ingested)
            && (fault.WriteBreaks? ==> o == Failed(DatabaseError(Writing, fault.reason))))
    ensures o == Ingested <==> ReachesWrite(csv, content, target) && (target.DbPath? || connOpen) && fault.WriteSucceeds?
  {
    if csv.CsvPath? && !csv.isFile then Failed(FileNotFound(csv.path))
    else if content.Malformed? then Failed(ValueError(content.reason))
    else if target.DbPath? && !target.opens then Failed(DatabaseError(Connecting, target.reason))
    else if target.Given? && !connOpen then Failed(DatabaseError(Writing, ClosedConnection))
    else if fault.WriteBreaks? then Failed(DatabaseError(Writing, fault.reason))
    else Ingested
  }

  /** The tables after an ingest. */
  function Store(before: map<string, Table>, csv: CsvSource, content: CsvContent, target: Target,
                 connOpen: bool, fault: WriteFault): (after: map<string, Table>)
    ensures !ReachesWrite(csv, content, target) || (target.Given? && !connOpen) ==> after == before
    ensures Result(csv, content, target, connOpen, fault) == Ingested ==>
      ListingsTable in after && after[ListingsTable] == content.rows
    ensures forall name :: name != ListingsTable ==>
      (name in after <==> name in before) && (name in before ==> after[name] == before[name])
    ensures ReachesWrite(csv, content, target) && (target.DbPath? || connOpen) && fault.WriteBreaks? ==>
      (ListingsTable in after <==> fault.leftover.Some?)
      && (fault.leftover.Some? ==> after[ListingsTable] == fault.leftover.value)
  {
    if !ReachesWrite(csv, content, target) || (target.Given? && !connOpen) then before
    else match fault
      case WriteSucceeds => before[ListingsTable := content.rows]
      case WriteBreaks(_, leftover) =>
        if leftover.Some? then before[ListingsTable := leftover.value] else before - {ListingsTable}
  }

  /** `to_sql('listings', conn, if_exists='replace')`. */
  method WriteListings(conn: Connection, rows: Table, fault: WriteFault) returns (o: Outcome)
    modifies conn.file
    ensures !old(conn.open) ==> o == Failed(DatabaseError(Writing, ClosedConnection)) && unchanged(conn.file)
    ensures old(conn.open) && fault.WriteSucceeds? ==>
      o == Ingested && conn.file.tables == old(conn.file.tables)[ListingsTable := rows]
    ensures old(conn.open) && fault.WriteBreaks? ==>
      o == Failed(DatabaseError(Writing, fault.reason))
      && conn.file.tables == (if fault.leftover.Some? then old(conn.file.tables)[ListingsTable := fault.leftover.value]
                              else old(conn.file.tables) - {ListingsTable})
  {
    if !conn.open {
      return Failed(DatabaseError(Writing, ClosedConnection));
    }
    match fault
    case WriteSucceeds =>
      conn.file.tables := conn.file.tables[ListingsTable := rows];
      o := Ingested;
    case WriteBreaks(reason, leftover) =>
      if leftover.Some? {
        conn.file.tables := conn.file.tables[ListingsTable := leftover.value];
      } else {
        conn.file.tables := conn.file.tables - {ListingsTable};
      }
      o := Failed(DatabaseError(Writing, reason));
  }

  /** The ingest. It changes only the target database file; a connection
      the caller passed is left open, and one opened here is fresh and
      closed again after the write, whether the write succeeded or not. */
  method IngestCsv(csv: CsvSource, content: CsvContent, target: Target, fault: WriteFault)
    returns (o: Outcome, ownConn: Connection?)
    modifies TargetFile(target)
    ensures o == Result(csv, content, target, target.Given? && old(target.conn.open), fault)
    ensures TargetFile(target).tables ==
      Store(old(TargetFile(target).tables), csv, content, target, target.Given? && old(target.conn.open), fault)
    ensures target.Given? ==> ownConn == null && target.conn.open == old(target.conn.open)
    ensures target.DbPath? ==>
      (ownConn != null <==> ReachesWrite(csv, content, target))
      && (ownConn != null ==> fresh(ownConn) && ownConn.file == target.file && !ownConn.open)
  {
    ownConn := null;
    if csv.CsvPath? && !csv.isFile {
      return Failed(FileNotFound(csv.path)), null;
    }
    if content.Malformed? {
      return Failed(ValueError(content.reason)), null;
    }
    var conn: Connection;
    if target.Given? {
      conn := target.conn;
    } else {
      if !target.opens {
        return Failed(DatabaseError(Connecting, target.reason)), null;
      }
      conn := new Connection.Open(target.file);
      ownConn := conn;
    }
    o := WriteListings(conn, content.rows, fault);
    if target.DbPath? {
      conn.Close();
    }
  }

  /** Replace, not merge: after a successful ingest an unfiltered query
      returns exactly the CSV rows, normalised, and no row stored before. */
  lemma IngestThenQueryReturnsCsvRows(before: map<string, Table>, csv: CsvSource, content: CsvContent,
                                     target: Target, connOpen: bool, fault: WriteFault, access: Access)
    requires Result(csv, content, target, connOpen, fault) == Ingested
    requires !access.OpenFailed?
    ensures var after := Store(before, csv, content, target, connOpen, fault);
      Filtering.ExpectedRows(access, after, Filtering.NoFilters) == Filtering.Delivered(content.rows)
    ensures var after := Store(before, csv, content, target, connOpen, fault);
      forall r :: r in Filtering.ExpectedRows(access, after, Filtering.NoFilters) ==>
        exists l :: l in content.rows && l.propertyId == r.propertyId
  {
    var after := Store(before, csv, content, target, connOpen, fault);
    Filtering.NoFiltersReturnsEveryRow(access, after);
    var rows := Filtering.Delivered(content.rows);
    forall r | r in rows
      ensures exists l :: l in content.rows && l.propertyId == r.propertyId
    {
      var i :| 0 <= i < |rows| && rows[i] == r;
      assert content.rows[i] in content.rows;
    }
  }

  /** Ingesting the same CSV twice leaves the same tables as ingesting it once. */
  lemma IngestIdempotent(before: map<string, Table>, csv: CsvSource, content: CsvContent,
                         target: Target, connOpen: bool)
    requires Result(csv, content, target, connOpen, WriteSucceeds) == Ingested
    ensures var once := Store(before, csv, content, target, connOpen, WriteSucceeds);
      Store(once, csv, content, target, connOpen, WriteSucceeds) == once
  {
  }
}
