/** One run of the importer, `excel2mariadb_with_progress` (xlsx2table.py:61-144):
    pick a reader from the file's extension, take the stripped headers, derive the
    table name, connect, drop the table, infer each column's type, create the table,
    switch the integrity checks off, insert the rows batch by batch with a commit
    after each batch, switch the checks back on and close the connection. */
module Ingest {
  import opened Wrappers
  import opened Text
  import opened ColumnType
  import opened TableName
  import opened Sql
  import opened Batching
  import opened Driver

  // ---------------------------------------------------------------------------
  // Reader choice (xlsx2table.py:67-72)

  /** The engine pandas is told to read the file with. */
  datatype Engine = Xlrd | Openpyxl

  /** `.xls` is read with xlrd, `.xlsx` with openpyxl; any other path is refused.
      The comparison is case-sensitive. */
  function EngineFor(path: string): Option<Engine> {
    if EndsWith(path, ".xls") then Some(Xlrd)
    else if EndsWith(path, ".xlsx") then Some(Openpyxl)
    else None
  }

  /** Whatever comes before the extension, `.xls` picks xlrd and `.xlsx` picks openpyxl,
      and a path ending in `.XLSX` (upper case) or `.csv` is refused. */
  lemma ExtensionDispatch(base: string)
    ensures EngineFor(base + ".xls") == Some(Xlrd)
    ensures EngineFor(base + ".xlsx") == Some(Openpyxl)
    ensures EngineFor(base + ".XLSX") == None
    ensures EngineFor(base + ".csv") == None
  {
    var xls := base + ".xls";
    assert xls[|xls| - 4..] == ".xls";
    var xlsx := base + ".xlsx";
    assert xlsx[|xlsx| - 5..] == ".xlsx";
    assert xlsx[|xlsx| - 1] == 'x' != ".xls"[3];
    var upper := base + ".XLSX";
    assert upper[|upper| - 1] == 'X';
    var csv := base + ".csv";
    assert csv[|csv| - 1] == 'v';
  }

  /** For every path: xlrd exactly when it is some text followed by `.xls`, openpyxl
      exactly when it is some text followed by `.xlsx`, and refused otherwise. */
  lemma EngineForAnyPath(path: string)
    ensures EngineFor(path) == Some(Xlrd) <==> exists base :: path == base + ".xls"
    ensures EngineFor(path) == Some(Openpyxl) <==> exists base :: path == base + ".xlsx"
    ensures EngineFor(path).None?
      <==> (forall base :: path != base + ".xls") && (forall base :: path != base + ".xlsx")
  {
    SuffixForm(path, ".xls");
    SuffixForm(path, ".xlsx");
    if EndsWith(path, ".xlsx") {
      assert path[|path| - 1] == 'x' != ".xls"[3];
    }
  }

  /** Ending in `suffix` is being some text followed by `suffix`. */
  lemma SuffixForm(path: string, suffix: string)
    ensures EndsWith(path, suffix) <==> exists base :: path == base + suffix
  {
    if EndsWith(path, suffix) {
      var base := path[..|path| - |suffix|];
      assert path == base + suffix;
    }
    if exists base :: path == base + suffix {
      var base :| path == base + suffix;
      assert path[|path| - |suffix|..] == suffix;
    }
  }

  // ---------------------------------------------------------------------------
  // The sheet and its columns

  /** The sheet as pandas reads it with `dtype=str, keep_default_na=False`: the header
      texts and the rows of cell texts, a blank cell being "". */
  datatype Sheet = Sheet(headers: seq<string>, rows: seq<seq<string>>)
  {
    /** Every row has one cell per column. */
    ghost predicate Valid() {
      forall r | 0 <= r < |rows| :: |rows[r]| == |headers|
    }

    /** The headers are distinct, as pandas makes them when it reads the file (it
        renames a repeated header). */
    ghost predicate DistinctHeaders() {
      forall j, k | 0 <= j < k < |headers| :: headers[j] != headers[k]
    }

    /** The cells of column `j`, top to bottom. */
    function Column(j: nat): (c: seq<string>)
      requires Valid() && j < |headers|
      ensures |c| == |rows|
      ensures forall r | 0 <= r < |rows| :: c[r] == rows[r][j]
    {
      seq(|rows|, r requires 0 <= r < |rows| => rows[r][j])
    }
  }

  /** `[str(col).strip() for col in df.columns]` */
  function HeaderNames(headers: seq<string>): (names: seq<string>)
    ensures |names| == |headers|
    ensures forall i | 0 <= i < |headers| :: names[i] == Strip(headers[i])
  {
    seq(|headers|, i requires 0 <= i < |headers| => Strip(headers[i]))
  }

  /** `df[name]`: the position of the header equal to `name`; KeyError when none is. */
  function Lookup(headers: seq<string>, name: string): (r: Option<nat>)
    ensures r.Some? ==> r.value < |headers| && headers[r.value] == name
    ensures r.None? <==> name !in headers
  {
    if headers == [] then None
    else if headers[0] == name then Some(0)
    else match Lookup(headers[1..], name)
      case None => None
      case Some(j) => Some(j + 1)
  }

  /** With distinct headers, looking up a header finds its own position. */
  lemma LookupOwnPosition(headers: seq<string>, j: nat)
    requires j < |headers|
    requires forall a, b | 0 <= a < b < |headers| :: headers[a] != headers[b]
    ensures Lookup(headers, headers[j]) == Some(j)
  {
    var r := Lookup(headers, headers[j]);
    assert r.Some?;
  }

  /** The type inference applied to one column, with the importer's date parser. */
  function Inference(parses: DateParser): seq<string> -> SqlType {
    values => DetermineColumnType(values, parses)
  }

  /** The column list the loop at xlsx2table.py:91-94 builds: for each stripped name, in
      order, the name and the type `infer` gives `df[name]`; the first name with no
      column of that header stops it. The importer's own inference is
      `Inference(parses)`. */
  function Schema(sheet: Sheet, names: seq<string>, infer: seq<string> -> SqlType): Result<seq<ColumnDef>, string>
    requires sheet.Valid()
  {
    if names == [] then Ok([])
    else match Schema(sheet, names[..|names| - 1], infer)
      case Err(missing) => Err(missing)
      case Ok(defs) =>
        var name := names[|names| - 1];
        match Lookup(sheet.headers, name)
        case None => Err(name)
        case Some(j) => Ok(defs + [ColumnDef(name, infer(sheet.Column(j)))])
  }

  /** A failure in a prefix of the names is the failure of all of them. */
  lemma {:induction false} SchemaKeepsError(sheet: Sheet, names: seq<string>, k: nat, infer: seq<string> -> SqlType)
    requires sheet.Valid() && k <= |names|
    requires Schema(sheet, names[..k], infer).Err?
    ensures Schema(sheet, names, infer) == Schema(sheet, names[..k], infer)
  {
    if k < |names| {
      assert names[..|names| - 1][..k] == names[..k];
      SchemaKeepsError(sheet, names[..|names| - 1], k, infer);
    } else {
      assert names[..k] == names;
    }
  }

  /** On success there is one definition per name, in order, each typed by inferring
      the column whose header is that name. */
  lemma {:induction false} SchemaShape(sheet: Sheet, names: seq<string>, infer: seq<string> -> SqlType)
    requires sheet.Valid()
    requires Schema(sheet, names, infer).Ok?
    ensures |Schema(sheet, names, infer).value| == |names|
    ensures forall i | 0 <= i < |names| ::
      Lookup(sheet.headers, names[i]).Some?
      && Schema(sheet, names, infer).value[i]
         == ColumnDef(names[i], infer(sheet.Column(Lookup(sheet.headers, names[i]).value)))
  {
    if names != [] {
      var init := names[..|names| - 1];
      SchemaShape(sheet, init, infer);
      forall i | 0 <= i < |init| ensures names[i] == init[i] { }
    }
  }

  /** When every name is a header, the loop completes. */
  lemma {:induction false} SchemaSucceeds(sheet: Sheet, names: seq<string>, infer: seq<string> -> SqlType)
    requires sheet.Valid()
    requires forall i | 0 <= i < |names| :: names[i] in sheet.headers
    ensures Schema(sheet, names, infer).Ok?
  {
    if names != [] {
      var init := names[..|names| - 1];
      assert forall i | 0 <= i < |init| :: init[i] == names[i];
      SchemaSucceeds(sheet, init, infer);
    }
  }

  /** When the loop stops, it names the first name that is not a header. */
  lemma {:induction false} SchemaFailsAtFirstMissing(sheet: Sheet, names: seq<string>, infer: seq<string> -> SqlType)
    requires sheet.Valid()
    requires Schema(sheet, names, infer).Err?
    ensures exists i | 0 <= i < |names| ::
      Schema(sheet, names, infer).error == names[i] && names[i] !in sheet.headers
      && forall k | 0 <= k < i :: names[k] in sheet.headers
  {
    var init := names[..|names| - 1];
    if Schema(sheet, init, infer).Err? {
      SchemaFailsAtFirstMissing(sheet, init, infer);
      var i :| 0 <= i < |init| && Schema(sheet, init, infer).error == init[i] && init[i] !in sheet.headers
        && forall k | 0 <= k < i :: init[k] in sheet.headers;
      assert forall k | 0 <= k <= i :: init[k] == names[k];
    } else {
      SchemaShape(sheet, init, infer);
      assert forall k | 0 <= k < |init| :: init[k] == names[k];
      assert Schema(sheet, names, infer).error == names[|names| - 1];
    }
  }

  /** The loop, as the source runs it: a `for` over the names appending one definition
      per column. */
  method InferColumns(sheet: Sheet, names: seq<string>, infer: seq<string> -> SqlType)
    returns (r: Result<seq<ColumnDef>, string>)
    requires sheet.Valid()
    ensures r == Schema(sheet, names, infer)
  {
    var defs: seq<ColumnDef> := [];
    for i := 0 to |names|
      invariant Schema(sheet, names[..i], infer) == Ok(defs)
    {
      assert names[..i + 1][..i] == names[..i];
      match Lookup(sheet.headers, names[i]) {
        case None =>
          SchemaKeepsError(sheet, names, i + 1, infer);
          return Err(names[i]);
        case Some(j) =>
          defs := defs + [ColumnDef(names[i], infer(sheet.Column(j)))];
      }
    }
    assert names[..|names|] == names;
    return Ok(defs);
  }

  /** Looking up every header in turn finds each at its own position, since the
      headers are distinct. */
  lemma {:induction false} HeadersSchema(sheet: Sheet, infer: seq<string> -> SqlType)
    requires sheet.Valid() && sheet.DistinctHeaders()
    ensures Schema(sheet, sheet.headers, infer).Ok?
    ensures |Schema(sheet, sheet.headers, infer).value| == |sheet.headers|
    ensures forall j | 0 <= j < |sheet.headers| ::
      Schema(sheet, sheet.headers, infer).value[j] == ColumnDef(sheet.headers[j], infer(sheet.Column(j)))
  {
    SchemaSucceeds(sheet, sheet.headers, infer);
    SchemaShape(sheet, sheet.headers, infer);
    var defs := Schema(sheet, sheet.headers, infer).value;
    forall j | 0 <= j < |sheet.headers|
      ensures defs[j] == ColumnDef(sheet.headers[j], infer(sheet.Column(j)))
    {
      LookupOwnPosition(sheet.headers, j);
    }
  }

  /** Headers without surrounding whitespace are all found, each at its own position. */
  lemma TrimmedHeadersFound(sheet: Sheet, infer: seq<string> -> SqlType)
    requires sheet.Valid() && sheet.DistinctHeaders()
    requires forall j | 0 <= j < |sheet.headers| :: Strip(sheet.headers[j]) == sheet.headers[j]
    ensures Schema(sheet, HeaderNames(sheet.headers), infer).Ok?
    ensures |Schema(sheet, HeaderNames(sheet.headers), infer).value| == |sheet.headers|
    ensures forall j | 0 <= j < |sheet.headers| ::
      Schema(sheet, HeaderNames(sheet.headers), infer).value[j]
      == ColumnDef(sheet.headers[j], infer(sheet.Column(j)))
  {
    var names := HeaderNames(sheet.headers);
    assert names == sheet.headers by {
      forall j | 0 <= j < |names| ensures names[j] == sheet.headers[j] { }
    }
    HeadersSchema(sheet, infer);
  }

  /** A header with surrounding whitespace whose stripped text is no other header makes
      the column lookup fail. */
  lemma PaddedHeaderFails(sheet: Sheet, j: nat, infer: seq<string> -> SqlType)
    requires sheet.Valid() && j < |sheet.headers|
    requires Strip(sheet.headers[j]) !in sheet.headers
    ensures Schema(sheet, HeaderNames(sheet.headers), infer).Err?
  {
    var names := HeaderNames(sheet.headers);
    if Schema(sheet, names, infer).Ok? {
      SchemaShape(sheet, names, infer);
    }
  }

  // ---------------------------------------------------------------------------
  // The run

  /** Where a database error happened. */
  datatype Stage = Connecting | CreatingTable | Inserting(batch: nat) | Committing(batch: nat)

  /** How a run fails: an unsupported file (ValueError), a header that `df[...]` does
      not find (KeyError) — both in the generic exception branch — or a
      `mysql.connector.Error`. */
  datatype Failure = UnsupportedFile | MissingColumn(name: string) | DatabaseError(stage: Stage)

  datatype Outcome = Imported | Failed(failure: Failure)

  /** What a run leaves behind: its outcome, the server's committed tables and the
      calls it made on the connection. */
  datatype Run = Run(outcome: Outcome, tables: map<string, seq<Row>>, trace: seq<Call>)

  /** xlsx2table.py:101-103 */
  const DisableChecks: seq<Call> := [
    Execute(SetVariable(Autocommit, false)),
    Execute(SetVariable(UniqueChecks, false)),
    Execute(SetVariable(ForeignKeyChecks, false))]

  /** xlsx2table.py:129-131 */
  const RestoreChecks: seq<Call> := [
    Execute(SetVariable(UniqueChecks, true)),
    Execute(SetVariable(ForeignKeyChecks, true)),
    Execute(SetVariable(Autocommit, true))]

  /** The calls made for the first `k` batches: for each, the executemany of its
      converted rows, then a commit. */
  function LoadCalls(ins: Insert, rows: seq<seq<string>>, k: nat): seq<Call>
    requires k <= BatchCount(|rows|)
  {
    if k == 0 then []
    else LoadCalls(ins, rows, k - 1) + [ExecuteMany(ins, NullRows(Batch(rows, k - 1))), Commit]
  }

  /** Whether the fault fires in a run that reaches the load with `n` batches. */
  predicate FiresDuringLoad(fault: Fault, n: nat) {
    (fault.RejectInsert? || fault.RejectCommit?) && fault.batch < n
  }

  /** Where the fault stops the batch loop, if it does. */
  function StopsAt(fault: Fault, n: nat): Option<Stage> {
    if !FiresDuringLoad(fault, n) then None
    else if fault.RejectInsert? then Some(Inserting(fault.batch))
    else Some(Committing(fault.batch))
  }

  /** The refused call and what was sent for it: the executemany of the batch the
      fault names, and the refused commit after it when it is a commit. */
  function RefusedCalls(ins: Insert, rows: seq<seq<string>>, fault: Fault): seq<Call> {
    if !FiresDuringLoad(fault, BatchCount(|rows|)) then []
    else [ExecuteMany(ins, NullRows(Batch(rows, fault.batch)))] + (if fault.RejectCommit? then [Commit] else [])
  }

  /** The load stage, xlsx2table.py:105-131, on a server whose committed tables are
      `before` (with the target table just created, empty): the batches are sent and
      committed in order until the fault stops the loop; the target table holds the
      committed batches; the checks are switched back on only when every batch went
      through; the connection is closed in every case. */
  function Loaded(ins: Insert, rows: seq<seq<string>>, fault: Fault, before: map<string, seq<Row>>): Run {
    var n := BatchCount(|rows|);
    var k := CommittedBatches(fault, n);
    var stop := StopsAt(fault, n);
    Run(if stop.Some? then Failed(DatabaseError(stop.value)) else Imported,
        before[ins.table := NullRows(Batches(rows, k))],
        LoadCalls(ins, rows, k) + RefusedCalls(ins, rows, fault) + (if stop.Some? then [] else RestoreChecks) + [Close])
  }

  /** Creating the table and loading it (xlsx2table.py:96-131), on a server holding
      `before`, from which the table has just been dropped. A refused CREATE closes
      the connection at once. */
  function Created(table: string, names: seq<string>, defs: seq<ColumnDef>, rows: seq<seq<string>>,
                   fault: Fault, before: map<string, seq<Row>>): Run
  {
    var create := Execute(CreateTable(table, defs));
    if fault == RejectCreate then Run(Failed(DatabaseError(CreatingTable)), before, [create, Close])
    else
      var load := Loaded(Insert(table, names), rows, fault, before[table := []]);
      Run(load.outcome, load.tables, [create] + DisableChecks + load.trace)
  }

  /** What the connected part of a run does (xlsx2table.py:86-131 with the error
      branches and the close of 134-144), given the table name, the stripped names
      and the outcome of the column loop: drop the table; on a missing column roll
      back; otherwise create and load. The connection is closed on every path. */
  function Session(table: string, names: seq<string>, schema: Result<seq<ColumnDef>, string>,
                   rows: seq<seq<string>>, fault: Fault, before: map<string, seq<Row>>): Run
  {
    var drop := Execute(DropTable(table));
    var dropped := before - {table};
    match schema
    case Err(missing) => Run(Failed(MissingColumn(missing)), dropped, [drop, Rollback, Close])
    case Ok(defs) =>
      var created := Created(table, names, defs, rows, fault, dropped);
      Run(created.outcome, created.tables, [drop] + created.trace)
  }

  /** What one run does to a server holding `before` whose fault is `fault`. An
      unsupported file or a refused connection stops it before any call. */
  function ExpectedRun(path: string, stem: string, sheet: Sheet, parses: DateParser,
                       fault: Fault, before: map<string, seq<Row>>): Run
    requires sheet.Valid()
  {
    if EngineFor(path).None? then Run(Failed(UnsupportedFile), before, [])
    else if fault == RefuseConnection then Run(Failed(DatabaseError(Connecting)), before, [])
    else
      var names := HeaderNames(sheet.headers);
      Session(DeriveTableName(stem), names, Schema(sheet, names, Inference(parses)), sheet.rows, fault, before)
  }

  /** One batch of the loop at xlsx2table.py:107-123: executemany of the converted
      rows, then a commit. The batch's number is the count of executemany calls made
      before it. */
  method SendBatch(db: Database, ins: Insert, batch: seq<Row>) returns (failure: Option<Stage>)
    requires db.connected && db.pending == [] && db.inserts == db.commits
    requires ins.table in db.tables
    requires forall r | 0 <= r < |batch| :: |batch[r]| == |ins.columns|
    modifies db
    ensures db.connected && db.inserts == old(db.inserts) + 1
    ensures failure == (if db.fault == RejectInsert(old(db.inserts)) then Some(Inserting(old(db.inserts)))
      else if db.fault == RejectCommit(old(db.inserts)) then Some(Committing(old(db.inserts)))
      else None)
    ensures failure.None? ==> (db.pending == [] && db.commits == db.inserts
      && db.tables == old(db.tables)[ins.table := old(db.tables)[ins.table] + batch]
      && db.trace == old(db.trace) + [ExecuteMany(ins, batch), Commit])
    ensures failure.Some? ==> (db.tables == old(db.tables)
      && db.trace == old(db.trace) + [ExecuteMany(ins, batch)] + (if failure.value.Committing? then [Commit] else []))
    ensures failure.Some? ==> db.pending == (if failure.value.Committing? then batch else [])
    ensures failure.Some? ==> db.commits == old(db.commits) + (if failure.value.Committing? then 1 else 0)
  {
    var number := db.inserts;
    var ok := db.ExecuteMany(ins, batch);
    if !ok {
      return Some(Inserting(number));
    }
    assert db.pending == batch && db.pendingTable == ins.table && ins.table in db.tables;
    ok := db.Commit();
    if !ok {
      return Some(Committing(number));
    }
    return None;
  }

  /** How many batches the loop commits: all of them, unless the fault stops it. */
  function CommittedBatches(fault: Fault, n: nat): (k: nat)
    ensures k <= n
    ensures k < n <==> FiresDuringLoad(fault, n)
  {
    if FiresDuringLoad(fault, n) then fault.batch else n
  }

  /** The batch loop, xlsx2table.py:107-123, on a server whose target table is empty:
      it commits the first `CommittedBatches` batches in order and stops at the
      refused call, if any. */
  method SendBatches(db: Database, ins: Insert, rows: seq<seq<string>>) returns (failure: Option<Stage>)
    requires db.connected && db.pending == [] && db.inserts == 0 && db.commits == 0
    requires ins.table in db.tables && db.tables[ins.table] == []
    requires forall r | 0 <= r < |rows| :: |rows[r]| == |ins.columns|
    modifies db
    ensures db.connected
    ensures failure == StopsAt(db.fault, BatchCount(|rows|))
    ensures var k := CommittedBatches(db.fault, BatchCount(|rows|));
      && db.tables == old(db.tables)[ins.table := NullRows(Batches(rows, k))]
      && db.trace == old(db.trace) + LoadCalls(ins, rows, k) + RefusedCalls(ins, rows, db.fault)
    ensures failure.None? ==> db.pending == []
    ensures failure.Some? ==> db.pending == (if failure.value.Committing? then NullRows(Batch(rows, db.fault.batch)) else [])
  {
    var totalRows := |rows|;
    var totalBatches := (totalRows + BatchSize - 1) / BatchSize;
    assert NullRows(Batches(rows, 0)) == [];
    assert db.tables[ins.table := []] == db.tables;
    for b := 0 to totalBatches
      invariant db.connected && db.pending == [] && db.inserts == b && db.commits == b
      invariant db.tables == old(db.tables)[ins.table := NullRows(Batches(rows, b))]
      invariant db.trace == old(db.trace) + LoadCalls(ins, rows, b)
      invariant !FiresDuringLoad(db.fault, b)
    {
      var start := b * BatchSize;
      var end := if start + BatchSize <= totalRows then start + BatchSize else totalRows;
      var batch := NullRows(rows[start..end]);
      assert batch == NullRows(Batch(rows, b));
      NullRowsWidth(rows[start..end], |ins.columns|);
      failure := SendBatch(db, ins, batch);
      if failure.Some? {
        RefusedAt(ins, rows, db.fault, b);
        return;
      }
      NullRowsConcat(Batches(rows, b), Batch(rows, b));
    }
    NoneRefused(ins, rows, db.fault);
    return None;
  }

  /** The batch the fault names is where the loop stops. */
  lemma RefusedAt(ins: Insert, rows: seq<seq<string>>, fault: Fault, b: nat)
    requires b < BatchCount(|rows|)
    requires fault == RejectInsert(b) || fault == RejectCommit(b)
    ensures CommittedBatches(fault, BatchCount(|rows|)) == b
    ensures StopsAt(fault, BatchCount(|rows|)) == Some(if fault.RejectInsert? then Inserting(b) else Committing(b))
    ensures RefusedCalls(ins, rows, fault)
      == [ExecuteMany(ins, NullRows(Batch(rows, b)))] + (if fault.RejectCommit? then [Commit] else [])
  {
  }

  /** A fault that does not fire during the load refuses nothing in it. */
  lemma NoneRefused(ins: Insert, rows: seq<seq<string>>, fault: Fault)
    requires !FiresDuringLoad(fault, BatchCount(|rows|))
    ensures CommittedBatches(fault, BatchCount(|rows|)) == BatchCount(|rows|)
    ensures StopsAt(fault, BatchCount(|rows|)) == None
    ensures LoadCalls(ins, rows, BatchCount(|rows|)) + RefusedCalls(ins, rows, fault)
      == LoadCalls(ins, rows, BatchCount(|rows|))
  {
    assert RefusedCalls(ins, rows, fault) == [];
  }

  /** The load stage against the connection: the batch loop, the checks switched back
      on, and the connection closed on every path. */
  method LoadRows(db: Database, ins: Insert, rows: seq<seq<string>>) returns (outcome: Outcome)
    requires db.connected && db.pending == [] && db.inserts == 0 && db.commits == 0
    requires ins.table in db.tables && db.tables[ins.table] == []
    requires forall r | 0 <= r < |rows| :: |rows[r]| == |ins.columns|
    modifies db
    ensures var load := Loaded(ins, rows, db.fault, old(db.tables));
      outcome == load.outcome && db.tables == load.tables && db.trace == old(db.trace) + load.trace
    ensures !db.connected && db.pending == []
  {
    var failure := SendBatches(db, ins, rows);
    if failure.Some? {
      db.Close();
      return Failed(DatabaseError(failure.value));
    }
    var ok := db.Execute(SetVariable(UniqueChecks, true));
    ok := db.Execute(SetVariable(ForeignKeyChecks, true));
    ok := db.Execute(SetVariable(Autocommit, true));
    db.Close();
    return Imported;
  }

  /** CREATE TABLE, the checks switched off, and the load, against the connection. */
  method CreateAndLoad(db: Database, table: string, names: seq<string>, defs: seq<ColumnDef>,
                       rows: seq<seq<string>>) returns (outcome: Outcome)
    requires db.connected && db.pending == [] && db.inserts == 0 && db.commits == 0
    requires table !in db.tables
    requires forall r | 0 <= r < |rows| :: |rows[r]| == |names|
    modifies db
    ensures var created := Created(table, names, defs, rows, db.fault, old(db.tables));
      outcome == created.outcome && db.tables == created.tables && db.trace == old(db.trace) + created.trace
    ensures !db.connected && db.pending == []
  {
    var ok := db.Execute(CreateTable(table, defs));
    if !ok {
      db.Close();
      return Failed(DatabaseError(CreatingTable));
    }
    ok := db.Execute(SetVariable(Autocommit, false));
    ok := db.Execute(SetVariable(UniqueChecks, false));
    ok := db.Execute(SetVariable(ForeignKeyChecks, false));
    ghost var head := [Execute(CreateTable(table, defs))] + DisableChecks;
    assert db.trace == old(db.trace) + head;
    outcome := LoadRows(db, Insert(table, names), rows);
    ghost var load := Loaded(Insert(table, names), rows, db.fault, old(db.tables)[table := []]);
    assert db.trace == old(db.trace) + (head + load.trace);
  }

  /** The connected part of a run against the connection. */
  method RunSession(db: Database, table: string, names: seq<string>, sheet: Sheet,
                    infer: seq<string> -> SqlType) returns (outcome: Outcome)
    requires sheet.Valid() && |names| == |sheet.headers|
    requires db.connected && db.pending == [] && db.inserts == 0 && db.commits == 0
    modifies db
    ensures var session := Session(table, names, Schema(sheet, names, infer), sheet.rows, db.fault, old(db.tables));
      outcome == session.outcome && db.tables == session.tables && db.trace == old(db.trace) + session.trace
    ensures !db.connected && db.pending == []
  {
    ghost var before := db.tables;
    var ok := db.Execute(DropTable(table));
    var schema := InferColumns(sheet, names, infer);
    ghost var session := Session(table, names, schema, sheet.rows, db.fault, before);
    if schema.Err? {
      db.Rollback();
      db.Close();
      return Failed(MissingColumn(schema.error));
    }
    ghost var created := Created(table, names, schema.value, sheet.rows, db.fault, db.tables);
    assert session == Run(created.outcome, created.tables, [Execute(DropTable(table))] + created.trace);
    outcome := CreateAndLoad(db, table, names, schema.value, sheet.rows);
    assert db.trace == old(db.trace) + ([Execute(DropTable(table))] + created.trace);
  }

  /** The import, step by step against the connection. It needs a server not yet
      connected to. */
  method Import(path: string, stem: string, sheet: Sheet, parses: DateParser, db: Database)
    returns (outcome: Outcome)
    requires sheet.Valid()
    requires db.trace == [] && db.pending == [] && !db.connected && db.inserts == 0 && db.commits == 0
    modifies db
    ensures Run(outcome, db.tables, db.trace) == ExpectedRun(path, stem, sheet, parses, db.fault, old(db.tables))
    ensures !db.connected && db.pending == []
  {
    if EngineFor(path).None? {
      return Failed(UnsupportedFile);
    }
    var names := HeaderNames(sheet.headers);
    var table := DeriveTableName(stem);
    var ok := db.Connect();
    if !ok {
      return Failed(DatabaseError(Connecting));
    }
    outcome := RunSession(db, table, names, sheet, Inference(parses));
  }
}
