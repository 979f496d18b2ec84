/** What a run of the importer guarantees, stated over `ExpectedRun`, the reference
    behaviour that `Ingest.Import` is proved to follow call for call. */
module RunProperties {
  import opened Wrappers
  import opened Text
  import opened ColumnType
  import opened TableName
  import opened Sql
  import opened Batching
  import opened Driver
  import opened Ingest

  /** The rows handed to the server by the executemany calls of a trace, in order. */
  function InsertedRows(trace: seq<Call>): seq<Row> {
    if trace == [] then []
    else
      var last := trace[|trace| - 1];
      InsertedRows(trace[..|trace| - 1]) + (if last.ExecuteMany? then last.rows else [])
  }

  lemma {:induction false} InsertedRowsConcat(a: seq<Call>, b: seq<Call>)
    ensures InsertedRows(a + b) == InsertedRows(a) + InsertedRows(b)
  {
    if b == [] {
      assert a + b == a;
    } else {
      var init := b[..|b| - 1];
      InsertedRowsConcat(a, init);
      assert (a + b)[..|a + b| - 1] == a + init;
    }
  }

  /** The calls of the first `k` batches alternate: executemany of batch `i / 2`, then
      its commit. */
  lemma {:induction false} LoadCallsLayout(ins: Insert, rows: seq<seq<string>>, k: nat)
    requires k <= BatchCount(|rows|)
    ensures |LoadCalls(ins, rows, k)| == 2 * k
    ensures forall i | 0 <= i < 2 * k ::
      LoadCalls(ins, rows, k)[i] == if i % 2 == 0 then ExecuteMany(ins, NullRows(Batch(rows, i / 2))) else Commit
  {
    if k > 0 {
      LoadCallsLayout(ins, rows, k - 1);
    }
  }

  /** They are executemany and commit calls only, with exactly `k` commits. */
  lemma {:induction false} LoadCallsKinds(ins: Insert, rows: seq<seq<string>>, k: nat)
    requires k <= BatchCount(|rows|)
    ensures forall c | c in LoadCalls(ins, rows, k) :: c.ExecuteMany? || c == Commit
    ensures multiset(LoadCalls(ins, rows, k))[Commit] == k
  {
    if k > 0 {
      LoadCallsKinds(ins, rows, k - 1);
      var pair := [ExecuteMany(ins, NullRows(Batch(rows, k - 1))), Commit];
      assert multiset(pair)[Commit] == 1;
    }
  }

  /** Together they send the first `k` batches, in order. */
  lemma {:induction false} LoadCallsRows(ins: Insert, rows: seq<seq<string>>, k: nat)
    requires k <= BatchCount(|rows|)
    ensures InsertedRows(LoadCalls(ins, rows, k)) == NullRows(Batches(rows, k))
  {
    if k > 0 {
      var prev := LoadCalls(ins, rows, k - 1);
      var batch := NullRows(Batch(rows, k - 1));
      var pair := [ExecuteMany(ins, batch), Commit];
      LoadCallsRows(ins, rows, k - 1);
      InsertedRowsConcat(prev, pair);
      var first := [pair[0]];
      assert pair[..1] == first && first[..0] == [];
      assert InsertedRows(first) == batch;
      assert InsertedRows(pair) == batch;
      NullRowsConcat(Batches(rows, k - 1), Batch(rows, k - 1));
    } else {
      assert NullRows(Batches(rows, 0)) == [];
    }
  }

  // ---------------------------------------------------------------------------
  // The load stage

  /** The load succeeds exactly when the fault does not fire during it; the target
      table then holds the first rows of the sheet, as many as the committed batches
      hold, and nothing else changes. */
  lemma LoadedTables(ins: Insert, rows: seq<seq<string>>, fault: Fault, before: map<string, seq<Row>>)
    ensures var n := BatchCount(|rows|);
      Loaded(ins, rows, fault, before).outcome == Imported <==> !FiresDuringLoad(fault, n)
    ensures var k := CommittedBatches(fault, BatchCount(|rows|));
      Loaded(ins, rows, fault, before).tables == before[ins.table := NullRows(rows[..RowsInBatches(k, |rows|)])]
  {
    var n := BatchCount(|rows|);
    BatchesArePrefix(rows, CommittedBatches(fault, n));
  }

  /** The calls of the load stage, in three named parts before the close. */
  lemma LoadedParts(ins: Insert, rows: seq<seq<string>>, fault: Fault, before: map<string, seq<Row>>)
    returns (calls: seq<Call>, refused: seq<Call>, restore: seq<Call>)
    ensures Loaded(ins, rows, fault, before).trace == calls + refused + restore + [Close]
    ensures calls == LoadCalls(ins, rows, CommittedBatches(fault, BatchCount(|rows|)))
    ensures Close !in calls && Rollback !in calls && forall c | c in calls :: !c.Execute?
    ensures multiset(calls)[Commit] == CommittedBatches(fault, BatchCount(|rows|))
    ensures FiresDuringLoad(fault, BatchCount(|rows|)) ==>
      && refused == [ExecuteMany(ins, NullRows(Batch(rows, fault.batch)))] + (if fault.RejectCommit? then [Commit] else [])
      && restore == []
    ensures !FiresDuringLoad(fault, BatchCount(|rows|)) ==> refused == [] && restore == RestoreChecks
  {
    var n := BatchCount(|rows|);
    var k := CommittedBatches(fault, n);
    calls := LoadCalls(ins, rows, k);
    refused := RefusedCalls(ins, rows, fault);
    restore := if StopsAt(fault, n).Some? then [] else RestoreChecks;
    LoadCallsKinds(ins, rows, k);
  }

  /** The load stage closes the connection once, as its last call, and never rolls
      back. */
  lemma LoadedCloses(ins: Insert, rows: seq<seq<string>>, fault: Fault, before: map<string, seq<Row>>)
    ensures var trace := Loaded(ins, rows, fault, before).trace;
      && trace != [] && trace[|trace| - 1] == Close && Close !in trace[..|trace| - 1]
      && Rollback !in trace
  {
    var calls, refused, restore := LoadedParts(ins, rows, fault, before);
    assert Close !in refused && Rollback !in refused;
    assert Close !in restore && Rollback !in restore;
    ClosedOnceAtEnd(calls + refused + restore);
  }

  /** A trace built as `calls + [Close]` without a close or a rollback in `calls`
      ends with its only close and holds no rollback. */
  lemma ClosedOnceAtEnd(calls: seq<Call>)
    requires Close !in calls && Rollback !in calls
    ensures var trace := calls + [Close];
      && trace != [] && trace[|trace| - 1] == Close && Close !in trace[..|trace| - 1]
      && Rollback !in trace
  {
    assert (calls + [Close])[..|calls|] == calls;
  }

  /** A statement that switches a check back on. */
  predicate SwitchesOn(c: Call) {
    c.Execute? && c.statement.SetVariable? && c.statement.on
  }

  /** The only statements it runs switch checks back on; when every batch went through
      it ends with the three of them and the close, and otherwise it runs none. */
  lemma LoadedRestores(ins: Insert, rows: seq<seq<string>>, fault: Fault, before: map<string, seq<Row>>)
    ensures var trace := Loaded(ins, rows, fault, before).trace;
      && (forall c | c in trace && c.Execute? :: SwitchesOn(c))
      && (!FiresDuringLoad(fault, BatchCount(|rows|)) ==> |trace| >= 4 && trace[|trace| - 4..] == RestoreChecks + [Close])
      && (FiresDuringLoad(fault, BatchCount(|rows|)) ==> forall c | c in trace :: !c.Execute?)
  {
    var calls, refused, restore := LoadedParts(ins, rows, fault, before);
    var fires := FiresDuringLoad(fault, BatchCount(|rows|));
    if fires {
      assert forall c | c in refused :: !c.Execute?;
    }
    PartsRestore(calls, refused, restore, fires);
  }

  /** `LoadedRestores` for the parts `LoadedParts` names. */
  lemma PartsRestore(calls: seq<Call>, refused: seq<Call>, restore: seq<Call>, fires: bool)
    requires forall c | c in calls :: !c.Execute?
    requires fires ==> (forall c | c in refused :: !c.Execute?) && restore == []
    requires !fires ==> refused == [] && restore == RestoreChecks
    ensures var trace := calls + refused + restore + [Close];
      && (forall c | c in trace && c.Execute? :: SwitchesOn(c))
      && (!fires ==> |trace| >= 4 && trace[|trace| - 4..] == RestoreChecks + [Close])
      && (fires ==> forall c | c in trace :: !c.Execute?)
  {
    var trace := calls + refused + restore + [Close];
    RestoreChecksAreStatements();
    if !fires {
      assert trace == calls + (RestoreChecks + [Close]);
      assert forall c | c in restore :: SwitchesOn(c);
    }
  }

  /** It commits once per committed batch, plus once more when the refused call is a
      commit. */
  lemma LoadedCommits(ins: Insert, rows: seq<seq<string>>, fault: Fault, before: map<string, seq<Row>>)
    ensures var n := BatchCount(|rows|);
      var k := CommittedBatches(fault, n);
      multiset(Loaded(ins, rows, fault, before).trace)[Commit]
        == if fault.RejectCommit? && FiresDuringLoad(fault, n) then k + 1 else k
  {
    var n := BatchCount(|rows|);
    var calls, refused, restore := LoadedParts(ins, rows, fault, before);
    var extra := if fault.RejectCommit? && FiresDuringLoad(fault, n) then 1 else 0;
    if FiresDuringLoad(fault, n) {
      assert multiset(refused)[Commit] == extra;
    }
    RestoreChecksAreStatements();
    PartsCommits(calls, refused, restore, extra);
  }

  /** `LoadedCommits` for the parts `LoadedParts` names. */
  lemma PartsCommits(calls: seq<Call>, refused: seq<Call>, restore: seq<Call>, extra: nat)
    requires multiset(refused)[Commit] == extra
    requires forall i | 0 <= i < |restore| :: restore[i].Execute?
    ensures multiset(calls + refused + restore + [Close])[Commit] == multiset(calls)[Commit] + extra
  {
    assert Commit !in restore;
    assert multiset(calls + refused + restore + [Close])
      == multiset(calls) + multiset(refused) + multiset(restore) + multiset{Close};
  }

  /** A trace without executemany calls sends no rows. */
  lemma {:induction false} InsertedRowsNone(trace: seq<Call>)
    requires forall i | 0 <= i < |trace| :: !trace[i].ExecuteMany?
    ensures InsertedRows(trace) == []
  {
    if trace != [] {
      InsertedRowsNone(trace[..|trace| - 1]);
    }
  }

  /** A single executemany call sends its rows. */
  lemma InsertedRowsOne(c: Call)
    requires c.ExecuteMany?
    ensures InsertedRows([c]) == c.rows
  {
    assert [c][..0] == [];
  }

  /** The rows sent by `calls + refused + restore + [Close]` when `restore` sends
      none. */
  lemma InsertedRowsInParts(calls: seq<Call>, refused: seq<Call>, restore: seq<Call>)
    requires forall i | 0 <= i < |restore| :: !restore[i].ExecuteMany?
    ensures InsertedRows(calls + refused + restore + [Close]) == InsertedRows(calls) + InsertedRows(refused)
  {
    InsertedRowsConcat(calls, refused);
    InsertedRowsConcat(calls + refused, restore);
    InsertedRowsConcat(calls + refused + restore, [Close]);
    InsertedRowsNone([Close]);
    InsertedRowsNone(restore);
  }

  /** The rows sent by the refused calls: the batch of the refused executemany. */
  lemma InsertedRowsRefused(ins: Insert, batch: seq<Row>, tail: seq<Call>)
    requires forall i | 0 <= i < |tail| :: !tail[i].ExecuteMany?
    ensures InsertedRows([ExecuteMany(ins, batch)] + tail) == batch
  {
    InsertedRowsOne(ExecuteMany(ins, batch));
    InsertedRowsNone(tail);
    InsertedRowsConcat([ExecuteMany(ins, batch)], tail);
  }

  /** The three closing SET statements are plain statements. */
  lemma RestoreChecksAreStatements()
    ensures |RestoreChecks| == 3
    ensures forall i | 0 <= i < |RestoreChecks| :: RestoreChecks[i].Execute? && SwitchesOn(RestoreChecks[i])
  {
  }

  /** The rows the load stage sends: the committed batches, then the batch of the
      refused call if there is one. */
  lemma LoadedSends(ins: Insert, rows: seq<seq<string>>, fault: Fault, before: map<string, seq<Row>>)
    ensures var n := BatchCount(|rows|);
      InsertedRows(Loaded(ins, rows, fault, before).trace)
        == NullRows(Batches(rows, CommittedBatches(fault, n)))
           + (if FiresDuringLoad(fault, n) then NullRows(Batch(rows, fault.batch)) else [])
  {
    var calls, refused, restore := LoadedParts(ins, rows, fault, before);
    PartsSend(ins, rows, fault, calls, refused, restore);
  }

  /** `LoadedSends` for the parts `LoadedParts` names. */
  lemma PartsSend(ins: Insert, rows: seq<seq<string>>, fault: Fault,
                  calls: seq<Call>, refused: seq<Call>, restore: seq<Call>)
    requires calls == LoadCalls(ins, rows, CommittedBatches(fault, BatchCount(|rows|)))
    requires FiresDuringLoad(fault, BatchCount(|rows|)) ==>
      && refused == [ExecuteMany(ins, NullRows(Batch(rows, fault.batch)))] + (if fault.RejectCommit? then [Commit] else [])
      && restore == []
    requires !FiresDuringLoad(fault, BatchCount(|rows|)) ==> refused == [] && restore == RestoreChecks
    ensures var n := BatchCount(|rows|);
      InsertedRows(calls + refused + restore + [Close])
        == NullRows(Batches(rows, CommittedBatches(fault, n)))
           + (if FiresDuringLoad(fault, n) then NullRows(Batch(rows, fault.batch)) else [])
  {
    var n := BatchCount(|rows|);
    LoadCallsRows(ins, rows, CommittedBatches(fault, n));
    if FiresDuringLoad(fault, n) {
      InsertedRowsRefused(ins, NullRows(Batch(rows, fault.batch)), if fault.RejectCommit? then [Commit] else []);
    } else {
      RestoreChecksAreStatements();
    }
    InsertedRowsInParts(calls, refused, restore);
  }

  /** Every executemany of the first `k` batches uses `ins`. */
  lemma {:induction false} LoadCallsInsert(ins: Insert, rows: seq<seq<string>>, k: nat)
    requires k <= BatchCount(|rows|)
    ensures forall c | c in LoadCalls(ins, rows, k) && c.ExecuteMany? :: c.insert == ins
  {
    if k > 0 {
      LoadCallsInsert(ins, rows, k - 1);
    }
  }

  /** Every executemany of the load stage uses the same INSERT. */
  lemma LoadedInsert(ins: Insert, rows: seq<seq<string>>, fault: Fault, before: map<string, seq<Row>>)
    ensures forall c | c in Loaded(ins, rows, fault, before).trace && c.ExecuteMany? :: c.insert == ins
  {
    var calls, refused, restore := LoadedParts(ins, rows, fault, before);
    LoadCallsInsert(ins, rows, CommittedBatches(fault, BatchCount(|rows|)));
    assert forall c | c in refused && c.ExecuteMany? :: c.insert == ins;
    RestoreChecksAreStatements();
    PartsInsert(ins, calls, refused, restore);
  }

  /** `LoadedInsert` for the parts `LoadedParts` names. */
  lemma PartsInsert(ins: Insert, calls: seq<Call>, refused: seq<Call>, restore: seq<Call>)
    requires forall c | c in calls && c.ExecuteMany? :: c.insert == ins
    requires forall c | c in refused && c.ExecuteMany? :: c.insert == ins
    requires forall i | 0 <= i < |restore| :: restore[i].Execute?
    ensures forall c | c in calls + refused + restore + [Close] && c.ExecuteMany? :: c.insert == ins
  {
  }

  // ---------------------------------------------------------------------------
  // The connected part of a run, for any outcome of the column loop

  /** The run succeeds exactly when the columns were all found, the CREATE went
      through and the fault does not fire during the load; each failure names the
      step that failed. */
  lemma SessionOutcome(table: string, names: seq<string>, schema: Result<seq<ColumnDef>, string>,
                       rows: seq<seq<string>>, fault: Fault, before: map<string, seq<Row>>)
    ensures var run := Session(table, names, schema, rows, fault, before);
      var n := BatchCount(|rows|);
      && (run.outcome == Imported <==> schema.Ok? && fault != RejectCreate && !FiresDuringLoad(fault, n))
      && (schema.Err? ==> run.outcome == Failed(MissingColumn(schema.error)))
      && (schema.Ok? && fault == RejectCreate ==> run.outcome == Failed(DatabaseError(CreatingTable)))
      && (schema.Ok? && fault != RejectCreate && FiresDuringLoad(fault, n) ==>
            run.outcome == Failed(DatabaseError(StopsAt(fault, n).value)))
  {
    if schema.Ok? && fault != RejectCreate {
      LoadedTables(Insert(table, names), rows, fault, (before - {table})[table := []]);
    }
  }

  /** The run leaves every other table alone; the target table exists afterwards
      exactly when it was created, and then holds the rows of the committed
      batches. */
  lemma SessionTables(table: string, names: seq<string>, schema: Result<seq<ColumnDef>, string>,
                      rows: seq<seq<string>>, fault: Fault, before: map<string, seq<Row>>)
    ensures var run := Session(table, names, schema, rows, fault, before);
      var k := CommittedBatches(fault, BatchCount(|rows|));
      && run.tables - {table} == before - {table}
      && (table in run.tables <==> schema.Ok? && fault != RejectCreate)
      && (table in run.tables ==> run.tables[table] == NullRows(rows[..RowsInBatches(k, |rows|)]))
  {
    var dropped := before - {table};
    if schema.Ok? && fault != RejectCreate {
      var k := CommittedBatches(fault, BatchCount(|rows|));
      var created := dropped[table := []];
      LoadedTables(Insert(table, names), rows, fault, created);
      assert created[table := NullRows(rows[..RowsInBatches(k, |rows|)])] - {table} == dropped;
    }
  }

  /** The calls of a created table: the DROP, the CREATE, the three SETs, then the
      load, which ends with its only close and never rolls back. */
  lemma CreatedTraceShape(drop: Call, create: Call, load: seq<Call>)
    requires drop.Execute? && create.Execute?
    requires load != [] && load[|load| - 1] == Close && Close !in load[..|load| - 1] && Rollback !in load
    ensures var trace := [drop] + ([create] + DisableChecks + load);
      && trace != [] && trace[0] == drop
      && trace[|trace| - 1] == Close && Close !in trace[..|trace| - 1]
      && Rollback !in trace
      && |trace| >= 5 && trace[1] == create && trace[2..5] == DisableChecks
  {
    var head := [drop, create] + DisableChecks;
    DisableChecksAreStatements();
    assert Close !in head && Rollback !in head;
    assert [drop] + ([create] + DisableChecks + load) == head + load;
    assert (head + load)[..|head + load| - 1] == head + load[..|load| - 1];
  }

  /** The SET statements that open the load switch checks off. */
  lemma DisableChecksAreStatements()
    ensures |DisableChecks| == 3
    ensures forall i | 0 <= i < |DisableChecks| :: DisableChecks[i].Execute? && !SwitchesOn(DisableChecks[i])
  {
  }

  /** The connected part starts with the DROP and ends with its only close; it rolls
      back exactly when a column was missing. */
  lemma SessionCloses(table: string, names: seq<string>, schema: Result<seq<ColumnDef>, string>,
                      rows: seq<seq<string>>, fault: Fault, before: map<string, seq<Row>>)
    ensures var trace := Session(table, names, schema, rows, fault, before).trace;
      && trace != [] && trace[0] == Execute(DropTable(table))
      && trace[|trace| - 1] == Close && Close !in trace[..|trace| - 1]
      && (Rollback in trace <==> schema.Err?)
  {
    var drop := Execute(DropTable(table));
    if schema.Err? {
      assert [drop, Rollback, Close][..2] == [drop, Rollback];
    } else if fault == RejectCreate {
      ClosedOnceAtEnd([drop, Execute(CreateTable(table, schema.value))]);
    } else {
      LoadingCloses(table, names, schema.value, rows, fault, before);
    }
  }

  /** `SessionCloses` when the table is created. */
  lemma LoadingCloses(table: string, names: seq<string>, defs: seq<ColumnDef>,
                      rows: seq<seq<string>>, fault: Fault, before: map<string, seq<Row>>)
    requires fault != RejectCreate
    ensures var trace := Session(table, names, Ok(defs), rows, fault, before).trace;
      && trace != [] && trace[0] == Execute(DropTable(table))
      && trace[|trace| - 1] == Close && Close !in trace[..|trace| - 1]
      && Rollback !in trace
  {
    var created := (before - {table})[table := []];
    var load := Loaded(Insert(table, names), rows, fault, created);
    LoadedCloses(Insert(table, names), rows, fault, created);
    CreatedTraceShape(Execute(DropTable(table)), Execute(CreateTable(table, defs)), load.trace);
  }

  /** Once the columns are known the CREATE follows the DROP, and once the CREATE
      went through the three SETs switch the checks off. */
  lemma SessionOpens(table: string, names: seq<string>, schema: Result<seq<ColumnDef>, string>,
                     rows: seq<seq<string>>, fault: Fault, before: map<string, seq<Row>>)
    ensures var trace := Session(table, names, schema, rows, fault, before).trace;
      && (schema.Ok? ==> |trace| >= 2 && trace[1] == Execute(CreateTable(table, schema.value)))
      && (schema.Ok? && fault != RejectCreate ==> |trace| >= 5 && trace[2..5] == DisableChecks)
  {
    if schema.Ok? && fault != RejectCreate {
      var load := Loaded(Insert(table, names), rows, fault, (before - {table})[table := []]);
      LoadedCloses(Insert(table, names), rows, fault, (before - {table})[table := []]);
      CreatedTraceShape(Execute(DropTable(table)), Execute(CreateTable(table, schema.value)), load.trace);
    }
  }

  /** The statements before the load switch nothing back on, so the checks end up
      restored exactly when the load restores them. */
  lemma CreatedRestores(drop: Call, create: Call, load: seq<Call>, imported: bool)
    requires drop.Execute? && !SwitchesOn(drop) && create.Execute? && !SwitchesOn(create)
    requires imported ==> |load| >= 4 && load[|load| - 4..] == RestoreChecks + [Close]
    requires !imported ==> forall c | c in load :: !c.Execute?
    ensures var trace := [drop] + ([create] + DisableChecks + load);
      && (imported ==> |trace| >= 4 && trace[|trace| - 4..] == RestoreChecks + [Close])
      && (!imported ==> forall c | c in trace :: !SwitchesOn(c))
  {
    var head := [drop, create] + DisableChecks;
    var trace := [drop] + ([create] + DisableChecks + load);
    assert trace == head + load;
    DisableChecksAreStatements();
    if imported {
      assert trace[|trace| - 4..] == load[|load| - 4..];
    } else {
      forall c | c in trace ensures !SwitchesOn(c) {
        if c in head {
          var i :| 0 <= i < |head| && head[i] == c;
          if i >= 2 {
            assert c == DisableChecks[i - 2];
          }
        } else {
          assert c in load;
        }
      }
    }
  }

  /** The checks are switched back on, as the last statements before the close,
      exactly when the run succeeds; a failed run leaves them off. */
  lemma SessionRestores(table: string, names: seq<string>, schema: Result<seq<ColumnDef>, string>,
                        rows: seq<seq<string>>, fault: Fault, before: map<string, seq<Row>>)
    ensures var run := Session(table, names, schema, rows, fault, before);
      && (run.outcome == Imported ==> |run.trace| >= 4 && run.trace[|run.trace| - 4..] == RestoreChecks + [Close])
      && (run.outcome != Imported ==> forall c | c in run.trace :: !SwitchesOn(c))
  {
    if schema.Ok? && fault != RejectCreate {
      var ins := Insert(table, names);
      var created := (before - {table})[table := []];
      var load := Loaded(ins, rows, fault, created);
      LoadedTables(ins, rows, fault, created);
      LoadedRestores(ins, rows, fault, created);
      CreatedRestores(Execute(DropTable(table)), Execute(CreateTable(table, schema.value)), load.trace,
                      load.outcome == Imported);
    }
  }

  /** Statements run before the load commit nothing and send no rows. */
  lemma StatementsFirst(head: seq<Call>, load: seq<Call>)
    requires forall i | 0 <= i < |head| :: head[i].Execute?
    ensures multiset(head + load)[Commit] == multiset(load)[Commit]
    ensures InsertedRows(head + load) == InsertedRows(load)
    ensures forall c | c in head + load && c.ExecuteMany? :: c in load
  {
    assert Commit !in head;
    assert multiset(head + load) == multiset(head) + multiset(load);
    InsertedRowsNone(head);
    InsertedRowsConcat(head, load);
  }

  /** The calls of a created table before its load: the DROP, the CREATE and the
      three SETs. */
  lemma CreatedHead(drop: Call, create: Call, load: seq<Call>)
    requires drop.Execute? && create.Execute?
    ensures var head := [drop, create] + DisableChecks;
      && [drop] + ([create] + DisableChecks + load) == head + load
      && forall i | 0 <= i < |head| :: head[i].Execute?
  {
    DisableChecksAreStatements();
  }

  /** A run commits once per committed batch, plus once for a refused commit, and
      not at all when it never reaches the load. */
  lemma SessionCommits(table: string, names: seq<string>, schema: Result<seq<ColumnDef>, string>,
                       rows: seq<seq<string>>, fault: Fault, before: map<string, seq<Row>>)
    ensures var n := BatchCount(|rows|);
      var k := CommittedBatches(fault, n);
      multiset(Session(table, names, schema, rows, fault, before).trace)[Commit]
        == if schema.Err? || fault == RejectCreate then 0
           else if fault.RejectCommit? && FiresDuringLoad(fault, n) then k + 1
           else k
  {
    if schema.Ok? && fault != RejectCreate {
      var ins := Insert(table, names);
      var created := (before - {table})[table := []];
      var load := Loaded(ins, rows, fault, created).trace;
      LoadedCommits(ins, rows, fault, created);
      CreatedHead(Execute(DropTable(table)), Execute(CreateTable(table, schema.value)), load);
      StatementsFirst([Execute(DropTable(table)), Execute(CreateTable(table, schema.value))] + DisableChecks, load);
    }
  }

  /** A run sends the committed batches, and the refused one if a call was refused;
      it sends nothing when it never reaches the load. */
  lemma SessionSends(table: string, names: seq<string>, schema: Result<seq<ColumnDef>, string>,
                     rows: seq<seq<string>>, fault: Fault, before: map<string, seq<Row>>)
    ensures schema.Err? || fault == RejectCreate ==>
      InsertedRows(Session(table, names, schema, rows, fault, before).trace) == []
    ensures schema.Ok? && fault != RejectCreate ==>
      var n := BatchCount(|rows|);
      InsertedRows(Session(table, names, schema, rows, fault, before).trace)
        == NullRows(Batches(rows, CommittedBatches(fault, n)))
           + (if FiresDuringLoad(fault, n) then NullRows(Batch(rows, fault.batch)) else [])
  {
    if schema.Ok? && fault != RejectCreate {
      LoadingSends(table, names, schema.value, rows, fault, before);
    } else {
      var drop := Execute(DropTable(table));
      var trace := Session(table, names, schema, rows, fault, before).trace;
      assert trace == [drop, if schema.Err? then Rollback else Execute(CreateTable(table, schema.value)), Close];
      InsertedRowsNone(trace);
    }
  }

  /** `SessionSends` when the table is created. */
  lemma LoadingSends(table: string, names: seq<string>, defs: seq<ColumnDef>,
                     rows: seq<seq<string>>, fault: Fault, before: map<string, seq<Row>>)
    requires fault != RejectCreate
    ensures var n := BatchCount(|rows|);
      InsertedRows(Session(table, names, Ok(defs), rows, fault, before).trace)
        == NullRows(Batches(rows, CommittedBatches(fault, n)))
           + (if FiresDuringLoad(fault, n) then NullRows(Batch(rows, fault.batch)) else [])
  {
    var drop := Execute(DropTable(table));
    var create := Execute(CreateTable(table, defs));
    var ins := Insert(table, names);
    var created := (before - {table})[table := []];
    var load := Loaded(ins, rows, fault, created).trace;
    LoadedSends(ins, rows, fault, created);
    CreatedHead(drop, create, load);
    StatementsFirst([drop, create] + DisableChecks, load);
  }

  /** Every executemany of a run uses the same INSERT, naming the stripped header
      names. */
  lemma SessionInserts(table: string, names: seq<string>, schema: Result<seq<ColumnDef>, string>,
                       rows: seq<seq<string>>, fault: Fault, before: map<string, seq<Row>>)
    ensures forall c | c in Session(table, names, schema, rows, fault, before).trace && c.ExecuteMany? ::
      c.insert == Insert(table, names)
  {
    if schema.Ok? && fault != RejectCreate {
      var drop := Execute(DropTable(table));
      var create := Execute(CreateTable(table, schema.value));
      var ins := Insert(table, names);
      var created := (before - {table})[table := []];
      var load := Loaded(ins, rows, fault, created).trace;
      LoadedInsert(ins, rows, fault, created);
      CreatedHead(drop, create, load);
      StatementsFirst([drop, create] + DisableChecks, load);
    }
  }

  // ---------------------------------------------------------------------------
  // Whole runs

  /** The run gets as far as the database: the file has a supported extension and the
      server accepts the connection. */
  predicate Connects(path: string, fault: Fault) {
    EngineFor(path).Some? && fault != RefuseConnection
  }

  /** Every stripped header is itself one of the sheet's headers, so `df[name]` finds
      a column for each. */
  predicate HeadersFound(sheet: Sheet) {
    var names := HeaderNames(sheet.headers);
    forall j | 0 <= j < |names| :: names[j] in sheet.headers
  }

  /** The column loop completes exactly when every stripped header is a header. */
  lemma SchemaOkIffHeadersFound(sheet: Sheet, infer: seq<string> -> SqlType)
    requires sheet.Valid()
    ensures Schema(sheet, HeaderNames(sheet.headers), infer).Ok? <==> HeadersFound(sheet)
  {
    var names := HeaderNames(sheet.headers);
    if HeadersFound(sheet) {
      SchemaSucceeds(sheet, names, infer);
    } else if Schema(sheet, names, infer).Ok? {
      SchemaShape(sheet, names, infer);
    }
  }

  /** A run imports the sheet exactly when the file is supported, the server accepts
      the connection, every stripped header is found, the CREATE goes through and no
      batch is refused. */
  lemma ImportSucceedsExactly(path: string, stem: string, sheet: Sheet, parses: DateParser,
                              fault: Fault, before: map<string, seq<Row>>)
    requires sheet.Valid()
    ensures ExpectedRun(path, stem, sheet, parses, fault, before).outcome == Imported
      <==> Connects(path, fault) && HeadersFound(sheet) && fault != RejectCreate
           && !FiresDuringLoad(fault, BatchCount(|sheet.rows|))
  {
    var names := HeaderNames(sheet.headers);
    var schema := Schema(sheet, names, Inference(parses));
    SchemaOkIffHeadersFound(sheet, Inference(parses));
    SessionOutcome(DeriveTableName(stem), names, schema, sheet.rows, fault, before);
  }

  /** Each failed run names what failed: the file type, the connection, the first
      stripped header that is not a header, the CREATE, or the refused batch. */
  lemma ImportFailureReasons(path: string, stem: string, sheet: Sheet, parses: DateParser,
                             fault: Fault, before: map<string, seq<Row>>)
    requires sheet.Valid()
    ensures var outcome := ExpectedRun(path, stem, sheet, parses, fault, before).outcome;
      && (EngineFor(path).None? ==> outcome == Failed(UnsupportedFile))
      && (EngineFor(path).Some? && fault == RefuseConnection ==> outcome == Failed(DatabaseError(Connecting)))
      && (Connects(path, fault) && !HeadersFound(sheet) ==>
            outcome.Failed? && outcome.failure.MissingColumn?
            && exists j | 0 <= j < |sheet.headers| ::
                 && outcome.failure.name == Strip(sheet.headers[j]) && outcome.failure.name !in sheet.headers
                 && forall i | 0 <= i < j :: Strip(sheet.headers[i]) in sheet.headers)
      && (Connects(path, fault) && HeadersFound(sheet) && fault == RejectCreate ==>
            outcome == Failed(DatabaseError(CreatingTable)))
      && (Connects(path, fault) && HeadersFound(sheet) && fault.RejectInsert? && fault.batch < BatchCount(|sheet.rows|)
          ==> outcome == Failed(DatabaseError(Inserting(fault.batch))))
      && (Connects(path, fault) && HeadersFound(sheet) && fault.RejectCommit? && fault.batch < BatchCount(|sheet.rows|)
          ==> outcome == Failed(DatabaseError(Committing(fault.batch))))
  {
    var names := HeaderNames(sheet.headers);
    var schema := Schema(sheet, names, Inference(parses));
    SchemaOkIffHeadersFound(sheet, Inference(parses));
    SessionOutcome(DeriveTableName(stem), names, schema, sheet.rows, fault, before);
    if schema.Err? {
      SchemaFailsAtFirstMissing(sheet, names, Inference(parses));
    }
  }

  /** A run changes no table but its own. Its table is there afterwards exactly when
      the run created it, and then holds the rows of the committed batches, blank
      cells as NULL. A run that never connects changes nothing. */
  lemma ImportTables(path: string, stem: string, sheet: Sheet, parses: DateParser,
                     fault: Fault, before: map<string, seq<Row>>)
    requires sheet.Valid()
    ensures !Connects(path, fault) ==> ExpectedRun(path, stem, sheet, parses, fault, before).tables == before
    ensures var tables := ExpectedRun(path, stem, sheet, parses, fault, before).tables;
      tables - {DeriveTableName(stem)} == before - {DeriveTableName(stem)}
    ensures Connects(path, fault) ==>
      var tables := ExpectedRun(path, stem, sheet, parses, fault, before).tables;
      DeriveTableName(stem) in tables <==> HeadersFound(sheet) && fault != RejectCreate
    ensures Connects(path, fault) && HeadersFound(sheet) && fault != RejectCreate ==>
      var tables := ExpectedRun(path, stem, sheet, parses, fault, before).tables;
      var k := CommittedBatches(fault, BatchCount(|sheet.rows|));
      && DeriveTableName(stem) in tables
      && tables[DeriveTableName(stem)] == NullRows(sheet.rows[..RowsInBatches(k, |sheet.rows|)])
  {
    if Connects(path, fault) {
      var names := HeaderNames(sheet.headers);
      var schema := Schema(sheet, names, Inference(parses));
      SchemaOkIffHeadersFound(sheet, Inference(parses));
      SessionTables(DeriveTableName(stem), names, schema, sheet.rows, fault, before);
    }
  }

  /** A map that agrees with `before` off key `t` and holds `v` at `t` is
      `before[t := v]`. */
  lemma MapUpdated(m: map<string, seq<Row>>, before: map<string, seq<Row>>, t: string, v: seq<Row>)
    requires m - {t} == before - {t} && t in m && m[t] == v
    ensures m == before[t := v]
  {
    forall u ensures u in m <==> u in before[t := v] {
      if u != t {
        assert u in m <==> u in m - {t};
        assert u in before <==> u in before - {t};
      }
    }
    forall u | u in m ensures m[u] == before[t := v][u] {
      if u != t {
        assert m[u] == (m - {t})[u];
      }
    }
  }

  /** A table holding all the batches is the whole sheet. */
  lemma AllBatchesUpdate(tables: map<string, seq<Row>>, before: map<string, seq<Row>>, t: string,
                         rows: seq<seq<string>>)
    requires tables - {t} == before - {t} && t in tables
    requires tables[t] == NullRows(rows[..RowsInBatches(BatchCount(|rows|), |rows|)])
    ensures tables == before[t := NullRows(rows)]
  {
    BatchCountIsCeiling(|rows|);
    assert RowsInBatches(BatchCount(|rows|), |rows|) == |rows|;
    assert rows[..|rows|] == rows;
    MapUpdated(tables, before, t, NullRows(rows));
  }

  /** A successful run replaces its table by the whole sheet, every blank cell as
      NULL, and changes nothing else. */
  lemma ImportedHoldsSheet(path: string, stem: string, sheet: Sheet, parses: DateParser,
                           fault: Fault, before: map<string, seq<Row>>)
    requires sheet.Valid()
    ensures var run := ExpectedRun(path, stem, sheet, parses, fault, before);
      run.outcome == Imported ==> run.tables == before[DeriveTableName(stem) := NullRows(sheet.rows)]
  {
    var run := ExpectedRun(path, stem, sheet, parses, fault, before);
    if run.outcome == Imported {
      ImportSucceedsExactly(path, stem, sheet, parses, fault, before);
      ImportTables(path, stem, sheet, parses, fault, before);
      AllBatchesUpdate(run.tables, before, DeriveTableName(stem), sheet.rows);
    }
  }

  /** Reading a successful run's table back gives the sheet's text: NULL reads as the
      blank cell it came from, every other cell as its own text. */
  lemma ImportedReadsBack(path: string, stem: string, sheet: Sheet, parses: DateParser,
                          fault: Fault, before: map<string, seq<Row>>)
    requires sheet.Valid()
    ensures var run := ExpectedRun(path, stem, sheet, parses, fault, before);
      var table := DeriveTableName(stem);
      run.outcome == Imported ==>
        && table in run.tables && |run.tables[table]| == |sheet.rows|
        && forall r | 0 <= r < |sheet.rows| ::
             && |run.tables[table][r]| == |sheet.headers|
             && forall j | 0 <= j < |sheet.headers| :: CellText(run.tables[table][r][j]) == sheet.rows[r][j]
  {
    var run := ExpectedRun(path, stem, sheet, parses, fault, before);
    if run.outcome == Imported {
      ImportedHoldsSheet(path, stem, sheet, parses, fault, before);
      var stored := NullRows(sheet.rows);
      assert run.tables[DeriveTableName(stem)] == stored;
      forall r | 0 <= r < |sheet.rows|
        ensures |stored[r]| == |sheet.headers|
        ensures forall j | 0 <= j < |sheet.headers| :: CellText(stored[r][j]) == sheet.rows[r][j]
      {
        NullRowFaithful(sheet.rows[r]);
      }
    }
  }

  /** A refused batch leaves the table with the batches before it: the first
      `5000 * b` rows for batch `b`. */
  lemma FailedLoadKeepsBatches(path: string, stem: string, sheet: Sheet, parses: DateParser,
                               fault: Fault, before: map<string, seq<Row>>)
    requires sheet.Valid()
    ensures var run := ExpectedRun(path, stem, sheet, parses, fault, before);
      var table := DeriveTableName(stem);
      Connects(path, fault) && HeadersFound(sheet) && FiresDuringLoad(fault, BatchCount(|sheet.rows|)) ==>
        && fault.batch * BatchSize < |sheet.rows|
        && table in run.tables
        && run.tables[table] == NullRows(sheet.rows[..fault.batch * BatchSize])
  {
    var n := BatchCount(|sheet.rows|);
    if Connects(path, fault) && HeadersFound(sheet) && FiresDuringLoad(fault, n) {
      ImportTables(path, stem, sheet, parses, fault, before);
      BatchCountIsCeiling(|sheet.rows|);
      assert fault.batch * BatchSize <= (n - 1) * BatchSize;
      assert RowsInBatches(fault.batch, |sheet.rows|) == fault.batch * BatchSize;
    }
  }

  /** A run makes calls on the connection exactly when it connects. */
  lemma ImportCallsOnlyWhenConnected(path: string, stem: string, sheet: Sheet, parses: DateParser,
                                     fault: Fault, before: map<string, seq<Row>>)
    requires sheet.Valid()
    ensures ExpectedRun(path, stem, sheet, parses, fault, before).trace == [] <==> !Connects(path, fault)
  {
    if Connects(path, fault) {
      var names := HeaderNames(sheet.headers);
      SessionCloses(DeriveTableName(stem), names, Schema(sheet, names, Inference(parses)), sheet.rows, fault, before);
    }
  }

  /** A run that connects starts with the DROP and closes the connection once, as
      its last call. */
  lemma ImportClosesOnce(path: string, stem: string, sheet: Sheet, parses: DateParser,
                         fault: Fault, before: map<string, seq<Row>>)
    requires sheet.Valid() && Connects(path, fault)
    ensures var trace := ExpectedRun(path, stem, sheet, parses, fault, before).trace;
      && trace != [] && trace[0] == Execute(DropTable(DeriveTableName(stem)))
      && trace[|trace| - 1] == Close && Close !in trace[..|trace| - 1]
  {
    var names := HeaderNames(sheet.headers);
    SessionCloses(DeriveTableName(stem), names, Schema(sheet, names, Inference(parses)), sheet.rows, fault, before);
  }

  /** A run rolls back exactly when it connects and a stripped header is not
      found. */
  lemma ImportRollsBack(path: string, stem: string, sheet: Sheet, parses: DateParser,
                        fault: Fault, before: map<string, seq<Row>>)
    requires sheet.Valid()
    ensures Rollback in ExpectedRun(path, stem, sheet, parses, fault, before).trace
      <==> Connects(path, fault) && !HeadersFound(sheet)
  {
    if Connects(path, fault) {
      var names := HeaderNames(sheet.headers);
      SchemaOkIffHeadersFound(sheet, Inference(parses));
      SessionCloses(DeriveTableName(stem), names, Schema(sheet, names, Inference(parses)), sheet.rows, fault, before);
    }
  }

  /** The CREATE follows the DROP once every header is found, with one column per
      header, and the three SETs switching the checks off follow a CREATE that went
      through. */
  lemma ImportCreates(path: string, stem: string, sheet: Sheet, parses: DateParser,
                      fault: Fault, before: map<string, seq<Row>>)
    requires sheet.Valid()
    ensures Connects(path, fault) && HeadersFound(sheet) ==>
      var trace := ExpectedRun(path, stem, sheet, parses, fault, before).trace;
      && Schema(sheet, HeaderNames(sheet.headers), Inference(parses)).Ok?
      && |trace| >= 2
      && trace[1] == Execute(CreateTable(DeriveTableName(stem), Schema(sheet, HeaderNames(sheet.headers), Inference(parses)).value))
    ensures Connects(path, fault) && HeadersFound(sheet) && fault != RejectCreate ==>
      var trace := ExpectedRun(path, stem, sheet, parses, fault, before).trace;
      |trace| >= 5 && trace[2..5] == DisableChecks
  {
    if Connects(path, fault) {
      var names := HeaderNames(sheet.headers);
      var schema := Schema(sheet, names, Inference(parses));
      SchemaOkIffHeadersFound(sheet, Inference(parses));
      SessionOpens(DeriveTableName(stem), names, schema, sheet.rows, fault, before);
    }
  }

  /** The columns of the CREATE: one per header, in order, named by the stripped
      header and typed by inferring the column that name finds (the importer infers
      with `Inference(parses)`); the INSERT names the same columns in the same
      order (`InsertNamesCreatedColumns`). */
  lemma ImportColumns(sheet: Sheet, infer: seq<string> -> SqlType)
    requires sheet.Valid() && HeadersFound(sheet)
    ensures Schema(sheet, HeaderNames(sheet.headers), infer).Ok?
    ensures var names := HeaderNames(sheet.headers);
      var defs := Schema(sheet, names, infer).value;
      && |defs| == |sheet.headers|
      && forall j | 0 <= j < |sheet.headers| ::
           && Lookup(sheet.headers, names[j]).Some?
           && defs[j] == ColumnDef(names[j], infer(sheet.Column(Lookup(sheet.headers, names[j]).value)))
  {
    var names := HeaderNames(sheet.headers);
    SchemaOkIffHeadersFound(sheet, infer);
    SchemaShape(sheet, names, infer);
  }

  /** Definitions named by `names`, in order, have exactly those names. */
  lemma NamesOf(defs: seq<ColumnDef>, names: seq<string>)
    requires |defs| == |names|
    requires forall j | 0 <= j < |names| :: defs[j].name == names[j]
    ensures Names(defs) == names
  {
  }

  /** The INSERT's column list is the CREATE's: the stripped headers, in order. */
  lemma InsertNamesCreatedColumns(sheet: Sheet, infer: seq<string> -> SqlType)
    requires sheet.Valid() && HeadersFound(sheet)
    ensures Schema(sheet, HeaderNames(sheet.headers), infer).Ok?
    ensures Names(Schema(sheet, HeaderNames(sheet.headers), infer).value) == HeaderNames(sheet.headers)
  {
    var names := HeaderNames(sheet.headers);
    SchemaOkIffHeadersFound(sheet, infer);
    SchemaShape(sheet, names, infer);
    NamesOf(Schema(sheet, names, infer).value, names);
  }

  /** The CREATE and every INSERT of a run where every column is found name the same
      table and the same columns in the same order: entry i of the CREATE's column
      list is the INSERT's i-th quoted name followed by that column's type. */
  lemma ImportListsAgree(path: string, stem: string, sheet: Sheet, parses: DateParser,
                         fault: Fault, before: map<string, seq<Row>>)
    requires sheet.Valid()
    ensures var trace := ExpectedRun(path, stem, sheet, parses, fault, before).trace;
      Connects(path, fault) && HeadersFound(sheet) ==>
        && |trace| >= 2 && trace[1].Execute? && trace[1].statement.CreateTable?
        && forall c | c in trace && c.ExecuteMany? ::
             && c.insert.table == trace[1].statement.table
             && |QuotedNames(c.insert.columns)| == |Definitions(trace[1].statement.columns)|
             && forall i | 0 <= i < |c.insert.columns| ::
                  Definitions(trace[1].statement.columns)[i]
                  == QuotedNames(c.insert.columns)[i] + " " + TypeName(trace[1].statement.columns[i].sqlType)
  {
    if Connects(path, fault) && HeadersFound(sheet) {
      var names := HeaderNames(sheet.headers);
      ImportCreates(path, stem, sheet, parses, fault, before);
      ImportInserts(path, stem, sheet, parses, fault, before);
      InsertNamesCreatedColumns(sheet, Inference(parses));
      ListsAgree(Schema(sheet, names, Inference(parses)).value, names);
    }
  }

  /** The checks are switched back on, right before the close, exactly when the run
      succeeds: a failed run leaves them off. */
  lemma ImportRestoresChecks(path: string, stem: string, sheet: Sheet, parses: DateParser,
                             fault: Fault, before: map<string, seq<Row>>)
    requires sheet.Valid()
    ensures var run := ExpectedRun(path, stem, sheet, parses, fault, before);
      run.outcome == Imported ==> |run.trace| >= 4 && run.trace[|run.trace| - 4..] == RestoreChecks + [Close]
    ensures var run := ExpectedRun(path, stem, sheet, parses, fault, before);
      run.outcome != Imported ==> forall c | c in run.trace :: !SwitchesOn(c)
  {
    if Connects(path, fault) {
      var names := HeaderNames(sheet.headers);
      SessionRestores(DeriveTableName(stem), names, Schema(sheet, names, Inference(parses)), sheet.rows, fault, before);
    }
  }

  /** A run commits once per committed batch, plus once for a refused commit; it
      commits nothing when it never reaches the load. */
  lemma ImportCommits(path: string, stem: string, sheet: Sheet, parses: DateParser,
                      fault: Fault, before: map<string, seq<Row>>)
    requires sheet.Valid()
    ensures var n := BatchCount(|sheet.rows|);
      var k := CommittedBatches(fault, n);
      && (!Connects(path, fault) || !HeadersFound(sheet) || fault == RejectCreate ==>
            multiset(ExpectedRun(path, stem, sheet, parses, fault, before).trace)[Commit] == 0)
      && (Connects(path, fault) && HeadersFound(sheet) && fault != RejectCreate ==>
            multiset(ExpectedRun(path, stem, sheet, parses, fault, before).trace)[Commit]
              == if fault.RejectCommit? && FiresDuringLoad(fault, n) then k + 1 else k)
  {
    if Connects(path, fault) {
      var names := HeaderNames(sheet.headers);
      SchemaOkIffHeadersFound(sheet, Inference(parses));
      SessionCommits(DeriveTableName(stem), names, Schema(sheet, names, Inference(parses)), sheet.rows, fault, before);
    }
  }

  /** The rows a run sends: the committed batches, then the refused batch if a call
      was refused; nothing when it never reaches the load. */
  lemma ImportSends(path: string, stem: string, sheet: Sheet, parses: DateParser,
                    fault: Fault, before: map<string, seq<Row>>)
    requires sheet.Valid()
    ensures !Connects(path, fault) || !HeadersFound(sheet) || fault == RejectCreate ==>
      InsertedRows(ExpectedRun(path, stem, sheet, parses, fault, before).trace) == []
    ensures Connects(path, fault) && HeadersFound(sheet) && fault != RejectCreate ==>
      var n := BatchCount(|sheet.rows|);
      InsertedRows(ExpectedRun(path, stem, sheet, parses, fault, before).trace)
        == NullRows(Batches(sheet.rows, CommittedBatches(fault, n)))
           + (if FiresDuringLoad(fault, n) then NullRows(Batch(sheet.rows, fault.batch)) else [])
  {
    if Connects(path, fault) {
      var names := HeaderNames(sheet.headers);
      SchemaOkIffHeadersFound(sheet, Inference(parses));
      SessionSends(DeriveTableName(stem), names, Schema(sheet, names, Inference(parses)), sheet.rows, fault, before);
    } else {
      assert ExpectedRun(path, stem, sheet, parses, fault, before).trace == [];
    }
  }

  /** A successful run sends every row of the sheet once, in order, blank cells as
      NULL. */
  lemma ImportedSendsEveryRow(path: string, stem: string, sheet: Sheet, parses: DateParser,
                              fault: Fault, before: map<string, seq<Row>>)
    requires sheet.Valid()
    ensures var run := ExpectedRun(path, stem, sheet, parses, fault, before);
      run.outcome == Imported ==> InsertedRows(run.trace) == NullRows(sheet.rows)
  {
    if ExpectedRun(path, stem, sheet, parses, fault, before).outcome == Imported {
      ImportSucceedsExactly(path, stem, sheet, parses, fault, before);
      ImportSends(path, stem, sheet, parses, fault, before);
      BatchesCoverAll(sheet.rows);
    }
  }

  /** Every executemany of a run uses one INSERT, into the run's table, naming the
      stripped headers in order. */
  lemma ImportInserts(path: string, stem: string, sheet: Sheet, parses: DateParser,
                      fault: Fault, before: map<string, seq<Row>>)
    requires sheet.Valid()
    ensures forall c | c in ExpectedRun(path, stem, sheet, parses, fault, before).trace && c.ExecuteMany? ::
      c.insert == Insert(DeriveTableName(stem), HeaderNames(sheet.headers))
  {
    if Connects(path, fault) {
      var names := HeaderNames(sheet.headers);
      SessionInserts(DeriveTableName(stem), names, Schema(sheet, names, Inference(parses)), sheet.rows, fault, before);
    }
  }

  /** Replacing a table by the same contents twice over is replacing it once. */
  lemma ReplacedAgain(m: map<string, seq<Row>>, t: string, v: seq<Row>)
    ensures ((m[t := v] - {t})[t := []])[t := v] == m[t := v]
  {
  }

  /** Running the connected part again on what a successful run left behind does the
      same calls and leaves the same tables. */
  lemma SessionRerun(table: string, names: seq<string>, schema: Result<seq<ColumnDef>, string>,
                     rows: seq<seq<string>>, fault: Fault, before: map<string, seq<Row>>)
    ensures var run := Session(table, names, schema, rows, fault, before);
      run.outcome == Imported ==> Session(table, names, schema, rows, fault, run.tables) == run
  {
    var run := Session(table, names, schema, rows, fault, before);
    SessionOutcome(table, names, schema, rows, fault, before);
    if run.outcome == Imported {
      var ins := Insert(table, names);
      var k := CommittedBatches(fault, BatchCount(|rows|));
      var created := (before - {table})[table := []];
      LoadedTables(ins, rows, fault, created);
      ReplacedAgain(created, table, NullRows(Batches(rows, k)));
    }
  }

  /** Importing the same sheet again after a successful import, on the same server,
      succeeds again with the same calls and leaves the tables as they were: the
      import is idempotent. */
  lemma ReimportIsIdempotent(path: string, stem: string, sheet: Sheet, parses: DateParser,
                             fault: Fault, before: map<string, seq<Row>>)
    requires sheet.Valid()
    ensures var run := ExpectedRun(path, stem, sheet, parses, fault, before);
      run.outcome == Imported ==> ExpectedRun(path, stem, sheet, parses, fault, run.tables) == run
  {
    var run := ExpectedRun(path, stem, sheet, parses, fault, before);
    if run.outcome == Imported {
      var names := HeaderNames(sheet.headers);
      SessionRerun(DeriveTableName(stem), names, Schema(sheet, names, Inference(parses)), sheet.rows, fault, before);
    }
  }
}
