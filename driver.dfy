/** The database connection the importer talks to (the part of mysql.connector it
    uses), reduced to what the import can observe: the committed contents of each
    table, the rows inserted but not yet committed, and the calls made on the
    connection and its cursor, in order. A `Fault` chosen up front says which call,
    if any, the server refuses; every refusal is a `mysql.connector.Error`. */
module Driver {
  import opened Sql
  import opened Batching

  /** Which call the server refuses, if any. Batches are counted from 0. */
  datatype Fault =
    | NoFault
    | RefuseConnection       // mysql.connector.connect fails
    | RejectCreate           // the CREATE TABLE statement fails
    | RejectInsert(batch: nat)   // the `batch`-th executemany fails
    | RejectCommit(batch: nat)   // the `batch`-th commit fails

  /** One call on the connection or its cursor. */
  datatype Call =
    | Execute(statement: Statement)
    | ExecuteMany(insert: Insert, rows: seq<Row>)
    | Commit
    | Rollback
    | Close

  class Database {
    /** The committed rows of every table, by name. */
    var tables: map<string, seq<Row>>
    /** Rows inserted in the open transaction, all into `pendingTable`. */
    var pending: seq<Row>
    var pendingTable: string
    var connected: bool
    /** How many executemany and commit calls were made so far. */
    var inserts: nat
    var commits: nat
    var trace: seq<Call>
    const fault: Fault

    /** A server holding `existing`, not yet connected to. */
    constructor (existing: map<string, seq<Row>>, fault: Fault)
      ensures tables == existing && this.fault == fault
      ensures pending == [] && !connected && inserts == 0 && commits == 0 && trace == []
    {
      tables := existing;
      pending := [];
      pendingTable := "";
      connected := false;
      inserts := 0;
      commits := 0;
      trace := [];
      this.fault := fault;
    }

    /** `mysql.connector.connect(...)` */
    method Connect() returns (ok: bool)
      modifies this`connected
      ensures ok == (fault != RefuseConnection)
      ensures connected == ok
    {
      ok := fault != RefuseConnection;
      connected := ok;
    }

    /** `cursor.execute(statement)`. DROP TABLE IF EXISTS removes the table if it is
        there; CREATE TABLE fails when the table exists or the fault says so, and
        otherwise adds it empty; SET changes no table. */
    method Execute(s: Statement) returns (ok: bool)
      requires connected
      modifies this`tables, this`trace
      ensures trace == old(trace) + [Call.Execute(s)]
      ensures ok == !(s.CreateTable? && (fault == RejectCreate || s.table in old(tables)))
      ensures tables == if !ok then old(tables) else match s
        case DropTable(t) => old(tables) - {t}
        case CreateTable(t, _) => old(tables)[t := []]
        case SetVariable(_, _) => old(tables)
    {
      trace := trace + [Call.Execute(s)];
      match s
      case DropTable(t) =>
        tables := tables - {t};
        ok := true;
      case CreateTable(t, _) =>
        ok := !(fault == RejectCreate || t in tables);
        if ok {
          tables := tables[t := []];
        }
      case SetVariable(_, _) =>
        ok := true;
    }

    /** `cursor.executemany(insert, rows)`: all the rows go into the open transaction,
        or none does. It fails when the fault says so, when the table does not exist,
        or when a row does not have one value per column. */
    method ExecuteMany(ins: Insert, rows: seq<Row>) returns (ok: bool)
      requires connected
      requires pending == [] || pendingTable == ins.table
      modifies this`pending, this`pendingTable, this`inserts, this`trace
      ensures inserts == old(inserts) + 1
      ensures trace == old(trace) + [Call.ExecuteMany(ins, rows)]
      ensures ok == (fault != RejectInsert(old(inserts)) && ins.table in tables
                     && forall r | 0 <= r < |rows| :: |rows[r]| == |ins.columns|)
      ensures ok ==> pending == old(pending) + rows && pendingTable == ins.table
      ensures !ok ==> pending == old(pending) && pendingTable == old(pendingTable)
    {
      ok := fault != RejectInsert(inserts) && ins.table in tables
        && forall r | 0 <= r < |rows| :: |rows[r]| == |ins.columns|;
      inserts := inserts + 1;
      trace := trace + [Call.ExecuteMany(ins, rows)];
      if ok {
        pending := pending + rows;
        pendingTable := ins.table;
      }
    }

    /** `conn.commit()`: the open transaction's rows are appended to their table. */
    method Commit() returns (ok: bool)
      requires connected
      modifies this`tables, this`pending, this`commits, this`trace
      ensures commits == old(commits) + 1
      ensures trace == old(trace) + [Call.Commit]
      ensures ok == (fault != RejectCommit(old(commits)))
      ensures ok ==> pending == [] && tables == (if pendingTable in old(tables)
        then old(tables)[pendingTable := old(tables)[pendingTable] + old(pending)]
        else old(tables))
      ensures !ok ==> pending == old(pending) && tables == old(tables)
    {
      ok := fault != RejectCommit(commits);
      commits := commits + 1;
      trace := trace + [Call.Commit];
      if ok {
        if pendingTable in tables {
          tables := tables[pendingTable := tables[pendingTable] + pending];
        }
        pending := [];
      }
    }

    /** `conn.rollback()`: the open transaction's rows are dropped. */
    method Rollback()
      requires connected
      modifies this`pending, this`trace
      ensures pending == [] && trace == old(trace) + [Call.Rollback]
    {
      pending := [];
      trace := trace + [Call.Rollback];
    }

    /** `conn.close()`: the server discards whatever was not committed. */
    method Close()
      requires connected
      modifies this`pending, this`connected, this`trace
      ensures pending == [] && !connected && trace == old(trace) + [Call.Close]
    {
      pending := [];
      connected := false;
      trace := trace + [Call.Close];
    }
  }
}
