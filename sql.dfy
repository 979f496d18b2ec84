/** The statements the importer sends (xlsx2table.py:88-97, 101-103, 111-113, 129-131):
    their values and the exact text each one is sent as. */
module Sql {
  import opened Text
  import opened ColumnType

  /** One entry of the CREATE TABLE column list: a header and its inferred type. */
  datatype ColumnDef = ColumnDef(name: string, sqlType: SqlType)

  /** An identifier between backticks, used as it is (nothing inside is escaped). */
  function Quote(name: string): string {
    "`" + name + "`"
  }

  /** The entry `` `col` TYPE `` of the column list. */
  function Definition(c: ColumnDef): string {
    Quote(c.name) + " " + TypeName(c.sqlType)
  }

  function Definitions(columns: seq<ColumnDef>): (r: seq<string>)
    ensures |r| == |columns|
    ensures forall i | 0 <= i < |columns| :: r[i] == Definition(columns[i])
  {
    seq(|columns|, i requires 0 <= i < |columns| => Definition(columns[i]))
  }

  function Names(columns: seq<ColumnDef>): (r: seq<string>)
    ensures |r| == |columns|
    ensures forall i | 0 <= i < |columns| :: r[i] == columns[i].name
  {
    seq(|columns|, i requires 0 <= i < |columns| => columns[i].name)
  }

  function QuotedNames(names: seq<string>): (r: seq<string>)
    ensures |r| == |names|
    ensures forall i | 0 <= i < |names| :: r[i] == Quote(names[i])
  {
    seq(|names|, i requires 0 <= i < |names| => Quote(names[i]))
  }

  /** The session variables the importer sets. */
  datatype Variable = Autocommit | UniqueChecks | ForeignKeyChecks
  {
    /** The variable's name in a SET statement. */
    function Name(): string {
      match this
      case Autocommit => "autocommit"
      case UniqueChecks => "unique_checks"
      case ForeignKeyChecks => "foreign_key_checks"
    }
  }

  /** The statements run with `cursor.execute`. */
  datatype Statement =
    | DropTable(table: string)
    | CreateTable(table: string, columns: seq<ColumnDef>)
    | SetVariable(variable: Variable, on: bool)
  {
    /** The text sent to the server. */
    function Render(): string {
      match this
      case DropTable(t) => "DROP TABLE IF EXISTS " + Quote(t)
      case CreateTable(t, cols) => "CREATE TABLE " + Quote(t) + " (" + Join(Definitions(cols), ", ") + ")"
      case SetVariable(v, on) => "SET " + v.Name() + "=" + (if on then "1" else "0")
    }
  }

  /** `", ".join(["%s"] * n)` */
  function Placeholders(n: nat): string {
    Join(seq(n, _ => "%s"), ", ")
  }

  /** The parameterised INSERT run with `cursor.executemany`, one row per parameter tuple. */
  datatype Insert = Insert(table: string, columns: seq<string>)
  {
    function Render(): string {
      "INSERT INTO " + Quote(table) + " (" + Join(QuotedNames(columns), ", ") + ") VALUES ("
      + Placeholders(|columns|) + ")"
    }
  }

  /** The number of `%s` occurrences in a text. */
  function CountPlaceholders(s: string): nat {
    if |s| < 2 then 0
    else (if s[0] == '%' && s[1] == 's' then 1 else 0) + CountPlaceholders(s[1..])
  }

  /** Counts add up across a concatenation whose left part does not end in `%`. */
  lemma {:induction false} CountConcat(a: string, b: string)
    requires a == [] || a[|a| - 1] != '%'
    ensures CountPlaceholders(a + b) == CountPlaceholders(a) + CountPlaceholders(b)
  {
    if a == [] {
      assert a + b == b;
    } else if |a + b| >= 2 {
      var ab := a + b;
      assert ab[1..] == a[1..] + b;
      assert CountPlaceholders(ab)
        == (if ab[0] == '%' && ab[1] == 's' then 1 else 0) + CountPlaceholders(a[1..] + b);
      if |a| == 1 {
        assert a[1..] + b == b;
        assert ab[0] == a[0];
      } else {
        assert ab[0] == a[0] && ab[1] == a[1];
        assert a[1..][|a| - 2] == a[|a| - 1];
        CountConcat(a[1..], b);
      }
    }
  }

  lemma {:induction false} CountAbsent(s: string)
    requires '%' !in s
    ensures CountPlaceholders(s) == 0
  {
    if |s| >= 2 {
      assert s[0] in s;
      assert forall c | c in s[1..] :: c in s;
      CountAbsent(s[1..]);
    }
  }

  /** One placeholder more is `%s, ` in front. */
  lemma PlaceholdersStep(n: nat)
    requires n > 1
    ensures Placeholders(n) == "%s" + (", " + Placeholders(n - 1))
  {
    var parts: seq<string> := seq(n, _ => "%s");
    var rest: seq<string> := seq(n - 1, _ => "%s");
    assert parts[1..] == rest;
    assert Join(parts, ", ") == parts[0] + ", " + Join(rest, ", ");
  }

  /** The VALUES tuple holds exactly one `%s` per column. */
  lemma {:induction false} PlaceholderCount(n: nat)
    ensures CountPlaceholders(Placeholders(n)) == n
    ensures n > 0 ==> |Placeholders(n)| == 4 * n - 2 && Placeholders(n)[|Placeholders(n)| - 1] == 's'
  {
    assert CountPlaceholders("%s") == 1 by { assert "%s"[1..] == "s"; }
    if n == 1 {
      assert Placeholders(1) == "%s" by {
        assert Join(seq(1, _ => "%s"), ", ") == "%s";
      }
    } else if n > 1 {
      PlaceholderCount(n - 1);
      PlaceholdersStep(n);
      var tail := Placeholders(n - 1);
      var whole := "%s" + (", " + tail);
      assert |whole| == 4 + |tail| && whole[|whole| - 1] == tail[|tail| - 1];
      CountConcat("%s", ", " + tail);
      CountConcat(", ", tail);
      assert CountPlaceholders(", ") == 0;
    }
  }

  /** When neither the table nor any column name holds `%`, the whole INSERT text has
      exactly as many `%s` placeholders as it has columns. */
  lemma InsertPlaceholderCount(ins: Insert)
    requires '%' !in ins.table
    requires forall i | 0 <= i < |ins.columns| :: '%' !in ins.columns[i]
    ensures CountPlaceholders(ins.Render()) == |ins.columns|
  {
    var names := Join(QuotedNames(ins.columns), ", ");
    JoinAvoids(QuotedNames(ins.columns), ", ", '%');
    var head := "INSERT INTO " + Quote(ins.table) + " (" + names + ") VALUES (";
    assert '%' !in head;
    CountAbsent(head);
    PlaceholderCount(|ins.columns|);
    var ps := Placeholders(|ins.columns|);
    CountConcat(head, ps);
    CountConcat(head + ps, ")");
    assert ins.Render() == head + ps + ")";
  }

  /** An INSERT naming the columns of a CREATE list: its i-th quoted name starts the
      i-th entry of that list. */
  lemma ListsAgree(defs: seq<ColumnDef>, names: seq<string>)
    requires Names(defs) == names
    ensures |QuotedNames(names)| == |Definitions(defs)|
    ensures forall i | 0 <= i < |names| ::
      Definitions(defs)[i] == QuotedNames(names)[i] + " " + TypeName(defs[i].sqlType)
  {
    forall i | 0 <= i < |names| ensures Definitions(defs)[i] == QuotedNames(names)[i] + " " + TypeName(defs[i].sqlType) {
      assert names[i] == defs[i].name;
    }
  }
}
