/** Column type inference: `determine_column_type` (xlsx2table.py:35-59).

    A column is the list of its cells as text. After stripping every cell and setting
    the blank ones aside, the column is a DATE or a DATETIME when every remaining cell
    parses under the corresponding date format (tried in that order), integer-looking
    text when every cell matches `^-?\d+$` once commas are removed (stored as
    VARCHAR(255) on purpose), DECIMAL(18,6) when every cell matches
    `^-?\d+(\.\d+)?$`, and VARCHAR(255) otherwise. */
module ColumnType {
  import opened Wrappers
  import opened Text

  /** The four column types the importer ever emits. */
  datatype SqlType = Date | DateTime | Decimal | Varchar

  /** The type as written into the CREATE TABLE statement. */
  function TypeName(t: SqlType): string {
    match t
    case Date => "DATE"
    case DateTime => "DATETIME"
    case Decimal => "DECIMAL(18,6)"
    case Varchar => "VARCHAR(255)"
  }

  /** Distinct types are written differently, so the text names the type. */
  lemma TypeNameInjective(a: SqlType, b: SqlType)
    ensures TypeName(a) == TypeName(b) <==> a == b
    ensures TypeName(a) in {"DATE", "DATETIME", "DECIMAL(18,6)", "VARCHAR(255)"}
  {
  }

  /** The strict date parser (`pd.to_datetime(value, format=..., errors='raise')`):
      `parses(format, value)` holds when the value is accepted under the format.
      It is a parameter: its calendar rules belong to the library. */
  type DateParser = (string, string) -> bool

  const DateFormat: string := "%Y-%m-%d"
  const DateTimeFormat: string := "%Y-%m-%d %H:%M:%S"
  /** The formats in the order they are tried. */
  const DateFormats: seq<string> := [DateFormat, DateTimeFormat]

  /** The stripped cells, with the empty ones left out, in column order. */
  function Kept(values: seq<string>): (r: seq<string>)
    ensures forall k | 0 <= k < |r| :: r[k] != ""
    ensures |r| <= |values|
  {
    if values == [] then []
    else KeptCell(values[0]) + Kept(values[1..])
  }

  /** One cell's contribution to `Kept`: nothing when blank, its stripped text otherwise. */
  function KeptCell(value: string): (r: seq<string>)
    ensures |r| <= 1 && (forall k | 0 <= k < |r| :: r[k] != "")
  {
    if Strip(value) == "" then [] else [Strip(value)]
  }

  lemma KeptCellAll(value: string, P: string -> bool)
    ensures All(KeptCell(value), P) <==> (Strip(value) != "" ==> P(Strip(value)))
  {
    if Strip(value) != "" { assert KeptCell(value)[0] == Strip(value); }
  }

  /** Some cell of the column holds more than whitespace. */
  ghost predicate HasContent(values: seq<string>) {
    exists i | 0 <= i < |values| :: Strip(values[i]) != ""
  }

  /** Every non-blank cell, once stripped, has property `P`. */
  ghost predicate EveryValue(values: seq<string>, P: string -> bool) {
    forall i | 0 <= i < |values| :: Strip(values[i]) != "" ==> P(Strip(values[i]))
  }

  /** `P` holds of every element of `xs`. */
  predicate All(xs: seq<string>, P: string -> bool) {
    forall k | 0 <= k < |xs| :: P(xs[k])
  }

  lemma AllConcat(xs: seq<string>, ys: seq<string>, P: string -> bool)
    ensures All(xs + ys, P) <==> All(xs, P) && All(ys, P)
  {
    if All(xs, P) && All(ys, P) {
      forall k | 0 <= k < |xs + ys| ensures P((xs + ys)[k]) {
        if k >= |xs| { assert (xs + ys)[k] == ys[k - |xs|]; }
      }
    }
    if All(xs + ys, P) {
      forall k | 0 <= k < |ys| ensures P(ys[k]) {
        assert ys[k] == (xs + ys)[k + |xs|];
      }
      forall k | 0 <= k < |xs| ensures P(xs[k]) {
        assert xs[k] == (xs + ys)[k];
      }
    }
  }

  lemma EveryValueCons(values: seq<string>, P: string -> bool)
    requires values != []
    ensures EveryValue(values, P)
      <==> (Strip(values[0]) != "" ==> P(Strip(values[0]))) && EveryValue(values[1..], P)
  {
    var rest := values[1..];
    if (Strip(values[0]) != "" ==> P(Strip(values[0]))) && EveryValue(rest, P) {
      forall i | 0 <= i < |values| && Strip(values[i]) != "" ensures P(Strip(values[i])) {
        if i > 0 { assert values[i] == rest[i - 1]; }
      }
    }
    if EveryValue(values, P) {
      forall j | 0 <= j < |rest| && Strip(rest[j]) != "" ensures P(Strip(rest[j])) {
        assert rest[j] == values[j + 1];
      }
    }
  }

  /** A property holds of all kept cells exactly when it holds of every non-blank cell. */
  lemma {:induction false} KeptAll(values: seq<string>, P: string -> bool)
    ensures All(Kept(values), P) <==> EveryValue(values, P)
  {
    if values != [] {
      var rest := values[1..];
      KeptAll(rest, P);
      EveryValueCons(values, P);
      AllConcat(KeptCell(values[0]), Kept(rest), P);
      KeptCellAll(values[0], P);
    }
  }

  /** Nothing is kept exactly when every cell is blank. */
  lemma {:induction false} KeptEmpty(values: seq<string>)
    ensures Kept(values) == [] <==> !HasContent(values)
  {
    if values != [] {
      KeptEmpty(values[1..]);
      HasContentCons(values);
    }
  }

  lemma HasContentCons(values: seq<string>)
    requires values != []
    ensures HasContent(values) <==> Strip(values[0]) != "" || HasContent(values[1..])
  {
    var rest := values[1..];
    if HasContent(rest) {
      var i :| 0 <= i < |rest| && Strip(rest[i]) != "";
      assert rest[i] == values[i + 1];
    }
    if HasContent(values) && Strip(values[0]) == "" {
      var i :| 0 <= i < |values| && Strip(values[i]) != "";
      assert values[i] == rest[i - 1];
    }
  }

  /** The first format (in order) under which every kept cell parses, as a column type:
      DATETIME when the format has a space in it, DATE otherwise. */
  function DateTypeOf(kept: seq<string>, formats: seq<string>, parses: DateParser): Option<SqlType>
  {
    if formats == [] then None
    else if All(kept, s => parses(formats[0], s)) then
      Some(if ' ' in formats[0] then DateTime else Date)
    else DateTypeOf(kept, formats[1..], parses)
  }

  /** `s.replace(',', '')`. */
  function RemoveCommas(s: string): (r: string)
    ensures ',' !in r
    ensures |r| <= |s|
    ensures ',' !in s ==> r == s
    ensures |s| == 1 ==> r == (if s[0] == ',' then "" else s)
  {
    if s == [] then []
    else (if s[0] == ',' then [] else [s[0]]) + RemoveCommas(s[1..])
  }

  /** Removing commas works piece by piece, so every character other than a comma
      survives, in order. */
  lemma {:induction false} RemoveCommasConcat(a: string, b: string)
    ensures RemoveCommas(a + b) == RemoveCommas(a) + RemoveCommas(b)
  {
    if a == [] {
      assert a + b == b;
    } else {
      assert (a + b)[0] == a[0] && (a + b)[1..] == a[1..] + b;
      RemoveCommasConcat(a[1..], b);
    }
  }

  // ---------------------------------------------------------------------------
  // The two anchored regular expressions, as the automaton a regex engine runs.

  /** The states of one automaton for both `-?\d+` (accepting in Whole) and
      `-?\d+(\.\d+)?` (accepting in Whole and Fraction). */
  datatype ScanState = Start | Sign | Whole | Point | Fraction | Reject

  predicate IsDigit(c: char) {
    '0' <= c <= '9'
  }

  function Step(q: ScanState, c: char): ScanState {
    match q
    case Start => if c == '-' then Sign else if IsDigit(c) then Whole else Reject
    case Sign => if IsDigit(c) then Whole else Reject
    case Whole => if IsDigit(c) then Whole else if c == '.' then Point else Reject
    case Point => if IsDigit(c) then Fraction else Reject
    case Fraction => if IsDigit(c) then Fraction else Reject
    case Reject => Reject
  }

  function Scan(q: ScanState, s: string): ScanState
    decreases |s|
  {
    if s == [] then q else Scan(Step(q, s[0]), s[1..])
  }

  predicate Accepting(q: ScanState, decimal: bool) {
    q == Whole || (decimal && q == Fraction)
  }

  /** `re.match` with `^-?\d+$` (decimal false) or `^-?\d+(\.\d+)?$` (decimal true).
      Without MULTILINE, `$` matches at the end of the text and also just before a
      newline that ends it. */
  predicate Matches(s: string, decimal: bool) {
    Accepting(Scan(Start, s), decimal)
    || (|s| > 0 && s[|s| - 1] == '\n' && Accepting(Scan(Start, s[..|s| - 1]), decimal))
  }

  /** The integer test on a cell: `^-?\d+$` after removing commas. */
  predicate IntegerLike(s: string) {
    Matches(RemoveCommas(s), false)
  }

  /** The decimal test on a cell: `^-?\d+(\.\d+)?$` after removing commas. */
  predicate DecimalLike(s: string) {
    Matches(RemoveCommas(s), true)
  }

  // The grammar the two expressions denote, stated without the automaton.

  predicate DigitsOnly(s: string) {
    forall k | 0 <= k < |s| :: IsDigit(s[k])
  }

  /** The text after one optional leading minus sign. */
  function Unsigned(s: string): string {
    if |s| > 0 && s[0] == '-' then s[1..] else s
  }

  /** `s` is digits, a point at `p`, and at least one digit after it. */
  ghost predicate SplitAt(s: string, p: int) {
    0 <= p < |s| - 1 && s[p] == '.' && DigitsOnly(s[..p]) && DigitsOnly(s[p + 1..])
  }

  /** `-?\d+` */
  ghost predicate IntegerText(s: string) {
    |Unsigned(s)| > 0 && DigitsOnly(Unsigned(s))
  }

  /** `-?\d+(\.\d+)?` */
  ghost predicate DecimalText(s: string) {
    IntegerText(s) || exists p :: 0 < p && SplitAt(Unsigned(s), p)
  }

  lemma {:induction false} ScanReject(s: string)
    ensures Scan(Reject, s) == Reject
  {
    if s != [] { ScanReject(s[1..]); }
  }

  /** Digits-only text is a digit followed by digits-only text. */
  lemma DigitsOnlyCons(s: string)
    requires s != []
    ensures DigitsOnly(s) <==> IsDigit(s[0]) && DigitsOnly(s[1..])
  {
    if IsDigit(s[0]) && DigitsOnly(s[1..]) {
      forall k | 0 <= k < |s| ensures IsDigit(s[k]) {
        if k > 0 { assert s[k] == s[1..][k - 1]; }
      }
    }
  }

  /** Below a leading digit, the split points of `s` are those of `s[1..]` moved by one. */
  lemma SplitAtShift(s: string, p: int)
    requires s != [] && IsDigit(s[0])
    ensures SplitAt(s, p + 1) <==> SplitAt(s[1..], p)
  {
    if 0 <= p < |s| - 2 {
      assert s[..p + 1] == [s[0]] + s[1..][..p];
      assert s[p + 2..] == s[1..][p + 1..];
      DigitsOnlyCons(s[..p + 1]);
      assert s[..p + 1][1..] == s[1..][..p];
    }
  }

  /** No split point is at a position before a non-digit other than the point itself. */
  lemma NoSplitAfter(s: string, p: int)
    requires s != [] && !IsDigit(s[0])
    requires SplitAt(s, p)
    ensures p == 0 && s[0] == '.'
  {
  }

  lemma {:induction false} ScanFraction(s: string)
    ensures Scan(Fraction, s) == Fraction <==> DigitsOnly(s)
    ensures Scan(Fraction, s) != Whole
  {
    if s != [] {
      DigitsOnlyCons(s);
      if IsDigit(s[0]) {
        ScanFraction(s[1..]);
      } else {
        ScanReject(s[1..]);
      }
    }
  }

  lemma ScanPoint(s: string)
    ensures Scan(Point, s) == Fraction <==> |s| > 0 && DigitsOnly(s)
    ensures Scan(Point, s) != Whole
  {
    if s != [] {
      DigitsOnlyCons(s);
      if IsDigit(s[0]) {
        ScanFraction(s[1..]);
      } else {
        ScanReject(s[1..]);
      }
    }
  }

  lemma {:induction false} ScanWhole(s: string)
    ensures Scan(Whole, s) == Whole <==> DigitsOnly(s)
    ensures Scan(Whole, s) == Fraction <==> exists p :: SplitAt(s, p)
  {
    if s == [] {
      assert forall p :: !SplitAt(s, p);
    } else {
      var t := s[1..];
      DigitsOnlyCons(s);
      if IsDigit(s[0]) {
        ScanWhole(t);
        if exists p :: SplitAt(t, p) {
          var p :| SplitAt(t, p);
          SplitAtShift(s, p);
        }
        if exists p :: SplitAt(s, p) {
          var p :| SplitAt(s, p);
          assert p != 0;
          SplitAtShift(s, p - 1);
        }
      } else if s[0] == '.' {
        ScanPoint(t);
        if |t| > 0 && DigitsOnly(t) {
          assert s[..0] == [];
          assert SplitAt(s, 0);
        }
        if exists p :: SplitAt(s, p) {
          var p :| SplitAt(s, p);
          NoSplitAfter(s, p);
        }
      } else {
        ScanReject(t);
        if exists p :: SplitAt(s, p) {
          var p :| SplitAt(s, p);
          NoSplitAfter(s, p);
        }
      }
    }
  }

  /** From the state after a sign (or before the first digit), the automaton accepts
      exactly the unsigned grammar. */
  lemma ScanSign(u: string)
    ensures Accepting(Scan(Sign, u), false) <==> |u| > 0 && DigitsOnly(u)
    ensures Accepting(Scan(Sign, u), true)
      <==> (|u| > 0 && DigitsOnly(u)) || exists p :: 0 < p && SplitAt(u, p)
  {
    if u == [] {
      assert forall p :: !SplitAt(u, p);
    } else {
      var t := u[1..];
      DigitsOnlyCons(u);
      if IsDigit(u[0]) {
        ScanWhole(t);
        if exists p :: SplitAt(t, p) {
          var p :| SplitAt(t, p);
          SplitAtShift(u, p);
        }
        if exists p :: 0 < p && SplitAt(u, p) {
          var p :| 0 < p && SplitAt(u, p);
          SplitAtShift(u, p - 1);
        }
      } else {
        ScanReject(t);
        if exists p :: 0 < p && SplitAt(u, p) {
          var p :| 0 < p && SplitAt(u, p);
          NoSplitAfter(u, p);
        }
      }
    }
  }

  /** The automaton decides exactly the two grammars. */
  lemma ScanStart(s: string)
    ensures Accepting(Scan(Start, s), false) <==> IntegerText(s)
    ensures Accepting(Scan(Start, s), true) <==> DecimalText(s)
  {
    if s == [] {
      assert forall p :: !SplitAt(s, p);
    } else if s[0] == '-' {
      ScanSign(s[1..]);
    } else if IsDigit(s[0]) {
      ScanSign(s);
    } else {
      ScanReject(s[1..]);
      if exists p :: 0 < p && SplitAt(s, p) {
        var p :| 0 < p && SplitAt(s, p);
        NoSplitAfter(s, p);
      }
    }
  }

  /** The anchored matches in terms of the grammar: the whole text is in the grammar,
      or everything but a final newline is. */
  lemma MatchesGrammar(s: string)
    ensures Matches(s, false)
      <==> IntegerText(s) || (|s| > 0 && s[|s| - 1] == '\n' && IntegerText(s[..|s| - 1]))
    ensures Matches(s, true)
      <==> DecimalText(s) || (|s| > 0 && s[|s| - 1] == '\n' && DecimalText(s[..|s| - 1]))
  {
    ScanStart(s);
    if |s| > 0 { ScanStart(s[..|s| - 1]); }
  }

  /** Every integer-looking cell is decimal-looking, which is why the integer test runs first. */
  lemma IntegerLikeIsDecimalLike(s: string)
    ensures IntegerLike(s) ==> DecimalLike(s)
  {
  }

  // ---------------------------------------------------------------------------
  // The inference itself.

  /** `determine_column_type(column)`. */
  function DetermineColumnType(values: seq<string>, parses: DateParser): SqlType {
    var kept := Kept(values);
    if kept == [] then Varchar
    else match DateTypeOf(kept, DateFormats, parses)
      case Some(t) => t
      case None =>
        if All(kept, IntegerLike) then Varchar
        else if All(kept, DecimalLike) then Decimal
        else Varchar
  }

  /** The inference restated over the raw cells, in its priority order: blank column,
      DATE, DATETIME, integer-looking (kept as text), decimal, text. */
  ghost function Classification(values: seq<string>, parses: DateParser): SqlType {
    if !HasContent(values) then Varchar
    else if EveryValue(values, s => parses(DateFormat, s)) then Date
    else if EveryValue(values, s => parses(DateTimeFormat, s)) then DateTime
    else if EveryValue(values, IntegerLike) then Varchar
    else if EveryValue(values, DecimalLike) then Decimal
    else Varchar
  }

  /** With the two formats of the importer, the date step is: DATE if every kept
      cell parses under the date format, else DATETIME if every one parses under the
      date-time format, else no date type. */
  lemma DateTypeOfFormats(kept: seq<string>, parses: DateParser)
    ensures DateTypeOf(kept, DateFormats, parses)
      == if All(kept, s => parses(DateFormat, s)) then Some(Date)
         else if All(kept, s => parses(DateTimeFormat, s)) then Some(DateTime)
         else None
  {
    assert DateFormats[0] == DateFormat && ' ' !in DateFormat;
    assert All(kept, s => parses(DateFormats[0], s)) <==> All(kept, s => parses(DateFormat, s));
    var later := DateFormats[1..];
    assert later[0] == DateTimeFormat && DateTimeFormat[8] == ' ';
    assert All(kept, s => parses(later[0], s)) <==> All(kept, s => parses(DateTimeFormat, s));
    assert later[1..] == [];
    assert DateTypeOf(kept, later[1..], parses) == None;
    assert DateTypeOf(kept, later, parses)
      == if All(kept, s => parses(DateTimeFormat, s)) then Some(DateTime) else None;
    assert DateTypeOf(kept, DateFormats, parses)
      == if All(kept, s => parses(DateFormat, s)) then Some(Date) else DateTypeOf(kept, later, parses);
  }

  lemma DetermineIsClassification(values: seq<string>, parses: DateParser)
    ensures DetermineColumnType(values, parses) == Classification(values, parses)
  {
    var kept := Kept(values);
    KeptEmpty(values);
    if kept != [] {
      DateTypeOfFormats(kept, parses);
      KeptAll(values, s => parses(DateFormat, s));
      KeptAll(values, s => parses(DateTimeFormat, s));
      KeptAll(values, IntegerLike);
      KeptAll(values, DecimalLike);
    }
  }

  /** A column whose cells are all empty or whitespace is VARCHAR(255). */
  lemma BlankColumnIsText(values: seq<string>, parses: DateParser)
    requires forall i | 0 <= i < |values| :: IsBlank(values[i])
    ensures DetermineColumnType(values, parses) == Varchar
  {
    DetermineIsClassification(values, parses);
  }

  /** DATE exactly when some cell has content and every non-blank cell parses as `%Y-%m-%d`;
      the date test comes before any numeric test. */
  lemma DateColumn(values: seq<string>, parses: DateParser)
    ensures DetermineColumnType(values, parses) == Date
      <==> HasContent(values) && EveryValue(values, s => parses(DateFormat, s))
  {
    DetermineIsClassification(values, parses);
  }

  /** DATETIME exactly when the DATE test fails and every non-blank cell parses as
      `%Y-%m-%d %H:%M:%S`. */
  lemma DateTimeColumn(values: seq<string>, parses: DateParser)
    ensures DetermineColumnType(values, parses) == DateTime
      <==> (HasContent(values)
            && !EveryValue(values, s => parses(DateFormat, s))
            && EveryValue(values, s => parses(DateTimeFormat, s)))
  {
    DetermineIsClassification(values, parses);
  }

  /** A non-date column whose cells all look like integers (commas ignored) is stored
      as VARCHAR(255), never as a numeric type. */
  lemma IntegerColumnIsText(values: seq<string>, parses: DateParser)
    requires !EveryValue(values, s => parses(DateFormat, s))
    requires !EveryValue(values, s => parses(DateTimeFormat, s))
    requires EveryValue(values, IntegerLike)
    ensures DetermineColumnType(values, parses) == Varchar
  {
    DetermineIsClassification(values, parses);
  }

  /** DECIMAL(18,6) exactly when the date tests fail, some non-blank cell is not
      integer-looking, and every non-blank cell is decimal-looking. */
  lemma DecimalColumn(values: seq<string>, parses: DateParser)
    ensures DetermineColumnType(values, parses) == Decimal
      <==> (HasContent(values)
            && !EveryValue(values, s => parses(DateFormat, s))
            && !EveryValue(values, s => parses(DateTimeFormat, s))
            && !EveryValue(values, IntegerLike)
            && EveryValue(values, DecimalLike))
  {
    DetermineIsClassification(values, parses);
  }

  /** Some cell that is neither date, datetime nor decimal-looking makes the column VARCHAR(255). */
  lemma OtherTextIsText(values: seq<string>, parses: DateParser, i: int)
    requires 0 <= i < |values| && !IsBlank(values[i])
    requires !parses(DateFormat, Strip(values[i])) && !parses(DateTimeFormat, Strip(values[i]))
    requires !DecimalLike(Strip(values[i]))
    ensures DetermineColumnType(values, parses) == Varchar
  {
    DetermineIsClassification(values, parses);
    var cell := Strip(values[i]);
    assert !EveryValue(values, s => parses(DateFormat, s)) && !EveryValue(values, DecimalLike) by {
      assert cell != "" && !parses(DateFormat, cell) && !DecimalLike(cell);
    }
    assert !EveryValue(values, s => parses(DateTimeFormat, s)) by {
      assert cell != "" && !parses(DateTimeFormat, cell);
    }
  }
}
