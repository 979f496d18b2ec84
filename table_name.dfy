/** The destination table's name (xlsx2table.py:78-79): every character of the file's
    stem outside `[a-zA-Z0-9_\u4e00-\u9fff]` becomes `_`, and the result is cut to its
    first 30 characters. */
module TableName {
  import opened Text

  const MaxTableNameLength: nat := 30

  /** The character class `[a-zA-Z0-9_\u4e00-\u9fff]`: ASCII letters and digits, the
      underscore and the CJK Unified Ideographs block. */
  predicate IsNameChar(c: char) {
    ('a' <= c <= 'z') || ('A' <= c <= 'Z') || ('0' <= c <= '9') || c == '_'
    || ('\U{4E00}' <= c <= '\U{9FFF}')
  }

  /** `re.sub(r'[^a-zA-Z0-9_\u4e00-\u9fff]', '_', s)`, one character at a time. */
  function Sanitize(s: string): (r: string)
    ensures |r| == |s|
    ensures forall i | 0 <= i < |s| :: r[i] == (if IsNameChar(s[i]) then s[i] else '_')
  {
    if s == [] then [] else [if IsNameChar(s[0]) then s[0] else '_'] + Sanitize(s[1..])
  }

  /** The table name derived from the stem: the sanitised stem, cut to 30 characters. */
  function DeriveTableName(stem: string): string {
    Sanitize(stem)[..Min(|stem|, MaxTableNameLength)]
  }

  /** The name has `min(len(stem), 30)` characters; each is the stem's character at that
      position when it is allowed and `_` otherwise, so every character is allowed. */
  lemma TableNameShape(stem: string)
    ensures |DeriveTableName(stem)| == Min(|stem|, MaxTableNameLength)
    ensures forall i | 0 <= i < |DeriveTableName(stem)| ::
      DeriveTableName(stem)[i] == (if IsNameChar(stem[i]) then stem[i] else '_')
    ensures forall i | 0 <= i < |DeriveTableName(stem)| :: IsNameChar(DeriveTableName(stem)[i])
  {
  }

  /** A stem that already is an allowed name of at most 30 characters is kept as it is. */
  lemma ValidNameKept(stem: string)
    requires |stem| <= MaxTableNameLength
    requires forall i | 0 <= i < |stem| :: IsNameChar(stem[i])
    ensures DeriveTableName(stem) == stem
  {
    TableNameShape(stem);
  }

  /** Deriving a name from a derived name changes nothing. */
  lemma DeriveIdempotent(stem: string)
    ensures DeriveTableName(DeriveTableName(stem)) == DeriveTableName(stem)
  {
    TableNameShape(stem);
    ValidNameKept(DeriveTableName(stem));
  }

  /** Nothing checks for an empty name: it is empty exactly when the stem is. */
  lemma EmptyOnlyFromEmptyStem(stem: string)
    ensures DeriveTableName(stem) == "" <==> stem == ""
  {
    TableNameShape(stem);
  }

  /** A derived name never holds a backtick (the quote around it in the statements)
      or a percent sign (the start of a `%s` placeholder). */
  lemma NameHasNoQuoteOrPercent(stem: string)
    ensures '`' !in DeriveTableName(stem)
    ensures '%' !in DeriveTableName(stem)
  {
    TableNameShape(stem);
  }

  /** A worked example: a hyphen and a space become underscores, an ideograph stays. */
  lemma ExampleName()
    ensures DeriveTableName("Q1-a \U{9500}") == "Q1_a_\U{9500}"
  {
    var stem := "Q1-a \U{9500}";
    TableNameShape(stem);
    var r := DeriveTableName(stem);
    assert |r| == 6;
    assert r[0] == 'Q' && r[1] == '1' && r[2] == '_' && r[3] == 'a' && r[4] == '_' && r[5] == '\U{9500}';
  }
}
