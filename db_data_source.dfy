/** The text-producing parts of `Db_DataSource`: rendering a scalar as an SQL
    literal (`qstr`), adding a LIMIT clause (`sql_limit`) and wrapping a
    query for counting (`count`). The PDO connection is reduced to its
    string-quoting primitive, passed in as `quote`. */
module DbDataSource {
  import opened PhpStrings
  import opened PhpValues

  /** The driver's string quoting (`PDO::quote`); nothing is assumed about it. */
  type Quoter = string -> string

  /** `qstr`: ints as their decimal text, booleans as 1 or 0, null as the bare
      word NULL, and every string handed to the driver's quoting. */
  function Qstr(quote: Quoter, v: Val): (r: string)
    ensures v.VInt? ==> ParseInt(r) == v.i
    ensures v.VBool? ==> r == (if v.b then "1" else "0")
    ensures v.VNull? ==> r == "NULL"
    ensures v.VStr? ==> r == quote(v.s)
  {
    match v
    case VInt(i) => IntToStringRoundTrip(i); IntToString(i)
    case VBool(b) => if b then "1" else "0"
    case VNull => "NULL"
    case VStr(s) => quote(s)
  }

  /** Qstr never consults the driver for anything but a string. */
  lemma QstrScalarsIgnoreDriver(q1: Quoter, q2: Quoter, v: Val)
    requires !v.VStr?
    ensures Qstr(q1, v) == Qstr(q2, v)
  {
  }

  /** Two different ints never render to the same literal. */
  lemma QstrIntInjective(quote: Quoter, i: int, j: int)
    requires Qstr(quote, VInt(i)) == Qstr(quote, VInt(j))
    ensures i == j
  {
  }

  /** The `$limit` argument: null/absent, a scalar length, or a pair
      (offset, length). Only integer entries are modelled. */
  datatype Limit = NoLimit | Length(len: int) | Window(skip: int, len: int)

  /** PHP `empty($limit)`: null or the integer 0; a two-element array never is. */
  predicate EmptyLimit(limit: Limit)
  {
    limit.NoLimit? || (limit.Length? && limit.len == 0)
  }

  function Skip(limit: Limit): int
  {
    if limit.Window? then limit.skip else 0
  }

  /** `sql_limit`: an empty limit leaves the SQL unchanged; otherwise
      ` LIMIT skip, len` is appended, skip being 0 for a scalar limit. */
  function SqlLimit(sql: string, limit: Limit): (r: string)
    ensures StartsWith(r, sql)
    ensures EmptyLimit(limit) ==> r == sql
    ensures !EmptyLimit(limit) ==>
      r[|sql|..] == " LIMIT " + IntToString(Skip(limit)) + ", " + IntToString(limit.len)
  {
    if EmptyLimit(limit) then sql
    else sql + " LIMIT " + IntToString(Skip(limit)) + ", " + IntToString(limit.len)
  }

  /** The numbers after LIMIT read back as the offset and the length asked for. */
  lemma SqlLimitReadsBack(sql: string, limit: Limit)
    requires !EmptyLimit(limit)
    ensures var tail := SqlLimit(sql, limit)[|sql| + 7..];
            var parts := Split(tail, ',');
            |parts| == 2 && ParseInt(parts[0]) == Skip(limit) && |parts[1]| > 0 &&
            ParseInt(parts[1][1..]) == limit.len
  {
    var a, b := IntToString(Skip(limit)), IntToString(limit.len);
    LimitTail(sql, limit);
    NoCommaInInt(Skip(limit));
    NoCommaInInt(limit.len);
    SplitPair(a, " " + b, ',');
    IntToStringRoundTrip(Skip(limit));
    IntToStringRoundTrip(limit.len);
    assert (" " + b)[1..] == b;
  }

  lemma LimitTail(sql: string, limit: Limit)
    requires !EmptyLimit(limit)
    ensures SqlLimit(sql, limit)[|sql| + 7..] ==
            IntToString(Skip(limit)) + [','] + (" " + IntToString(limit.len))
  {
    var a, b := IntToString(Skip(limit)), IntToString(limit.len);
    assert SqlLimit(sql, limit)[|sql| + 7..] == a + ", " + b;
    assert a + ", " + b == a + [','] + (" " + b);
  }

  /** Two pieces joined by one separator split back into those pieces. */
  lemma SplitPair(a: string, b: string, c: char)
    requires c !in a && c !in b
    ensures Split(a + [c] + b, c) == [a, b]
  {
    SplitNoSep(b, c);
    SplitAround(a, b, c);
  }

  lemma NoCommaInInt(i: int)
    ensures ',' !in IntToString(i)
  {
    if i < 0 {
      assert IntToString(i) == "-" + NatToString(-i);
    }
  }

  /** `count($sql)`: the count query wraps the given SQL as a derived table. */
  function CountSql(sql: string): (r: string)
    ensures StartsWith(r, "SELECT COUNT(*) FROM ( ")
    ensures |r| == |sql| + 30 && r[23..|r| - 7] == sql && r[|r| - 7..] == " ) AS t"
  {
    "SELECT COUNT(*) FROM ( " + sql + " ) AS t"
  }
}
