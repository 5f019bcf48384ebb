/** The statements `Db_Query` builds: `selectRow`, `select`, `count`,
    `insert`, `update`, `del` and `incrField`, and the reading plan of
    `Db_Actor::read` for many rows (the optional total count and the LIMIT).
    Each statement is a function of its arguments; executing it is not part
    of the model. */
module DbQuery {
  import opened PhpStrings
  import opened PhpValues
  import opened DbDataSource
  import opened DbCondition
  import opened DbIdentifiers
  import opened DbBind
  import DbConditionProperties

  // ---------------------------------------------------------------------
  // The clauses that follow a condition or a sort
  // ---------------------------------------------------------------------

  /** `if ($s) $s = "{kw} {$s}"`, as `WHERE` and `ORDER BY` are added: a text
      that PHP finds false ("" or "0", null being "") is left as it is. The
      text always ends the result, and the keyword with its space is put in
      front of it exactly when the text is truthy. */
  function Introduced(kw: string, s: string): (r: string)
    ensures |r| >= |s| && r[|r| - |s|..] == s
    ensures r == s <==> !Truthy(s)
    ensures r != s ==> |r| == |kw| + 1 + |s| && r[..|kw| + 1] == kw + " "
  {
    if Truthy(s) then kw + " " + s else s
  }

  /** `if ($cond) $sql .= " WHERE {$cond}"`, as `update` and `incrField` do:
      nothing for a condition PHP finds false, otherwise the same WHERE
      clause `select` builds, after a space. */
  function WhereSuffix(cond: string): (r: string)
    ensures r == "" <==> !Truthy(cond)
    ensures r != "" ==> r == " " + Introduced("WHERE", cond)
  {
    if Truthy(cond) then " WHERE " + cond else ""
  }

  // ---------------------------------------------------------------------
  // selectRow / select
  // ---------------------------------------------------------------------

  /** The text both `selectRow` and `select` fill in:
      `SELECT {$qfields} FROM {$table} {$cond} {$sort}`. */
  function SelectText(columns: string, from: string, cond: string, sort: string): string
  {
    "SELECT " + columns + " FROM " + from + " " + Introduced("WHERE", cond) + " " + Introduced("ORDER BY", sort)
  }

  /** `selectRow`: the columns are qualified by the quoted table, the table
      after FROM is left as given. */
  function SelectRowSql(quote: Quoter, table: string, cond: Cond, fields: Fields, sort: string): string
    requires QuotableCond(cond)
  {
    SelectText(QFieldsText(fields, table), table, CompileCond(quote, cond, false), sort)
  }

  /** `select`: as `selectRow`, with the table after FROM quoted. */
  function SelectSql(quote: Quoter, table: string, cond: Cond, fields: Fields, sort: string): string
    requires QuotableCond(cond)
  {
    SelectText(QFieldsText(fields, table), QTable(table), CompileCond(quote, cond, false), sort)
  }

  /** The two statements agree everywhere but at the table after FROM, which
      `select` wraps in backticks and `selectRow` does not. */
  lemma SelectRowTableBare(quote: Quoter, table: string, cond: Cond, fields: Fields, sort: string)
    requires QuotableCond(cond)
    ensures var row, all := SelectRowSql(quote, table, cond, fields, sort), SelectSql(quote, table, cond, fields, sort);
            var k := |QFieldsText(fields, table)| + 13;
            |all| == |row| + 2 && k + |table| <= |row| && all[..k] == row[..k] &&
            all[k..k + |table| + 2] == QTable(table) && all[k + |table| + 2..] == row[k + |table|..]
  {
    FromSlot(QFieldsText(fields, table), table, CompileCond(quote, cond, false), sort);
  }

  /** Where the FROM table sits in the SELECT text. */
  lemma FromSlot(columns: string, from: string, cond: string, sort: string)
    ensures var row, all := SelectText(columns, from, cond, sort), SelectText(columns, QTable(from), cond, sort);
            var k := |columns| + 13;
            |all| == |row| + 2 && k + |from| <= |row| && all[..k] == row[..k] &&
            all[k..k + |from| + 2] == QTable(from) && all[k + |from| + 2..] == row[k + |from|..]
  {
    var head := "SELECT " + columns + " FROM ";
    var tail := " " + Introduced("WHERE", cond) + " " + Introduced("ORDER BY", sort);
    Regroup8("SELECT ", columns, " FROM ", from, " ", Introduced("WHERE", cond), " ", Introduced("ORDER BY", sort));
    Regroup8("SELECT ", columns, " FROM ", QTable(from), " ", Introduced("WHERE", cond), " ", Introduced("ORDER BY", sort));
    Around(head, from, tail);
    Around(head, QTable(from), tail);
  }

  lemma Regroup8(a: string, b: string, c: string, d: string, e: string, f: string, g: string, h: string)
    ensures a + b + c + d + e + f + g + h == (a + b + c) + d + (e + f + g + h)
  {
  }

  /** Cutting a + m + b back into its three parts. */
  lemma Around(a: string, m: string, b: string)
    ensures var s := a + m + b;
            s[..|a|] == a && s[|a|..|a| + |m|] == m && s[|a| + |m|..] == b
  {
  }

  /** With no condition, no sort and the default field list, `select` asks
      for every column of the quoted table (and leaves two spaces where the
      empty clauses were). */
  lemma SelectEverything(quote: Quoter, table: string, fields: string)
    requires table != "" && fields == "*"
    ensures SelectSql(quote, table, Scalar(VNull), FieldText(fields), "") ==
            "SELECT " + QTable(table) + ".* FROM " + QTable(table) + "  "
  {
    QFieldsStar(fields, table);
    assert CompileCond(quote, Scalar(VNull), false) == "";
    EmptyClauses(QTable(table));
  }

  lemma EmptyClauses(q: string)
    ensures SelectText(q + ".*", q, "", "") == "SELECT " + q + ".* FROM " + q + "  "
  {
    assert Introduced("WHERE", "") == "" && Introduced("ORDER BY", "") == "";
    assert "SELECT " + (q + ".*") + " FROM " + q + " " + "" + " " + "" == "SELECT " + q + ".* FROM " + q + "  ";
  }

  /** Looking rows up by one column: the condition `[field => value]`
      turns into `WHERE field = literal`. */
  lemma SelectByColumn(quote: Quoter, table: string, fields: Fields, sort: string, field: string, v: Val)
    ensures QuotableCond(Map([(Str(field), Bare(v))]))
    ensures SelectSql(quote, table, Map([(Str(field), Bare(v))]), fields, sort) ==
            "SELECT " + QFieldsText(fields, table) + " FROM " + QTable(table) + " WHERE " +
            (field + " = " + Qstr(quote, v)) + " " + Introduced("ORDER BY", sort)
  {
    SingleColumn(quote, field, v);
    WhereClause(QFieldsText(fields, table), QTable(table), field + " = " + Qstr(quote, v), sort);
  }

  lemma WhereClause(columns: string, from: string, cond: string, sort: string)
    requires Truthy(cond)
    ensures SelectText(columns, from, cond, sort) ==
            "SELECT " + columns + " FROM " + from + " WHERE " + cond + " " + Introduced("ORDER BY", sort)
  {
  }

  lemma SingleColumn(quote: Quoter, field: string, v: Val)
    ensures QuotableCond(Map([(Str(field), Bare(v))]))
    ensures CompileCond(quote, Map([(Str(field), Bare(v))]), false) == field + " = " + Qstr(quote, v)
    ensures Truthy(field + " = " + Qstr(quote, v))
  {
    assert QuotableTerm(Bare(v));
    DbConditionProperties.LoneScalarEntry(quote, field, v);
    var s := field + " = " + Qstr(quote, v);
    assert s[|field|] == ' ';
  }

  // ---------------------------------------------------------------------
  // Db_Actor::read for many rows
  // ---------------------------------------------------------------------

  /** The statements a read of many rows issues: the optional counting
      statement and the optional statement for the rows. */
  datatype ReadPlan = ReadPlan(countSql: Option<string>, rowsSql: Option<string>)

  /** `read(MODE_READ_GETALL, [sql, limit, counter])`: with a counter the
      total is counted on the statement before any LIMIT; the rows are read
      with the LIMIT applied, and not at all when the counted total is 0.
      `total` stands for what the database answers to the count. */
  function ReadAll(sql: string, limit: Limit, counter: bool, total: int): (plan: ReadPlan)
    ensures plan.countSql.Some? <==> counter
    ensures plan.countSql.Some? ==> plan.countSql.value == CountSql(sql)
    ensures plan.rowsSql.None? <==> counter && total == 0
    ensures plan.rowsSql.Some? ==> plan.rowsSql.value == SqlLimit(sql, limit)
  {
    var countSql := if counter then Some(CountSql(sql)) else None;
    var limited := if !EmptyLimit(limit) then SqlLimit(sql, limit) else sql;
    if countSql.Some? then
      ReadPlan(countSql, if total == 0 then None else Some(limited))
    else ReadPlan(None, Some(limited))
  }

  /** The count is taken of the statement without its LIMIT: whatever limit
      is asked for, the counting statement is the same and wraps the
      original statement. */
  lemma CountIgnoresLimit(sql: string, l1: Limit, l2: Limit, t1: int, t2: int)
    ensures ReadAll(sql, l1, true, t1).countSql == ReadAll(sql, l2, true, t2).countSql
    ensures var c := ReadAll(sql, l1, true, t1).countSql.value;
            c[23..|c| - 7] == sql
  {
  }

  /** The rows statement starts with the original statement, and adds the
      LIMIT clause exactly when a limit is given. */
  lemma RowsStatement(sql: string, limit: Limit, counter: bool, total: int)
    requires !counter || total != 0
    ensures var r := ReadAll(sql, limit, counter, total).rowsSql;
            r.Some? && StartsWith(r.value, sql) && (r.value == sql <==> EmptyLimit(limit))
  {
    if !EmptyLimit(limit) {
      assert |SqlLimit(sql, limit)| > |sql| by {
        assert SqlLimit(sql, limit)[|sql|..][0] == ' ';
      }
    }
  }

  /** `select` with its limit and total flag: `empty($limit) ? false : $limit`
      is handed on, and the statement read is the `select` statement. */
  function SelectPlan(quote: Quoter, table: string, cond: Cond, fields: Fields, sort: string,
                      limit: Limit, calcTotal: bool, total: int): ReadPlan
    requires QuotableCond(cond)
  {
    ReadAll(SelectSql(quote, table, cond, fields, sort),
            if EmptyLimit(limit) then NoLimit else limit, calcTotal, total)
  }

  /** Turning an empty limit into `false` changes nothing: the plan is the
      one for the limit as given. */
  lemma SelectPlanLimit(quote: Quoter, table: string, cond: Cond, fields: Fields, sort: string,
                        limit: Limit, calcTotal: bool, total: int)
    requires QuotableCond(cond)
    ensures SelectPlan(quote, table, cond, fields, sort, limit, calcTotal, total) ==
            ReadAll(SelectSql(quote, table, cond, fields, sort), limit, calcTotal, total)
  {
    EmptyLimitIsNone(SelectSql(quote, table, cond, fields, sort), limit, calcTotal, total);
  }

  lemma EmptyLimitIsNone(sql: string, limit: Limit, counter: bool, total: int)
    ensures ReadAll(sql, if EmptyLimit(limit) then NoLimit else limit, counter, total) ==
            ReadAll(sql, limit, counter, total)
  {
  }

  // ---------------------------------------------------------------------
  // count
  // ---------------------------------------------------------------------

  /** The counted expression: `*` for null or a (padded) star, otherwise
      the quoted field list. */
  function CountedFields(table: string, fields: Option<string>): string
  {
    if fields.None? || Trim(fields.value) == "*" then "*"
    else QFieldsText(FieldText(fields.value), table)
  }

  /** The text `count` fills in:
      `SELECT COUNT({$distinct}{$fields}) FROM {$table} {$cond}`. */
  function CountText(distinct: string, columns: string, from: string, cond: string): string
  {
    "SELECT COUNT(" + distinct + columns + ") FROM " + from + " " + Introduced("WHERE", cond)
  }

  /** `Db_Query::count`; a false `$distinct` interpolates as nothing. */
  function CountQuerySql(quote: Quoter, table: string, cond: Cond, fields: Option<string>, distinct: bool): string
    requires QuotableCond(cond)
  {
    CountText(if distinct then "DISTINCT " else "", CountedFields(table, fields), QTable(table),
              CompileCond(quote, cond, false))
  }

  /** A star with spaces around it counts rows, like a null field list. */
  lemma CountPaddedStar(quote: Quoter, table: string, cond: Cond, fields: string, distinct: bool)
    requires QuotableCond(cond)
    requires Trim(fields) == "*"
    ensures CountQuerySql(quote, table, cond, Some(fields), distinct) ==
            CountQuerySql(quote, table, cond, None, distinct)
  {
  }

  /** DISTINCT only puts its keyword in front of the counted expression. */
  lemma CountDistinct(quote: Quoter, table: string, cond: Cond, fields: Option<string>)
    requires QuotableCond(cond)
    ensures var plain := CountQuerySql(quote, table, cond, fields, false);
            |plain| >= 13 &&
            CountQuerySql(quote, table, cond, fields, true) == plain[..13] + "DISTINCT " + plain[13..]
  {
    DistinctSlot(CountedFields(table, fields), QTable(table), CompileCond(quote, cond, false));
  }

  lemma DistinctSlot(columns: string, from: string, cond: string)
    ensures var plain := CountText("", columns, from, cond);
            |plain| >= 13 &&
            CountText("DISTINCT ", columns, from, cond) == plain[..13] + "DISTINCT " + plain[13..]
  {
    var rest := columns + ") FROM " + from + " " + Introduced("WHERE", cond);
    var h := "SELECT COUNT(";
    CountSplit("", columns, from, cond);
    CountSplit("DISTINCT ", columns, from, cond);
    assert h + "" == h;
    Insertion(h, "DISTINCT ", rest);
  }

  lemma CountSplit(d: string, columns: string, from: string, cond: string)
    ensures CountText(d, columns, from, cond) ==
            "SELECT COUNT(" + d + (columns + ") FROM " + from + " " + Introduced("WHERE", cond))
  {
    Regroup5("SELECT COUNT(" + d, columns, ") FROM ", from, " ", Introduced("WHERE", cond));
  }

  lemma Regroup5(h: string, a: string, b: string, c: string, e: string, f: string)
    ensures h + a + b + c + e + f == h + (a + b + c + e + f)
  {
  }

  /** Text inserted at the end of a prefix h of h + rest. */
  lemma Insertion(h: string, d: string, rest: string)
    ensures |h + rest| >= |h|
    ensures h + d + rest == (h + rest)[..|h|] + d + (h + rest)[|h|..]
  {
    assert (h + rest)[..|h|] == h && (h + rest)[|h|..] == rest;
  }

  // ---------------------------------------------------------------------
  // insert / update
  // ---------------------------------------------------------------------

  /** The values of a row in order (`foreach ($inputarr as $value)`). */
  function RowValues(row: Row): (vs: seq<Val>)
    ensures |vs| == |row|
    ensures forall k :: 0 <= k < |row| ==> vs[k] == row[k].1
  {
    seq(|row|, k requires 0 <= k < |row| => row[k].1)
  }

  /** The keys of a row as text (`array_keys`). */
  function KeyTexts(row: Row): (ks: seq<string>)
    ensures |ks| == |row|
    ensures forall k :: 0 <= k < |row| ==> ks[k] == KeyText(row[k].0)
  {
    seq(|row|, k requires 0 <= k < |row| => KeyText(row[k].0))
  }

  /** The INSERT template: the quoted columns of the placeholder entries and
      one `?` for each. */
  function InsertTemplate(table: string, row: Row): string
  {
    var values := Kept(row, None);
    "INSERT INTO " + QTable(table) + " (" + QFieldsText(FieldArray(KeyTexts(values)), "") +
    ") VALUES (" + Join(",", Holders(values)) + ")"
  }

  /** `insert`: the template bound to the row's values. */
  function InsertSql(quote: Quoter, table: string, row: Row): string
  {
    BindSql(quote, InsertTemplate(table, row), RowValues(row))
  }

  /** The UPDATE template: `column=?` for every entry of the row. */
  function UpdateTemplate(table: string, row: Row): string
  {
    "UPDATE " + QTable(table) + " SET " + Join(",", Pairs(Kept(row, None)))
  }

  /** `update`: nothing for an empty row; otherwise the template bound to
      the row's values, and then the condition, which is not bound. */
  function UpdateSql(quote: Quoter, table: string, row: Row, cond: Cond): Option<string>
    requires QuotableCond(cond)
  {
    if row == [] then None
    else Some(BindSql(quote, UpdateTemplate(table, row), RowValues(row)) +
              WhereSuffix(CompileCond(quote, cond, false)))
  }

  /** No name holds a `?`: then the marks of a template are exactly its
      placeholders. */
  predicate NoMarks(table: string, row: Row)
  {
    '?' !in table && forall k :: 0 <= k < |row| ==> '?' !in KeyText(row[k].0)
  }

  /** When no name holds a `?`, an INSERT lists every column of the row and,
      in the same order, the literal of every value. */
  lemma InsertShape(quote: Quoter, table: string, row: Row)
    requires NoMarks(table, row)
    ensures InsertSql(quote, table, row) ==
            "INSERT INTO " + QTable(table) + " (" + QFieldsText(FieldArray(KeyTexts(row)), "") +
            ") VALUES (" + Join(",", Literals(quote, RowValues(row))) + ")"
  {
    KeptAll(row);
    var cols := QFieldsText(FieldArray(KeyTexts(row)), "");
    var head := "INSERT INTO " + QTable(table) + " (" + cols + ") VALUES (";
    NamesNoMarks(KeyTexts(row));
    InsertHead(table, cols);
    var pre := seq(|row|, k => "");
    HolderList(pre, row);
    FilledEmpty(pre, Literals(quote, RowValues(row)));
    BindTemplate(quote, head, ",", pre, RowValues(row), ")");
  }

  lemma InsertHead(table: string, cols: string)
    requires '?' !in table && '?' !in cols
    ensures '?' !in "INSERT INTO " + QTable(table) + " (" + cols + ") VALUES ("
  {
  }

  /** When no name holds a `?`, an UPDATE sets every column of the row to
      its value's literal, in order, and the condition follows unbound. */
  lemma UpdateShape(quote: Quoter, table: string, row: Row, cond: Cond)
    requires QuotableCond(cond)
    requires NoMarks(table, row) && row != []
    ensures UpdateSql(quote, table, row, cond) ==
            Some("UPDATE " + QTable(table) + " SET " +
                 Join(",", Filled(SetColumns(row), Literals(quote, RowValues(row)))) +
                 WhereSuffix(CompileCond(quote, cond, false)))
  {
    UpdateBinding(quote, table, row);
  }

  lemma UpdateBinding(quote: Quoter, table: string, row: Row)
    requires NoMarks(table, row)
    ensures BindSql(quote, UpdateTemplate(table, row), RowValues(row)) ==
            "UPDATE " + QTable(table) + " SET " + Join(",", Filled(SetColumns(row), Literals(quote, RowValues(row))))
  {
    KeptAll(row);
    var head := "UPDATE " + QTable(table) + " SET ";
    assert '?' !in head;
    PairList(row);
    BindTemplate(quote, head, ",", SetColumns(row), RowValues(row), "");
    assert UpdateTemplate(table, row) + "" == UpdateTemplate(table, row);
  }

  /** The `column=` text in front of each mark of an UPDATE. */
  function SetColumns(row: Row): (cols: seq<string>)
    ensures |cols| == |row|
    ensures forall k :: 0 <= k < |row| ==> cols[k] == QField(KeyText(row[k].0), "") + "="
  {
    seq(|row|, k requires 0 <= k < |row| => QField(KeyText(row[k].0), "") + "=")
  }

  /** An UPDATE of an empty row is refused; any other row gives a statement. */
  lemma UpdateNeedsRow(quote: Quoter, table: string, row: Row, cond: Cond)
    requires QuotableCond(cond)
    ensures UpdateSql(quote, table, row, cond).None? <==> row == []
  {
  }

  /** The condition is added after binding, so marks in it are kept. */
  lemma UpdateCondUnbound(quote: Quoter, table: string, row: Row, cond: Cond)
    requires QuotableCond(cond) && row != []
    ensures var w := CompileCond(quote, cond, false);
            var s := UpdateSql(quote, table, row, cond).value;
            Truthy(w) ==> |s| >= |w| + 7 && s[|s| - |w| - 7..] == " WHERE " + w
  {
  }

  /** A fixed text, a list of marked items under a separator and a fixed
      tail, none with marks of their own, bind item by item. */
  lemma BindTemplate(quote: Quoter, head: string, sep: string, pre: seq<string>, values: seq<Val>, tail: string)
    requires |values| == |pre|
    requires forall k :: 0 <= k < |pre| ==> '?' !in pre[k]
    requires '?' !in head && '?' !in sep && '?' !in tail
    ensures BindSql(quote, head + Join(sep, Marked(pre)) + tail, values) ==
            head + Join(sep, Filled(pre, Literals(quote, values))) + tail
  {
    var j, f := Join(sep, Marked(pre)), Join(sep, Filled(pre, Literals(quote, values)));
    BindList(quote, sep, pre, values, tail);
    BindBehind(quote, head, j + tail, values, f + tail);
    DbConditionProperties.Assoc(head, j, tail);
    DbConditionProperties.Assoc(head, f, tail);
  }

  lemma HolderList(pre: seq<string>, row: Row)
    requires |row| == |pre|
    requires forall k :: 0 <= k < |pre| ==> pre[k] == ""
    ensures Marked(pre) == Holders(row)
  {
    assert forall k :: 0 <= k < |pre| ==> pre[k] + "?" == "?";
  }

  lemma FilledEmpty(pre: seq<string>, lits: seq<string>)
    requires |lits| == |pre|
    requires forall k :: 0 <= k < |pre| ==> pre[k] == ""
    ensures Filled(pre, lits) == lits
  {
    assert forall k :: 0 <= k < |pre| ==> pre[k] + lits[k] == lits[k];
  }

  lemma PairList(row: Row)
    requires forall k :: 0 <= k < |row| ==> '?' !in KeyText(row[k].0)
    ensures Pairs(row) == Marked(SetColumns(row))
    ensures forall k :: 0 <= k < |row| ==> '?' !in SetColumns(row)[k]
  {
    forall k | 0 <= k < |row|
      ensures Pairs(row)[k] == Marked(SetColumns(row))[k]
      ensures '?' !in SetColumns(row)[k]
    {
      PairOneMark(row[k]);
    }
  }

  /** Quoted names without marks join to a text without marks. */
  lemma NamesNoMarks(names: seq<string>)
    requires forall k :: 0 <= k < |names| ==> '?' !in names[k]
    ensures '?' !in QFieldsText(FieldArray(names), "")
  {
    var q := QFieldList(names, "");
    assert forall k :: 0 <= k < |q| ==> '?' !in q[k] by {
      forall k | 0 <= k < |q| ensures '?' !in q[k] {
        assert q[k] == FieldPart(names[k]);
      }
    }
    JoinNoMarks(", ", q);
  }

  lemma {:induction false} JoinNoMarks(sep: string, parts: seq<string>)
    requires '?' !in sep
    requires forall k :: 0 <= k < |parts| ==> '?' !in parts[k]
    ensures '?' !in Join(sep, parts)
    decreases |parts|
  {
    if |parts| > 1 {
      JoinNoMarks(sep, parts[..|parts| - 1]);
    }
  }

  // ---------------------------------------------------------------------
  // del / incrField
  // ---------------------------------------------------------------------

  /** `del`: the condition, when PHP finds it non-empty, follows `WHERE`;
      the space after the table is always there. */
  function DelSql(quote: Quoter, table: string, cond: Cond): string
    requires QuotableCond(cond)
  {
    var c := CompileCond(quote, cond, false);
    "DELETE FROM " + QTable(table) + " " + (if EmptyVal(VStr(c)) then "" else "WHERE " + c)
  }

  /** Without a condition (null, false, 0, "", "0", an empty array, or any
      scalar that is not a string) every row of the table is deleted; a
      raw SQL condition follows `WHERE` verbatim. */
  lemma DelShape(quote: Quoter, table: string, cond: Cond)
    requires QuotableCond(cond)
    ensures EmptyCond(cond) || (cond.Scalar? && !cond.v.VStr?) ==>
            DelSql(quote, table, cond) == "DELETE FROM " + QTable(table) + " "
    ensures cond.Scalar? && cond.v.VStr? && !EmptyCond(cond) ==>
            DelSql(quote, table, cond) == "DELETE FROM " + QTable(table) + " WHERE " + cond.v.s
  {
    DelClause(QTable(table), CompileCond(quote, cond, false));
  }

  /** Deleting by one column: `[field => value]` becomes
      `WHERE field = literal`. */
  lemma DelByColumn(quote: Quoter, table: string, field: string, v: Val)
    ensures QuotableCond(Map([(Str(field), Bare(v))]))
    ensures DelSql(quote, table, Map([(Str(field), Bare(v))])) ==
            "DELETE FROM " + QTable(table) + " WHERE " + (field + " = " + Qstr(quote, v))
  {
    SingleColumn(quote, field, v);
    DelClause(QTable(table), field + " = " + Qstr(quote, v));
  }

  lemma DelClause(t: string, c: string)
    ensures var s := "DELETE FROM " + t + " " + (if EmptyVal(VStr(c)) then "" else "WHERE " + c);
            (!Truthy(c) ==> s == "DELETE FROM " + t + " ") &&
            (Truthy(c) ==> s == "DELETE FROM " + t + " WHERE " + c)
  {
    if Truthy(c) {
      assert " " + "WHERE " == " WHERE ";
    }
  }

  /** `incrField`: nothing for an empty field name; otherwise the column is
      set to itself plus the increment, then the condition follows. */
  function IncrFieldSql(quote: Quoter, table: string, field: string, incr: int, cond: Cond): Option<string>
    requires QuotableCond(cond)
  {
    if EmptyVal(VStr(field)) then None
    else
      var f := QField(field, "");
      Some("UPDATE " + QTable(table) + " SET " + f + "=" + f + "+" + IntToString(incr) +
           WhereSuffix(CompileCond(quote, cond, false)))
  }

  /** A statement is made exactly for a non-empty field name, and the
      increment in it reads back as the number asked for. */
  lemma IncrFieldShape(quote: Quoter, table: string, field: string, incr: int, cond: Cond)
    requires QuotableCond(cond)
    ensures IncrFieldSql(quote, table, field, incr, cond).Some? <==> field != "" && field != "0"
    ensures IncrFieldSql(quote, table, field, incr, cond).Some? ==>
            var f := QField(field, "");
            var head := "UPDATE " + QTable(table) + " SET " + f + "=" + f + "+";
            var s := IncrFieldSql(quote, table, field, incr, cond).value;
            var w := WhereSuffix(CompileCond(quote, cond, false));
            |s| == |head| + |IntToString(incr)| + |w| && s[..|head|] == head &&
            ParseInt(s[|head|..|s| - |w|]) == incr && s[|s| - |w|..] == w
  {
    if !EmptyVal(VStr(field)) {
      var f := QField(field, "");
      var head := "UPDATE " + QTable(table) + " SET " + f + "=" + f + "+";
      var w := WhereSuffix(CompileCond(quote, cond, false));
      Around(head, IntToString(incr), w);
      IntToStringRoundTrip(incr);
    }
  }
}
