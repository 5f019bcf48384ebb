/** Identifier quoting and placeholder lists of `Db_SqlHelper`: `qtable`,
    `qfield`, `qfields`, `placeholder` and `placeholderPair`. Table and
    column names are wrapped in backticks; a row (an associative array of
    column => value, in insertion order) becomes a list of `?` holders or of
    `column=?` pairs, optionally restricted to a list of column names. */
module DbIdentifiers {
  import opened PhpStrings
  import opened PhpValues

  // ---------------------------------------------------------------------
  // qtable / qfield / qfields
  // ---------------------------------------------------------------------

  /** `qtable`: the name between backticks, nothing escaped. */
  function QTable(name: string): (r: string)
    ensures |r| == |name| + 2
    ensures r[0] == '`' && r[|r| - 1] == '`' && r[1..|r| - 1] == name
  {
    "`" + name + "`"
  }

  /** Taking the backticks off again gives the name back. */
  lemma QTableInjective(a: string, b: string)
    requires QTable(a) == QTable(b)
    ensures a == b
  {
    assert a == QTable(a)[1..|QTable(a)| - 1];
  }

  /** The column part of `qfield`: `*` stays bare, any other name is quoted. */
  function FieldPart(name: string): (r: string)
    ensures name == "*" ==> r == "*"
    ensures name != "*" ==> r == QTable(name)
    ensures '?' !in name ==> '?' !in r
  {
    if name == "*" then "*" else QTable(name)
  }

  /** `qfield`: the column part, preceded by the quoted table and a dot when
      a table name is given (PHP `$table != ''`, null counting as empty). */
  function QField(name: string, table: string): (r: string)
    ensures table == "" ==> r == FieldPart(name)
    ensures table != "" ==> r == QTable(table) + "." + FieldPart(name)
  {
    if table != "" then QTable(table) + "." + FieldPart(name) else FieldPart(name)
  }

  /** A quoted column name can be read back from the end of the field,
      between its closing backtick and the one before the name; `*` is the
      field's last character. */
  lemma QFieldReadBack(name: string, table: string)
    ensures var r := QField(name, table);
            (name == "*" ==> r[|r| - 1] == '*') &&
            (name != "*" ==> |r| >= |name| + 2 && r[|r| - |name| - 1..|r| - 1] == name &&
                             r[|r| - |name| - 2] == '`' && r[|r| - 1] == '`')
  {
    var c := FieldPart(name);
    var r := QField(name, table);
    assert r[|r| - |c|..] == c;
  }

  /** A qualified field never equals an unqualified one, and the table part
      can be read back from its front. */
  lemma QFieldQualified(name: string, table: string)
    requires table != ""
    ensures StartsWith(QField(name, table), QTable(table) + ".")
    ensures QField(name, table) != QField(name, "")
  {
    var r := QField(name, table);
    assert r[..|table| + 3] == QTable(table) + ".";
    if name == "*" {
      assert |r| > 1;
    } else {
      assert |r| == |QField(name, "")| + |table| + 3;
    }
  }

  /** The `$fields` argument: a comma-separated string, or an array of names. */
  datatype Fields = FieldText(s: string) | FieldArray(names: seq<string>)

  /** The names `qfields` quotes: a string is exploded on commas and every
      piece trimmed; an array is taken as it is. */
  function FieldNames(f: Fields): (names: seq<string>)
    ensures f.FieldText? ==> |names| == Count(',', f.s) + 1
    ensures f.FieldText? ==> forall k :: 0 <= k < |names| ==> names[k] == Trim(Split(f.s, ',')[k])
    ensures f.FieldArray? ==> names == f.names
  {
    match f
    case FieldText(s) =>
      var pieces := Split(s, ',');
      seq(|pieces|, k requires 0 <= k < |pieces| => Trim(pieces[k]))
    case FieldArray(ns) => ns
  }

  function QFieldList(names: seq<string>, table: string): (r: seq<string>)
    ensures |r| == |names|
    ensures forall k :: 0 <= k < |names| ==> r[k] == QField(names[k], table)
  {
    seq(|names|, k requires 0 <= k < |names| => QField(names[k], table))
  }

  /** What `qfields` returns when no array is asked for: every name quoted,
      joined by a comma and a space. */
  function QFieldsText(f: Fields, table: string): string
  {
    Join(", ", QFieldList(FieldNames(f), table))
  }

  /** `qfields`: the loop that quotes the names one by one. */
  method QFields(fields: Fields, table: string) returns (r: string)
    ensures r == QFieldsText(fields, table)
  {
    var names := FieldNames(fields);
    var quoted: seq<string> := [];
    var i := 0;
    while i < |names|
      invariant 0 <= i <= |names|
      invariant quoted == QFieldList(names[..i], table)
    {
      QFieldListSnoc(names, i, table);
      quoted := quoted + [QField(names[i], table)];
      i := i + 1;
    }
    assert names[..i] == names;
    r := Join(", ", quoted);
  }

  /** A string without commas names exactly one field, its trimmed text. */
  lemma QFieldsSingle(s: string, table: string)
    requires ',' !in s
    ensures QFieldsText(FieldText(s), table) == QField(Trim(s), table)
  {
    SplitNoSep(s, ',');
    assert FieldNames(FieldText(s)) == [Trim(s)];
  }

  /** The default `'*'` selects every column, qualified by the table when
      one is given. */
  lemma QFieldsStar(fields: string, table: string)
    requires fields == "*"
    ensures table == "" ==> QFieldsText(FieldText(fields), table) == "*"
    ensures table != "" ==> QFieldsText(FieldText(fields), table) == QTable(table) + ".*"
  {
    StarName();
    QFieldsSingle(fields, table);
    if table != "" {
      DotStar(QTable(table));
    }
  }

  lemma DotStar(t: string)
    ensures t + "." + "*" == t + ".*"
  {
  }

  lemma StarName()
    ensures ',' !in "*" && Trim("*") == "*"
  {
    var s := "*";
    assert s[0] == '*' && |s| == 1;
    TrimUnpadded(s);
  }

  /** The first comma-separated name comes first in the list, and the rest
      of the string supplies the rest. */
  lemma QFieldsCons(a: string, b: string, table: string)
    requires ',' !in a
    ensures QFieldsText(FieldText(a + "," + b), table) ==
            QField(Trim(a), table) + ", " + QFieldsText(FieldText(b), table)
  {
    var rest := QFieldList(FieldNames(FieldText(b)), table);
    FieldNamesCons(a, b);
    QFieldListCons(Trim(a), FieldNames(FieldText(b)), table);
    JoinCons(", ", QField(Trim(a), table), rest);
  }

  lemma FieldNamesCons(a: string, b: string)
    requires ',' !in a
    ensures FieldNames(FieldText(a + "," + b)) == [Trim(a)] + FieldNames(FieldText(b))
  {
    CommaSplit(a, b);
    var l, r := FieldNames(FieldText(a + "," + b)), [Trim(a)] + FieldNames(FieldText(b));
    assert |l| == |r|;
    forall k | 0 <= k < |l| ensures l[k] == r[k] {
      if k > 0 {
        assert Split(a + "," + b, ',')[k] == Split(b, ',')[k - 1];
      }
    }
  }

  lemma QFieldListCons(x: string, names: seq<string>, table: string)
    ensures QFieldList([x] + names, table) == [QField(x, table)] + QFieldList(names, table)
  {
    var l, r := QFieldList([x] + names, table), [QField(x, table)] + QFieldList(names, table);
    forall k | 0 <= k < |l| ensures l[k] == r[k] {
      if k > 0 {
        assert ([x] + names)[k] == names[k - 1];
      }
    }
  }

  lemma QFieldListSnoc(names: seq<string>, i: nat, table: string)
    requires i < |names|
    ensures QFieldList(names[..i + 1], table) == QFieldList(names[..i], table) + [QField(names[i], table)]
  {
    var l, r := QFieldList(names[..i + 1], table), QFieldList(names[..i], table) + [QField(names[i], table)];
    forall k | 0 <= k < |l| ensures l[k] == r[k] {
      QFieldListAt(names, i, table, k);
    }
  }

  lemma QFieldListAt(names: seq<string>, i: nat, table: string, k: nat)
    requires k <= i < |names|
    ensures QFieldList(names[..i + 1], table)[k] == (QFieldList(names[..i], table) + [QField(names[i], table)])[k]
  {
    assert names[..i + 1][k] == names[k];
    if k < i {
      assert names[..i][k] == names[k];
    }
  }

  lemma CommaSplit(a: string, b: string)
    requires ',' !in a
    ensures Split(a + "," + b, ',') == [a] + Split(b, ',')
  {
    assert a + "," + b == a + [','] + b;
    SplitAround(a, b, ',');
  }

  // ---------------------------------------------------------------------
  // placeholder / placeholderPair
  // ---------------------------------------------------------------------

  /** A PHP associative array of column => value, in insertion order. */
  type Row = seq<(Key, Val)>

  function LowerAll(names: seq<string>): (r: seq<string>)
    ensures |r| == |names|
    ensures forall k :: 0 <= k < |names| ==> r[k] == Lower(names[k])
  {
    seq(|names|, k requires 0 <= k < |names| => Lower(names[k]))
  }

  /** Whether a key survives the optional `$fields` filter: with no filter
      every key does; otherwise the lower-cased key must be one of the
      lower-cased names (the flipped, key-lower-cased `$fields`). */
  predicate Selected(filter: Option<seq<string>>, k: Key)
  {
    filter.None? || Lower(KeyText(k)) in LowerAll(filter.value)
  }

  /** The entries a placeholder list is made for, in the row's order. */
  function Kept(row: Row, filter: Option<seq<string>>): (r: Row)
    ensures |r| <= |row|
    decreases |row|
  {
    if row == [] then []
    else (if Selected(filter, row[0].0) then [row[0]] else []) + Kept(row[1..], filter)
  }

  /** An entry is kept exactly when it is in the row and its key passes
      the filter. */
  lemma {:induction false} KeptMembers(row: Row, filter: Option<seq<string>>, e: (Key, Val))
    ensures e in Kept(row, filter) <==> e in row && Selected(filter, e.0)
    decreases |row|
  {
    if row != [] {
      KeptMembers(row[1..], filter, e);
      assert e in row <==> e == row[0] || e in row[1..] by {
        assert row == [row[0]] + row[1..];
      }
    }
  }

  /** Filtering a concatenation filters each part, so the kept entries keep
      their relative order. */
  lemma {:induction false} KeptAppend(a: Row, b: Row, filter: Option<seq<string>>)
    ensures Kept(a + b, filter) == Kept(a, filter) + Kept(b, filter)
    decreases |a|
  {
    if a != [] {
      KeptAppend(a[1..], b, filter);
      KeptCons(a, b, filter);
      RowAssoc(if Selected(filter, a[0].0) then [a[0]] else [], Kept(a[1..], filter), Kept(b, filter));
    } else {
      assert a + b == b;
    }
  }

  lemma KeptCons(a: Row, b: Row, filter: Option<seq<string>>)
    requires a != []
    ensures var h := if Selected(filter, a[0].0) then [a[0]] else [];
            Kept(a + b, filter) == h + Kept(a[1..] + b, filter)
  {
    assert (a + b)[0] == a[0];
    assert (a + b)[1..] == a[1..] + b;
  }

  lemma RowAssoc(h: Row, x: Row, y: Row)
    ensures h + (x + y) == h + x + y
  {
  }

  /** Without a filter nothing is dropped. */
  lemma {:induction false} KeptAll(row: Row)
    ensures Kept(row, None) == row
    decreases |row|
  {
    if row != [] {
      KeptAll(row[1..]);
    }
  }

  function Holders(r: Row): (h: seq<string>)
    ensures |h| == |r|
    ensures forall k :: 0 <= k < |h| ==> h[k] == "?"
  {
    seq(|r|, k requires 0 <= k < |r| => "?")
  }

  /** The `column=?` text of one entry (`qfield` of the key, no table). */
  function Pair(e: (Key, Val)): string
  {
    QField(KeyText(e.0), "") + "=?"
  }

  function Pairs(r: Row): (p: seq<string>)
    ensures |p| == |r|
    ensures forall k :: 0 <= k < |r| ==> p[k] == Pair(r[k])
  {
    seq(|r|, k requires 0 <= k < |r| => Pair(r[k]))
  }

  /** A pair names its column and leaves one `?` to bind, as long as the
      column name holds no `?` of its own. */
  lemma PairOneMark(e: (Key, Val))
    requires '?' !in KeyText(e.0)
    ensures Count('?', Pair(e)) == 1
    ensures Pair(e) == QField(KeyText(e.0), "") + "=" + "?"
  {
    var f := QField(KeyText(e.0), "");
    assert '?' !in f + "=";
    CountNone(f + "=");
    CountAppend(f + "=", "?");
    assert Count('?', "?") == 1;
    assert Pair(e) == (f + "=") + "?";
  }

  lemma {:induction false} CountNone(s: string)
    requires '?' !in s
    ensures Count('?', s) == 0
    decreases |s|
  {
    if s != [] {
      CountNone(s[1..]);
    }
  }

  lemma {:induction false} CountAppend(a: string, b: string)
    ensures Count('?', a + b) == Count('?', a) + Count('?', b)
    decreases |a|
  {
    if a != [] {
      assert (a + b)[0] == a[0];
      assert (a + b)[1..] == a[1..] + b;
      CountAppend(a[1..], b);
    } else {
      assert a + b == b;
    }
  }

  /** One more entry of the row: it is kept or not, as the filter says. */
  lemma KeptStep(row: Row, i: nat, filter: Option<seq<string>>)
    requires i < |row|
    ensures Kept(row[..i + 1], filter) ==
            Kept(row[..i], filter) + (if Selected(filter, row[i].0) then [row[i]] else [])
  {
    assert row[..i + 1] == row[..i] + [row[i]];
    KeptAppend(row[..i], [row[i]], filter);
    assert Kept([row[i]], filter) == (if Selected(filter, row[i].0) then [row[i]] else []) + [];
  }

  /** `placeholder`: one `?` per kept entry, and the kept entries. */
  method Placeholder(row: Row, filter: Option<seq<string>>)
    returns (holders: seq<string>, values: Row)
    ensures values == Kept(row, filter)
    ensures holders == Holders(values)
  {
    var lowered := if filter.Some? then LowerAll(filter.value) else [];
    holders, values := [], [];
    var i := 0;
    while i < |row|
      invariant 0 <= i <= |row|
      invariant values == Kept(row[..i], filter)
      invariant holders == Holders(values)
    {
      KeptStep(row, i, filter);
      if filter.None? || Lower(KeyText(row[i].0)) in lowered {
        holders := holders + ["?"];
        values := values + [row[i]];
      }
      i := i + 1;
    }
    assert row[..i] == row;
  }

  /** `placeholderPair`: one `column=?` per kept entry, and the kept entries. */
  method PlaceholderPair(row: Row, filter: Option<seq<string>>)
    returns (pairs: seq<string>, values: Row)
    ensures values == Kept(row, filter)
    ensures pairs == Pairs(values)
  {
    var lowered := if filter.Some? then LowerAll(filter.value) else [];
    pairs, values := [], [];
    var i := 0;
    while i < |row|
      invariant 0 <= i <= |row|
      invariant values == Kept(row[..i], filter)
      invariant pairs == Pairs(values)
    {
      KeptStep(row, i, filter);
      if filter.None? || Lower(KeyText(row[i].0)) in lowered {
        PairsAppend(values, row[i]);
        pairs := pairs + [QField(KeyText(row[i].0), "") + "=?"];
        values := values + [row[i]];
      }
      i := i + 1;
    }
    assert row[..i] == row;
  }

  lemma PairsAppend(r: Row, e: (Key, Val))
    ensures Pairs(r + [e]) == Pairs(r) + [QField(KeyText(e.0), "") + "=?"]
  {
    assert Pairs(r + [e])[|r|] == Pair(e);
  }
}
