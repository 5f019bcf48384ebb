/** `Db_SqlHelper::bind`: filling the `?` marks of an SQL template with
    the `qstr` literals of a list of values, in order. The template is
    exploded on `?`; its first piece starts the result, and every value,
    while pieces remain, appends its literal and the next piece. Values with
    no mark left are ignored, and once the values run out the rest of the
    template (from the first unfilled mark on) is dropped. */
module DbBind {
  import opened PhpStrings
  import opened PhpValues
  import opened DbDataSource

  /** The meaning of `bind`, read character by character: text is copied,
      each `?` takes the literal of the next value, and a `?` with no value
      left ends the statement. */
  function BindSql(quote: Quoter, sql: string, values: seq<Val>): string
    decreases |sql|
  {
    if sql == [] then ""
    else if sql[0] == '?' then
      if values == [] then "" else Qstr(quote, values[0]) + BindSql(quote, sql[1..], values[1..])
    else [sql[0]] + BindSql(quote, sql[1..], values)
  }

  /** What the loop appends after the first piece: a literal and a piece for
      each value, as long as both last. */
  function Fill(quote: Quoter, pieces: seq<string>, values: seq<Val>): string
    decreases |values|
  {
    if pieces == [] || values == [] then ""
    else Qstr(quote, values[0]) + pieces[0] + Fill(quote, pieces[1..], values[1..])
  }

  /** The exploded template and the character reading agree. */
  lemma {:induction false} FillSplit(quote: Quoter, sql: string, values: seq<Val>)
    ensures var pieces := Split(sql, '?');
            BindSql(quote, sql, values) == pieces[0] + Fill(quote, pieces[1..], values)
    decreases |sql|
  {
    if sql != [] {
      if sql[0] == '?' {
        if values != [] {
          FillSplit(quote, sql[1..], values[1..]);
          FillAtMark(quote, sql, values);
        }
      } else {
        FillSplit(quote, sql[1..], values);
        FillInPiece(quote, sql, values);
      }
    }
  }

  /** A mark starts a new piece: the next literal and that piece follow. */
  lemma FillAtMark(quote: Quoter, sql: string, values: seq<Val>)
    requires sql != [] && sql[0] == '?' && values != []
    requires var rest := Split(sql[1..], '?');
             BindSql(quote, sql[1..], values[1..]) == rest[0] + Fill(quote, rest[1..], values[1..])
    ensures var pieces := Split(sql, '?');
            BindSql(quote, sql, values) == pieces[0] + Fill(quote, pieces[1..], values)
  {
    var rest := Split(sql[1..], '?');
    var lit := Qstr(quote, values[0]);
    calc == {
      BindSql(quote, sql, values);
      lit + BindSql(quote, sql[1..], values[1..]);
      lit + (rest[0] + Fill(quote, rest[1..], values[1..]));
      { FillCons(quote, rest, values); }
      Fill(quote, rest, values);
      { SplitAtMark(sql); }
      Split(sql, '?')[0] + Fill(quote, Split(sql, '?')[1..], values);
    }
  }

  lemma FillCons(quote: Quoter, pieces: seq<string>, values: seq<Val>)
    requires pieces != [] && values != []
    ensures Fill(quote, pieces, values) ==
            Qstr(quote, values[0]) + (pieces[0] + Fill(quote, pieces[1..], values[1..]))
  {
  }

  lemma SplitAtMark(sql: string)
    requires sql != [] && sql[0] == '?'
    ensures Split(sql, '?')[0] == "" && Split(sql, '?')[1..] == Split(sql[1..], '?')
  {
    assert ([""] + Split(sql[1..], '?'))[1..] == Split(sql[1..], '?');
  }

  /** Any other character belongs to the first piece. */
  lemma FillInPiece(quote: Quoter, sql: string, values: seq<Val>)
    requires sql != [] && sql[0] != '?'
    requires var rest := Split(sql[1..], '?');
             BindSql(quote, sql[1..], values) == rest[0] + Fill(quote, rest[1..], values)
    ensures var pieces := Split(sql, '?');
            BindSql(quote, sql, values) == pieces[0] + Fill(quote, pieces[1..], values)
  {
    var rest := Split(sql[1..], '?');
    assert Split(sql, '?') == [[sql[0]] + rest[0]] + rest[1..];
    assert ([[sql[0]] + rest[0]] + rest[1..])[1..] == rest[1..];
    assert BindSql(quote, sql, values) == [sql[0]] + BindSql(quote, sql[1..], values);
  }

  /** `bind`: explode the template on `?`, keep the first piece, then for
      each value (while a piece is left) append its literal and the next
      piece. */
  method Bind(quote: Quoter, sql: string, values: seq<Val>) returns (r: string)
    ensures r == BindSql(quote, sql, values)
  {
    var arr := Split(sql, '?');
    FillSplit(quote, sql, values);
    r := arr[0];
    arr := arr[1..];
    var i := 0;
    while i < |values|
      invariant 0 <= i <= |values|
      invariant r + Fill(quote, arr, values[i..]) == BindSql(quote, sql, values)
    {
      if |arr| > 0 {
        FillStep(quote, arr, values, i);
        Regroup(r, Qstr(quote, values[i]), arr[0], Fill(quote, arr[1..], values[i + 1..]));
        r := r + Qstr(quote, values[i]) + arr[0];
        arr := arr[1..];
      }
      i := i + 1;
    }
  }

  lemma FillStep(quote: Quoter, arr: seq<string>, values: seq<Val>, i: nat)
    requires i < |values| && arr != []
    ensures Fill(quote, arr, values[i..]) ==
            Qstr(quote, values[i]) + arr[0] + Fill(quote, arr[1..], values[i + 1..])
  {
    assert values[i..][1..] == values[i + 1..];
  }

  /** Text before the first mark is copied as it is. */
  lemma {:induction false} BindKeepsPrefix(quote: Quoter, a: string, b: string, values: seq<Val>)
    requires '?' !in a
    ensures BindSql(quote, a + b, values) == a + BindSql(quote, b, values)
    decreases |a|
  {
    if a == [] {
      assert a + b == b;
    } else {
      assert (a + b)[0] == a[0];
      assert (a + b)[1..] == a[1..] + b;
      BindKeepsPrefix(quote, a[1..], b, values);
    }
  }

  /** Text without marks in front of a template whose binding is known. */
  lemma BindBehind(quote: Quoter, head: string, body: string, values: seq<Val>, bound: string)
    requires '?' !in head
    requires BindSql(quote, body, values) == bound
    ensures BindSql(quote, head + body, values) == head + bound
  {
    BindKeepsPrefix(quote, head, body, values);
  }

  /** A template without marks comes back unchanged, whatever the values. */
  lemma BindNoMarks(quote: Quoter, sql: string, values: seq<Val>)
    requires '?' !in sql
    ensures BindSql(quote, sql, values) == sql
  {
    BindKeepsPrefix(quote, sql, "", values);
    assert sql + "" == sql;
  }

  /** Values beyond the number of marks are ignored. */
  lemma {:induction false} BindIgnoresExtraValues(quote: Quoter, sql: string, values: seq<Val>, extra: seq<Val>)
    requires Count('?', sql) <= |values|
    ensures BindSql(quote, sql, values + extra) == BindSql(quote, sql, values)
    decreases |sql|
  {
    if sql != [] {
      if sql[0] == '?' {
        assert (values + extra)[1..] == values[1..] + extra;
        BindIgnoresExtraValues(quote, sql[1..], values[1..], extra);
      } else {
        BindIgnoresExtraValues(quote, sql[1..], values, extra);
      }
    }
  }

  /** When the values run out, everything from the first unfilled mark on
      is dropped. */
  lemma {:induction false} BindDropsUnfilled(quote: Quoter, a: string, b: string, values: seq<Val>)
    requires Count('?', a) == |values|
    ensures BindSql(quote, a + "?" + b, values) == BindSql(quote, a, values)
    decreases |a|
  {
    if a == [] {
      assert a + "?" + b == "?" + b;
    } else {
      assert (a + "?" + b)[0] == a[0];
      assert (a + "?" + b)[1..] == a[1..] + "?" + b;
      if a[0] == '?' {
        BindDropsUnfilled(quote, a[1..], b, values[1..]);
      } else {
        BindDropsUnfilled(quote, a[1..], b, values);
      }
    }
  }

  /** A mark followed by more template takes the next value's literal. */
  lemma BindMark(quote: Quoter, b: string, v: Val, values: seq<Val>)
    ensures BindSql(quote, "?" + b, [v] + values) == Qstr(quote, v) + BindSql(quote, b, values)
  {
    assert ("?" + b)[1..] == b;
    assert ([v] + values)[1..] == values;
  }

  /** The texts `pre[k] + "?"` of a placeholder list. */
  function Marked(pre: seq<string>): (r: seq<string>)
    ensures |r| == |pre|
    ensures forall k :: 0 <= k < |pre| ==> r[k] == pre[k] + "?"
  {
    seq(|pre|, k requires 0 <= k < |pre| => pre[k] + "?")
  }

  /** The `qstr` literals of the values, in order. */
  function Literals(quote: Quoter, values: seq<Val>): (r: seq<string>)
    ensures |r| == |values|
    ensures forall k :: 0 <= k < |values| ==> r[k] == Qstr(quote, values[k])
  {
    seq(|values|, k requires 0 <= k < |values| => Qstr(quote, values[k]))
  }

  /** The list with every mark replaced by its literal. */
  function Filled(pre: seq<string>, lits: seq<string>): (r: seq<string>)
    requires |lits| == |pre|
    ensures |r| == |pre|
    ensures forall k :: 0 <= k < |pre| ==> r[k] == pre[k] + lits[k]
  {
    seq(|pre|, k requires 0 <= k < |pre| => pre[k] + lits[k])
  }

  /** A list of `pre[k]?` items joined by a separator without marks, bound
      to as many values, is the list of `pre[k]` each followed by its value's
      literal, in order; text after the list without marks is kept. With a
      comma as separator this is the shape of the VALUES list of an INSERT
      and of the SET list of an UPDATE. */
  lemma {:induction false} BindList(quote: Quoter, sep: string, pre: seq<string>, values: seq<Val>, tail: string)
    requires |values| == |pre|
    requires forall k :: 0 <= k < |pre| ==> '?' !in pre[k]
    requires '?' !in sep && '?' !in tail
    ensures BindSql(quote, Join(sep, Marked(pre)) + tail, values) ==
            Join(sep, Filled(pre, Literals(quote, values))) + tail
    decreases |pre|
  {
    if |pre| == 0 {
      BindNoMarks(quote, tail, values);
      assert Join(sep, Marked(pre)) + tail == tail;
      assert Join(sep, Filled(pre, Literals(quote, values))) + tail == tail;
    } else if |pre| == 1 {
      BindListOne(quote, sep, pre, values, tail);
    } else {
      BindList(quote, sep, pre[1..], values[1..], tail);
      BindListMore(quote, sep, pre, values, tail);
    }
  }

  lemma BindListOne(quote: Quoter, sep: string, pre: seq<string>, values: seq<Val>, tail: string)
    requires |values| == |pre| == 1
    requires '?' !in pre[0] && '?' !in tail
    ensures BindSql(quote, Join(sep, Marked(pre)) + tail, values) ==
            Join(sep, Filled(pre, Literals(quote, values))) + tail
  {
    assert Join(sep, Marked(pre)) == pre[0] + "?";
    assert Join(sep, Filled(pre, Literals(quote, values))) == pre[0] + Qstr(quote, values[0]);
    assert values == [values[0]] + [];
    BindItem(quote, pre[0], values[0], [], tail);
    BindNoMarks(quote, tail, []);
  }

  lemma BindListMore(quote: Quoter, sep: string, pre: seq<string>, values: seq<Val>, tail: string)
    requires |values| == |pre| > 1
    requires '?' !in pre[0] && '?' !in sep
    requires BindSql(quote, Join(sep, Marked(pre[1..])) + tail, values[1..]) ==
             Join(sep, Filled(pre[1..], Literals(quote, values[1..]))) + tail
    ensures BindSql(quote, Join(sep, Marked(pre)) + tail, values) ==
            Join(sep, Filled(pre, Literals(quote, values))) + tail
  {
    var lits := Literals(quote, values);
    LiteralsTail(quote, values);
    ListTail(sep, pre, lits);
    BindStep(quote, pre[0], values[0], values[1..], sep,
             Join(sep, Marked(pre[1..])), Join(sep, Filled(pre[1..], lits[1..])), tail);
  }

  lemma LiteralsTail(quote: Quoter, values: seq<Val>)
    requires values != []
    ensures Literals(quote, values[1..]) == Literals(quote, values)[1..]
    ensures Literals(quote, values)[0] == Qstr(quote, values[0])
    ensures values == [values[0]] + values[1..]
  {
    assert Literals(quote, values[1..]) == Literals(quote, values)[1..];
  }

  /** One step of the list: the first item and its literal in front of a
      rest whose binding is known. */
  lemma BindStep(quote: Quoter, p: string, v: Val, values: seq<Val>, sep: string, m: string, f: string, tail: string)
    requires '?' !in p && '?' !in sep
    requires BindSql(quote, m + tail, values) == f + tail
    ensures BindSql(quote, p + "?" + sep + m + tail, [v] + values) ==
            p + Qstr(quote, v) + sep + f + tail
  {
    assert p + "?" + sep + m + tail == p + "?" + (sep + (m + tail));
    BindItem(quote, p, v, values, sep + (m + tail));
    BindKeepsPrefix(quote, sep, m + tail, values);
    Regroup(p + Qstr(quote, v), sep, f, tail);
  }

  /** One item of the list: its text, its literal, and what follows. */
  lemma BindItem(quote: Quoter, p: string, v: Val, values: seq<Val>, rest: string)
    requires '?' !in p
    ensures BindSql(quote, p + "?" + rest, [v] + values) ==
            p + Qstr(quote, v) + BindSql(quote, rest, values)
  {
    assert p + "?" + rest == p + ("?" + rest);
    BindKeepsPrefix(quote, p, "?" + rest, [v] + values);
    BindMark(quote, rest, v, values);
  }

  /** Both lists peeled by one item, through `JoinCons`. */
  lemma ListTail(sep: string, pre: seq<string>, lits: seq<string>)
    requires |lits| == |pre| > 1
    ensures Join(sep, Marked(pre)) == pre[0] + "?" + sep + Join(sep, Marked(pre[1..]))
    ensures Join(sep, Filled(pre, lits)) == pre[0] + lits[0] + sep + Join(sep, Filled(pre[1..], lits[1..]))
  {
    MarkedCons(pre);
    JoinCons(sep, pre[0] + "?", Marked(pre[1..]));
    FilledCons(pre, lits);
    JoinCons(sep, pre[0] + lits[0], Filled(pre[1..], lits[1..]));
  }

  lemma MarkedCons(pre: seq<string>)
    requires |pre| > 0
    ensures Marked(pre) == [pre[0] + "?"] + Marked(pre[1..])
  {
    var r := [pre[0] + "?"] + Marked(pre[1..]);
    assert forall k :: 0 <= k < |pre| ==> Marked(pre)[k] == r[k];
  }

  lemma FilledCons(pre: seq<string>, lits: seq<string>)
    requires |lits| == |pre| > 0
    ensures Filled(pre, lits) == [pre[0] + lits[0]] + Filled(pre[1..], lits[1..])
  {
    var r := [pre[0] + lits[0]] + Filled(pre[1..], lits[1..]);
    assert forall k :: 0 <= k < |pre| ==> Filled(pre, lits)[k] == r[k];
  }
}
