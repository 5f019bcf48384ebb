/** What `parseCond` promises, proved of `CompileCond`: the trivial inputs,
    the defaults of a lone entry, clause order and conjunction trimming,
    the three list forms, and the shape of a FIELD_GROUP. */
module DbConditionProperties {
  import opened PhpStrings
  import opened PhpValues
  import opened DbDataSource
  import opened DbCondition

  // ---------------------------------------------------------------------
  // Concatenation steps, stated once over plain strings
  // ---------------------------------------------------------------------

  lemma Assoc(a: string, b: string, c: string)
    ensures a + (b + c) == a + b + c
  {
  }

  lemma Padded(x: string, c: string)
    ensures x + " " + c + " " == x + (" " + c + " ")
  {
  }

  lemma SpacedSlots(f: string, o: string, v: string)
    ensures SlotText(Slots(f, o, v)) == f + (" " + o + " ") + v
  {
  }

  // ---------------------------------------------------------------------
  // Trivial inputs and defaults
  // ---------------------------------------------------------------------

  /** The list operators fall into exactly one branch of the dispatch. */
  lemma ListKeywords()
    ensures "BETWEEN_AND" !in EqualIn && "BETWEEN_AND" in BetweenAnd
    ensures "NOT_BETWEEN_AND" !in EqualIn && "NOT_BETWEEN_AND" in BetweenAnd
    ensures "FIELD_GROUP" !in EqualIn && "FIELD_GROUP" !in BetweenAnd
  {
    assert |"BETWEEN_AND"| == 11 && |"NOT_BETWEEN_AND"| == 15 && |"FIELD_GROUP"| == 11;
    assert "FIELD_GROUP"[0] != "BETWEEN_AND"[0];
  }

  /** A scalar condition: a non-empty string is returned verbatim, anything
      else (null, false, 0, "", "0", other ints, true) gives "". An empty
      array gives "" too, even when parentheses are asked for. */
  lemma CompileTrivial(quote: Quoter, c: Cond, dash: bool)
    requires c.Scalar? || c == Map([])
    ensures CompileCond(quote, c, dash) ==
            if c.Scalar? && c.v.VStr? && !EmptyVal(c.v) then c.v.s else ""
  {
  }

  /** A bare value is the tuple (value, '=', 'AND', false). */
  lemma NormalizeBare(v: Val)
    ensures Normalize(Bare(v)) == Norm(Atom(v), "=", "AND", false)
  {
  }

  /** A tuple (value, op) gets conjunction AND and is not a command. */
  lemma NormalizeOp(value: Operand, op: string)
    ensures Normalize(Tuple(value, Some(op), None, None)) == Norm(value, Upper(Trim(op)), "AND", false)
  {
  }

  /** A string-keyed entry appends its slots, then its own conjunction,
      trimmed and upper-cased, between single spaces. */
  lemma ClauseOfStr(quote: Quoter, field: string, t: Term)
    requires QuotableTerm(t)
    ensures Clause(quote, (Str(field), t)) ==
            SlotText(Render(quote, field, t)) + (" " + Normalize(t).conj + " ")
  {
    Padded(SlotText(Render(quote, field, t)), Normalize(t).conj);
  }

  /** A scalar entry `field => [v, op, conj, isCommand]` appends
      `"{field} {OP} {v'} {CONJ} "`, where v' is the raw text of v for a
      command and its quoted literal otherwise. */
  lemma ScalarClause(quote: Quoter, field: string, v: Val, op: string, conj: string, command: Option<bool>)
    ensures Clause(quote, (Str(field), Tuple(Atom(v), Some(op), Some(conj), command))) ==
            field + " " + Upper(Trim(op)) + " " +
            (if GetOr(command, false) then Text(v) else Qstr(quote, v)) + " " + Upper(Trim(conj)) + " "
  {
    var t := Tuple(Atom(v), Some(op), Some(conj), command);
    var n := Normalize(t);
    assert n == Norm(Atom(v), Upper(Trim(op)), Upper(Trim(conj)), GetOr(command, false));
    RenderOfAtom(quote, field, t, v);
    ClauseOfStr(quote, field, t);
    ClauseSpacing(field, n.op, if n.command then Text(v) else Qstr(quote, v), n.conj);
  }

  lemma ClauseSpacing(f: string, o: string, v: string, c: string)
    ensures SlotText(Slots(f, o, v)) + (" " + c + " ") == f + " " + o + " " + v + " " + c + " "
  {
  }

  lemma WhereSingle(quote: Quoter, x: (Key, Term))
    requires QuotableTerm(x.1)
    ensures QuotableEntries([x])
    ensures Where(quote, [x]) == Clause(quote, x)
  {
    assert [x][..0] == [];
  }

  lemma CompileMap(quote: Quoter, e: seq<(Key, Term)>, dash: bool)
    requires QuotableEntries(e) && e != []
    ensures var w := DropLast(Where(quote, e), |LastExpr(e)| + 2);
            CompileCond(quote, Map(e), dash) == if dash then "(" + w + ")" else w
  {
  }

  /** A map of one string-keyed entry compiles to `field op value`: the
      clause with its conjunction suffix cut off. */
  lemma SingleEntry(quote: Quoter, field: string, t: Term)
    requires QuotableTerm(t)
    ensures QuotableCond(Map([(Str(field), t)]))
    ensures CompileCond(quote, Map([(Str(field), t)]), false) ==
            SlotText(Render(quote, field, t))
  {
    var e := [(Str(field), t)];
    var x := SlotText(Render(quote, field, t));
    var tail := " " + Normalize(t).conj + " ";
    WhereSingle(quote, e[0]);
    ClauseOfStr(quote, field, t);
    assert LastExpr(e) == Normalize(t).conj;
    CompileMap(quote, e, false);
    assert Where(quote, e) == x + tail;
    DropLastAppend(x, tail);
  }

  /** `field => v` with a scalar v compiles to exactly `field = qstr(v)`. */
  lemma LoneScalarEntry(quote: Quoter, field: string, v: Val)
    ensures CompileCond(quote, Map([(Str(field), Bare(v))]), false) ==
            field + " = " + Qstr(quote, v)
  {
    NormalizeBare(v);
    assert Render(quote, field, Bare(v)) == Slots(field, "=", Qstr(quote, v));
    SingleEntry(quote, field, Bare(v));
    SpacedSlots(field, "=", Qstr(quote, v));
  }

  // ---------------------------------------------------------------------
  // Order of clauses, skipped keys, trimming of the last conjunction
  // ---------------------------------------------------------------------

  /** Clauses appear in iteration order: compiling a concatenation of
      entries concatenates their clauses. */
  lemma {:induction false} WhereAppend(quote: Quoter, e1: seq<(Key, Term)>, e2: seq<(Key, Term)>)
    requires QuotableEntries(e1) && QuotableEntries(e2)
    ensures QuotableEntries(e1 + e2)
    ensures Where(quote, e1 + e2) == Where(quote, e1) + Where(quote, e2)
    decreases |e2|
  {
    var e := e1 + e2;
    assert QuotableEntries(e) by {
      forall i | 0 <= i < |e| ensures QuotableTerm(e[i].1) {
        if i >= |e1| { assert e[i] == e2[i - |e1|]; }
      }
    }
    if e2 == [] {
      assert e == e1;
    } else {
      var n := |e2|;
      assert e[..|e| - 1] == e1 + e2[..n - 1];
      assert e[|e| - 1] == e2[n - 1];
      assert QuotableEntries(e2[..n - 1]);
      WhereAppend(quote, e1, e2[..n - 1]);
      Assoc(Where(quote, e1), Where(quote, e2[..n - 1]), Clause(quote, e2[n - 1]));
    }
  }

  /** An entry whose key is not a string emits nothing, wherever it stands. */
  lemma IntKeyEmitsNothing(quote: Quoter, e1: seq<(Key, Term)>, i: int, t: Term, e2: seq<(Key, Term)>)
    requires QuotableEntries(e1) && QuotableEntries(e2) && QuotableTerm(t)
    ensures QuotableEntries(e1 + [(Int(i), t)] + e2)
    ensures Where(quote, e1 + [(Int(i), t)] + e2) == Where(quote, e1 + e2)
  {
    var mid := [(Int(i), t)];
    WhereSingle(quote, mid[0]);
    assert Where(quote, mid) == "";
    WhereAppend(quote, e1, mid);
    WhereAppend(quote, e1 + mid, e2);
    WhereAppend(quote, e1, e2);
    assert Where(quote, e1) + "" == Where(quote, e1);
  }

  /** When the last entry has a string key, the compiled text is the clause
      text minus exactly that entry's " conj " suffix, so it never ends with
      the last conjunction. */
  lemma TrimsOwnConjunction(quote: Quoter, e: seq<(Key, Term)>)
    requires QuotableEntries(e) && e != [] && e[|e| - 1].0.Str?
    ensures Where(quote, e) == CompileCond(quote, Map(e), false) + " " + LastExpr(e) + " "
  {
    var front := WhereLastStr(quote, e);
    CompileMap(quote, e, false);
    TrimTail(Where(quote, e), front, LastExpr(e));
  }

  /** The clause text of entries ending with a string key, split before the
      last conjunction. */
  lemma WhereLastStr(quote: Quoter, e: seq<(Key, Term)>) returns (front: string)
    requires QuotableEntries(e) && e != [] && e[|e| - 1].0.Str?
    ensures Where(quote, e) == front + (" " + LastExpr(e) + " ")
  {
    var n := |e|;
    var last := e[n - 1];
    EntrySizeBound(e, n - 1);
    assert QuotableEntries(e[..n - 1]);
    assert Where(quote, e) == Where(quote, e[..n - 1]) + Clause(quote, last);
    ClauseOfStr(quote, last.0.s, last.1);
    var w0 := Where(quote, e[..n - 1]);
    var x := SlotText(Render(quote, last.0.s, last.1));
    front := w0 + x;
    Assoc(w0, x, " " + Normalize(last.1).conj + " ");
  }

  lemma TrimTail(w: string, front: string, conj: string)
    requires w == front + (" " + conj + " ")
    ensures DropLast(w, |conj| + 2) == front
    ensures w == front + " " + conj + " "
  {
    DropLastAppend(front, " " + conj + " ");
    Padded(front, conj);
  }

  /** A map of two entries compiles their clauses in order. */
  lemma TwoClauses(quote: Quoter, a: (Key, Term), b: (Key, Term))
    requires QuotableTerm(a.1) && QuotableTerm(b.1)
    ensures QuotableEntries([a, b])
    ensures Where(quote, [a, b]) == Clause(quote, a) + Clause(quote, b)
  {
    WhereSingle(quote, a);
    WhereSingle(quote, b);
    assert [a, b] == [a] + [b];
    WhereAppend(quote, [a], [b]);
  }

  /** The trim length belongs to the last ITERATED entry: after a trailing
      entry whose key is not a string, `$expr` is AND again, and five
      characters are cut off whatever the last emitted conjunction was. */
  lemma TrailingIntKey(quote: Quoter, e: seq<(Key, Term)>, i: int, t: Term)
    requires QuotableEntries(e) && QuotableTerm(t)
    ensures QuotableEntries(e + [(Int(i), t)])
    ensures CompileCond(quote, Map(e + [(Int(i), t)]), false) == DropLast(Where(quote, e), 5)
  {
    var e' := e + [(Int(i), t)];
    assert QuotableEntries(e') by {
      forall k | 0 <= k < |e'| ensures QuotableTerm(e'[k].1) {
        if k < |e| { assert e'[k] == e[k]; }
      }
    }
    WhereStep(quote, e', |e|);
    assert e'[..|e|] == e && e'[..|e| + 1] == e';
    assert Where(quote, e') == Where(quote, e) + "";
    CompileMap(quote, e', false);
  }

  /** So a string-keyed entry with a conjunction shorter than AND (such as
      OR), followed by an integer-keyed one, loses the end of its own value:
      `a = 5 OR ` becomes `a = `. */
  lemma TrailingIntKeyCutsValue(quote: Quoter, field: string, t: Term, i: int, u: Term)
    requires QuotableTerm(t) && QuotableTerm(u) && |Normalize(t).conj| < 3
    ensures QuotableEntries([(Str(field), t), (Int(i), u)])
    ensures CompileCond(quote, Map([(Str(field), t), (Int(i), u)]), false) ==
            DropLast(SlotText(Render(quote, field, t)), 3 - |Normalize(t).conj|)
  {
    var x := (Str(field), t);
    WhereSingle(quote, x);
    ClauseOfStr(quote, field, t);
    assert [x] + [(Int(i), u)] == [x, (Int(i), u)];
    TrailingIntKey(quote, [x], i, u);
    DropLastLonger(SlotText(Render(quote, field, t)), " " + Normalize(t).conj + " ", 5);
  }

  lemma DropLastLonger(a: string, b: string, n: nat)
    requires |b| <= n
    ensures DropLast(a + b, n) == DropLast(a, n - |b|)
  {
    if |a + b| >= n {
      assert (a + b)[..|a| + |b| - n] == a[..|a| - (n - |b|)];
    }
  }

  /** Two string-keyed entries: the first keeps its conjunction, the last
      one's is cut off. */
  lemma TwoEntries(quote: Quoter, f1: string, t1: Term, f2: string, t2: Term)
    requires QuotableTerm(t1) && QuotableTerm(t2)
    ensures QuotableEntries([(Str(f1), t1), (Str(f2), t2)])
    ensures CompileCond(quote, Map([(Str(f1), t1), (Str(f2), t2)]), false) ==
            SlotText(Render(quote, f1, t1)) + " " + Normalize(t1).conj + " " + SlotText(Render(quote, f2, t2))
  {
    var a, b := (Str(f1), t1), (Str(f2), t2);
    var x1, c1 := SlotText(Render(quote, f1, t1)), Normalize(t1).conj;
    var x2, c2 := SlotText(Render(quote, f2, t2)), Normalize(t2).conj;
    ClauseOfStr(quote, f1, t1);
    ClauseOfStr(quote, f2, t2);
    TwoClauses(quote, a, b);
    assert LastExpr([a, b]) == c2;
    CompileMap(quote, [a, b], false);
    TwoEntriesText(x1 + (" " + c1 + " "), x2, c2);
    Padded(x1, c1);
  }

  lemma TwoEntriesText(ca: string, xb: string, c: string)
    ensures DropLast(ca + (xb + (" " + c + " ")), |c| + 2) == ca + xb
  {
    DropLastAppend(ca + xb, " " + c + " ");
    assert ca + (xb + (" " + c + " ")) == ca + xb + (" " + c + " ");
  }

  /** Asking for parentheses wraps a non-empty array's text in exactly one
      outer pair. */
  lemma DashWrapsOnce(quote: Quoter, e: seq<(Key, Term)>)
    requires QuotableEntries(e) && e != []
    ensures CompileCond(quote, Map(e), true) == "(" + CompileCond(quote, Map(e), false) + ")"
  {
    CompileMap(quote, e, true);
    CompileMap(quote, e, false);
  }

  // ---------------------------------------------------------------------
  // List values
  // ---------------------------------------------------------------------

  /** With `=`, `IN` or `NOT IN`, a list becomes a parenthesised,
      comma-joined list of quoted items, and a bare `=` becomes `IN`. */
  lemma InList(quote: Quoter, field: string, items: seq<Term>, op: string)
    requires forall k :: 0 <= k < |items| ==> items[k].Bare?
    requires Upper(Trim(op)) in EqualIn
    ensures var t := Tuple(List(items), Some(op), None, None);
            var o := Upper(Trim(op));
            QuotableTerm(t) &&
            CompileCond(quote, Map([(Str(field), t)]), false) ==
            field + " " + (if o == "=" then "IN" else o) + " " + ("(" + Join(",", QuoteItems(quote, items)) + ")")
  {
    var t := Tuple(List(items), Some(op), None, None);
    NormalizeOp(List(items), op);
    SingleEntry(quote, field, t);
  }

  lemma RenderBetween(quote: Quoter, field: string, items: seq<Term>, op: string)
    requires forall k :: 0 <= k < |items| && k < 2 ==> items[k].Bare?
    requires Upper(Trim(op)) in BetweenAnd
    ensures var t := Tuple(List(items), Some(op), None, None);
            QuotableTerm(t) &&
            Render(quote, field, t) ==
            Slots(field, if Upper(Trim(op)) == "NOT_BETWEEN_AND" then "NOT" else "",
                  "BETWEEN " + Qstr(quote, ItemAt(items, 0)) + " AND " + Qstr(quote, ItemAt(items, 1)))
  {
    var t := Tuple(List(items), Some(op), None, None);
    NormalizeOp(List(items), op);
    BetweenSlots(quote, field, Upper(Trim(op)), items);
    RenderOfList(quote, field, t, items);
  }

  lemma BetweenSlots(quote: Quoter, field: string, o: string, items: seq<Term>)
    requires forall k :: 0 <= k < |items| && k < 2 ==> items[k].Bare?
    requires o in BetweenAnd
    ensures QuotableList(o, items)
    ensures ListSlots(quote, field, o, items) ==
            Slots(field, if o == "NOT_BETWEEN_AND" then "NOT" else "",
                  "BETWEEN " + Qstr(quote, ItemAt(items, 0)) + " AND " + Qstr(quote, ItemAt(items, 1)))
  {
    ListKeywords();
  }

  /** With BETWEEN_AND the op slot is blanked, which leaves two spaces after
      the field; missing bounds are null. */
  lemma BetweenList(quote: Quoter, field: string, items: seq<Term>, op: string)
    requires forall k :: 0 <= k < |items| && k < 2 ==> items[k].Bare?
    requires Upper(Trim(op)) == "BETWEEN_AND"
    ensures var t := Tuple(List(items), Some(op), None, None);
            QuotableTerm(t) &&
            CompileCond(quote, Map([(Str(field), t)]), false) ==
            field + "  " + ("BETWEEN " + Qstr(quote, ItemAt(items, 0)) + " AND " + Qstr(quote, ItemAt(items, 1)))
  {
    ListKeywords();
    BetweenWord(op);
    BetweenCond(quote, field, items, op, "");
    assert " " + "" + " " == "  ";
  }

  lemma BetweenWord(op: string)
    requires Upper(Trim(op)) == "BETWEEN_AND"
    ensures Upper(Trim(op)) != "NOT_BETWEEN_AND"
  {
    ListKeywords();
  }

  /** The field, op and value slots with the op and its spaces named. */
  lemma OpSlot(f: string, o: string, v: string, spaced: string)
    requires spaced == " " + o + " "
    ensures SlotText(Slots(f, o, v)) == f + spaced + v
  {
    SpacedSlots(f, o, v);
  }

  /** A lone entry whose slots are known compiles to them, spaced. */
  lemma SlotCond(quote: Quoter, field: string, t: Term, o: string, v: string, spaced: string)
    requires QuotableTerm(t) && Render(quote, field, t) == Slots(field, o, v)
    requires spaced == " " + o + " "
    ensures CompileCond(quote, Map([(Str(field), t)]), false) == field + spaced + v
  {
    SingleEntry(quote, field, t);
    OpSlot(field, o, v, spaced);
  }

  /** Either BETWEEN operator, with its op slot named. */
  lemma BetweenCond(quote: Quoter, field: string, items: seq<Term>, op: string, o: string)
    requires forall k :: 0 <= k < |items| && k < 2 ==> items[k].Bare?
    requires Upper(Trim(op)) in BetweenAnd
    requires o == if Upper(Trim(op)) == "NOT_BETWEEN_AND" then "NOT" else ""
    ensures var t := Tuple(List(items), Some(op), None, None);
            QuotableTerm(t) &&
            CompileCond(quote, Map([(Str(field), t)]), false) ==
            field + (" " + o + " ") + ("BETWEEN " + Qstr(quote, ItemAt(items, 0)) + " AND " + Qstr(quote, ItemAt(items, 1)))
  {
    var t := Tuple(List(items), Some(op), None, None);
    var v := "BETWEEN " + Qstr(quote, ItemAt(items, 0)) + " AND " + Qstr(quote, ItemAt(items, 1));
    RenderBetween(quote, field, items, op);
    SlotCond(quote, field, t, o, v, " " + o + " ");
  }

  /** With NOT_BETWEEN_AND the op slot holds NOT, after the field. */
  lemma NotBetweenList(quote: Quoter, field: string, items: seq<Term>, op: string)
    requires forall k :: 0 <= k < |items| && k < 2 ==> items[k].Bare?
    requires Upper(Trim(op)) == "NOT_BETWEEN_AND"
    ensures var t := Tuple(List(items), Some(op), None, None);
            QuotableTerm(t) &&
            CompileCond(quote, Map([(Str(field), t)]), false) ==
            field + " NOT " + ("BETWEEN " + Qstr(quote, ItemAt(items, 0)) + " AND " + Qstr(quote, ItemAt(items, 1)))
  {
    ListKeywords();
    BetweenCond(quote, field, items, op, "NOT");
    assert " " + "NOT" + " " == " NOT ";
  }

  /** A list value is always treated as a command: the isCommand position
      makes no difference to its clause. */
  lemma ListIgnoresCommandFlag(quote: Quoter, field: string, items: seq<Term>,
                               op: Option<string>, conj: Option<string>, c1: Option<bool>, c2: Option<bool>)
    requires QuotableTerm(Tuple(List(items), op, conj, c1))
    ensures QuotableTerm(Tuple(List(items), op, conj, c2))
    ensures Clause(quote, (Str(field), Tuple(List(items), op, conj, c1))) ==
            Clause(quote, (Str(field), Tuple(List(items), op, conj, c2)))
  {
    var t1, t2 := Tuple(List(items), op, conj, c1), Tuple(List(items), op, conj, c2);
    assert Normalize(t1).op == Normalize(t2).op && Normalize(t1).conj == Normalize(t2).conj;
    assert Render(quote, field, t1) == Render(quote, field, t2);
  }

  /** A list under any other operator is interpolated as the text "Array". */
  lemma OtherListOperator(quote: Quoter, field: string, items: seq<Term>, op: string)
    requires var o := Upper(Trim(op)); o !in EqualIn && o !in BetweenAnd && o != "FIELD_GROUP"
    ensures var t := Tuple(List(items), Some(op), None, None);
            QuotableTerm(t) &&
            CompileCond(quote, Map([(Str(field), t)]), false) ==
            field + " " + Upper(Trim(op)) + " " + "Array"
  {
    var t := Tuple(List(items), Some(op), None, None);
    NormalizeOp(List(items), op);
    SingleEntry(quote, field, t);
  }

  // ---------------------------------------------------------------------
  // FIELD_GROUP
  // ---------------------------------------------------------------------

  /** A FIELD_GROUP entry blanks field and op, so its text starts with two
      spaces before the group. */
  lemma GroupEntryLeadingSpaces(quote: Quoter, field: string, items: seq<Term>, op: string)
    requires forall k :: 0 <= k < |items| ==> QuotableTerm(items[k])
    requires Upper(Trim(op)) == "FIELD_GROUP"
    ensures var t := Tuple(List(items), Some(op), None, None);
            QuotableTerm(t) &&
            CompileCond(quote, Map([(Str(field), t)]), false) == "  " + GroupText(quote, field, items)
  {
    var t := Tuple(List(items), Some(op), None, None);
    var g := GroupText(quote, field, items);
    NormalizeOp(List(items), op);
    GroupSlots(quote, field, Upper(Trim(op)), items);
    RenderOfList(quote, field, t, items);
    SingleEntry(quote, field, t);
    BlankSlots(g);
  }

  lemma GroupSlots(quote: Quoter, field: string, op: string, items: seq<Term>)
    requires forall k :: 0 <= k < |items| ==> QuotableTerm(items[k])
    requires op == "FIELD_GROUP"
    ensures QuotableList(op, items)
    ensures ListSlots(quote, field, op, items) == Slots("", "", GroupText(quote, field, items))
  {
    ListKeywords();
  }

  lemma BlankSlots(g: string)
    ensures SlotText(Slots("", "", g)) == "  " + g
  {
    SpacedSlots("", "", g);
    assert " " + "" + " " == "  ";
  }

  /** Replacing the synthetic keys leaves an outer pair of parentheses alone. */
  lemma ReplaceTokensKeepsParens(m: string, n: nat, field: string)
    ensures ReplaceTokens("(" + m + ")", n, field) == "(" + ReplaceTokens(m, n, field) + ")"
  {
    ReplaceTokensKeepsWrap(m, n, field, '(', ')');
    assert "(" + m + ")" == ['('] + m + [')'];
    assert "(" + ReplaceTokens(m, n, field) + ")" == ['('] + ReplaceTokens(m, n, field) + [')'];
  }

  /** The same for any two characters other than the colon that opens and
      closes every synthetic key. */
  lemma {:induction false} ReplaceTokensKeepsWrap(m: string, n: nat, field: string, l: char, r: char)
    requires l != ':' && r != ':'
    ensures ReplaceTokens([l] + m + [r], n, field) == [l] + ReplaceTokens(m, n, field) + [r]
    decreases n
  {
    if n > 0 {
      ReplaceTokensKeepsWrap(m, n - 1, field, l, r);
      ReplaceWrapped(ReplaceTokens(m, n - 1, field), Token(n - 1), field, l, r);
    }
  }

  lemma ReplaceWrapped(inner: string, tok: string, field: string, l: char, r: char)
    requires |tok| > 0 && tok[0] != l && tok[|tok| - 1] != r
    ensures Replace([l] + inner + [r], tok, field) == [l] + Replace(inner, tok, field) + [r]
  {
    NoFirstCharNoMatch([l], inner + [r], tok);
    ReplaceSkipsPrefix([l], inner + [r], tok, field);
    ReplaceKeepsLast(inner, r, tok, field);
    assert [l] + inner + [r] == [l] + (inner + [r]);
  }

  /** A non-empty FIELD_GROUP is one parenthesised sub-expression: the
      alternates compiled without parentheses, their keys replaced by the
      field, inside a single outer pair. */
  lemma GroupIsParenthesised(quote: Quoter, field: string, items: seq<Term>)
    requires forall k :: 0 <= k < |items| ==> QuotableTerm(items[k])
    requires items != []
    ensures QuotableCond(Map(GroupEntries(items)))
    ensures var g := GroupText(quote, field, items);
            g == "(" + ReplaceTokens(CompileCond(quote, Map(GroupEntries(items)), false), |items|, field) + ")" &&
            |g| >= 2 && g[0] == '(' && g[|g| - 1] == ')'
  {
    var kv := GroupEntries(items);
    assert QuotableCond(Map(kv));
    var w := CompileCond(quote, Map(kv), false);
    DashWrapsOnce(quote, kv);
    ReplaceTokensKeepsParens(w, |items|, field);
  }
}
