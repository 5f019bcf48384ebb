/** FIELD_GROUP on concrete inputs: the example of the source comment,
    and a synthetic key inside a literal, which the replacement rewrites. */
module DbFieldGroupCases {
  import opened PhpStrings
  import opened PhpValues
  import opened DbDataSource
  import opened DbCondition
  import opened DbConditionProperties
  import opened DbFieldGroup

  /** The documented group `[[15, '>', 'OR'], [5, '<', 'AND'], [32, '!=']]`
      reads `(a > 15 OR a < 5 AND a != 32)` for a field a. The alternates
      are given by how the code normalises them; `DocumentedTerms` shows
      that the three arrays of the example normalise so. */
  lemma DocumentedGroup(quote: Quoter, field: string, t1: Term, t2: Term, t3: Term)
    requires ':' !in field
    requires Normalize(t1) == Norm(Atom(VInt(15)), ">", "OR", false)
    requires Normalize(t2) == Norm(Atom(VInt(5)), "<", "AND", false)
    requires Normalize(t3) == Norm(Atom(VInt(32)), "!=", "AND", false)
    ensures forall k :: 0 <= k < |[t1, t2, t3]| ==> QuotableTerm([t1, t2, t3][k])
    ensures GroupText(quote, field, [t1, t2, t3]) ==
            "(" + field + " > 15 OR " + field + " < 5 AND " + field + " != 32)"
  {
    Numbers();
    ThreeAlternates(quote, field, t1, t2, t3, 15, 5, 32, ">", "<", "!=", "OR", "AND");
    Spelled(GroupText(quote, field, [t1, t2, t3]), field);
  }

  lemma Spelled(g: string, f: string)
    requires g == "(" + f + " " + ">" + " " + "15" + " " + "OR" + " " +
                  f + " " + "<" + " " + "5" + " " + "AND" + " " +
                  f + " " + "!=" + " " + "32" + ")"
    ensures g == "(" + f + " > 15 OR " + f + " < 5 AND " + f + " != 32)"
  {
  }

  /** `[15, '>', 'OR']`, `[5, '<', 'AND']` and `[32, '!=']` normalise to
      their values, operators and conjunctions, the last with AND. */
  lemma DocumentedTerms()
    ensures Normalize(Tuple(Atom(VInt(15)), Some(">"), Some("OR"), None)) == Norm(Atom(VInt(15)), ">", "OR", false)
    ensures Normalize(Tuple(Atom(VInt(5)), Some("<"), Some("AND"), None)) == Norm(Atom(VInt(5)), "<", "AND", false)
    ensures Normalize(Tuple(Atom(VInt(32)), Some("!="), None, None)) == Norm(Atom(VInt(32)), "!=", "AND", false)
  {
    Operators();
    ScalarTerm(VInt(15), ">", Some("OR"));
    ScalarTerm(VInt(5), "<", Some("AND"));
    ScalarTerm(VInt(32), "!=", None);
  }

  /** A scalar alternate `[v, op, conj]` or `[v, op]` as the code normalises it. */
  lemma ScalarTerm(v: Val, op: string, conj: Option<string>)
    ensures Normalize(Tuple(Atom(v), Some(op), conj, None)) ==
            Norm(Atom(v), Upper(Trim(op)), if conj.Some? then Upper(Trim(conj.value)) else "AND", false)
  {
  }

  lemma Numbers()
    ensures IntToString(15) == "15" && IntToString(5) == "5" && IntToString(32) == "32"
  {
    assert NatToString(1) == "1" && NatToString(3) == "3";
  }

  /** Three integer alternates read `field op n conj`, in order, with the
      last conjunction cut. */
  lemma ThreeAlternates(quote: Quoter, field: string, t1: Term, t2: Term, t3: Term,
                        n1: nat, n2: nat, n3: nat, o1: string, o2: string, o3: string, c1: string, c2: string)
    requires ':' !in field && ':' !in o1 && ':' !in o2 && ':' !in o3 && ':' !in c1 && ':' !in c2
    requires Normalize(t1) == Norm(Atom(VInt(n1)), o1, c1, false)
    requires Normalize(t2) == Norm(Atom(VInt(n2)), o2, c2, false)
    requires Normalize(t3) == Norm(Atom(VInt(n3)), o3, "AND", false)
    ensures forall k :: 0 <= k < |[t1, t2, t3]| ==> QuotableTerm([t1, t2, t3][k])
    ensures GroupText(quote, field, [t1, t2, t3]) ==
            "(" + field + " " + o1 + " " + IntToString(n1) + " " + c1 + " " +
            field + " " + o2 + " " + IntToString(n2) + " " + c2 + " " +
            field + " " + o3 + " " + IntToString(n3) + ")"
  {
    IntAlternate(quote, field, t1, n1, o1, c1);
    IntAlternate(quote, field, t2, n2, o2, c2);
    IntAlternate(quote, field, t3, n3, o3, "AND");
    GroupOfThree(quote, field, t1, t2, t3);
    Concat3(GroupText(quote, field, [t1, t2, t3]), field, o1, o2, o3, IntToString(n1), IntToString(n2), IntToString(n3), c1, c2);
  }

  lemma Concat3(g: string, f: string, o1: string, o2: string, o3: string,
                v1: string, v2: string, v3: string, c1: string, c2: string)
    requires g == "(" + (f + " " + o1 + " " + v1 + " " + c1 + " ") + (f + " " + o2 + " " + v2 + " " + c2 + " ") +
                  (f + " " + o3 + " " + v3) + ")"
    ensures g == "(" + f + " " + o1 + " " + v1 + " " + c1 + " " + f + " " + o2 + " " + v2 + " " + c2 + " " +
                 f + " " + o3 + " " + v3 + ")"
  {
  }

  /** An integer alternate is plain; its clause and slots under the field. */
  lemma IntAlternate(quote: Quoter, field: string, t: Term, n: nat, op: string, conj: string)
    requires ':' !in op && ':' !in conj
    requires Normalize(t) == Norm(Atom(VInt(n)), op, conj, false)
    ensures PlainAlternate(quote, t)
    ensures Clause(quote, (Str(field), t)) == field + " " + op + " " + IntToString(n) + " " + conj + " "
    ensures SlotText(Render(quote, field, t)) == field + " " + op + " " + IntToString(n)
  {
    RenderOfAtom(quote, field, t, VInt(n));
    RenderOfAtom(quote, "", t, VInt(n));
    assert Qstr(quote, VInt(n)) == NatToString(n);
    ClauseOfStr(quote, field, t);
  }

  /** Three plain alternates: the first two clauses, then the last slots. */
  lemma GroupOfThree(quote: Quoter, field: string, t1: Term, t2: Term, t3: Term)
    requires ':' !in field
    requires PlainAlternate(quote, t1) && PlainAlternate(quote, t2) && PlainAlternate(quote, t3)
    ensures forall k :: 0 <= k < |[t1, t2, t3]| ==> QuotableTerm([t1, t2, t3][k])
    ensures GroupText(quote, field, [t1, t2, t3]) ==
            "(" + Clause(quote, (Str(field), t1)) + Clause(quote, (Str(field), t2)) +
            SlotText(Render(quote, field, t3)) + ")"
  {
    var items := [t1, t2, t3];
    forall k | 0 <= k < |items|
      ensures PlainAlternate(quote, items[k])
    {
    }
    GroupReadsAsAlternates(quote, field, items);
    var fe := FieldEntries(field, items);
    assert fe == [(Str(field), t1), (Str(field), t2), (Str(field), t3)];
    CompileThree(quote, fe[0], fe[1], fe[2]);
  }

  /** Three string-keyed entries compile to two clauses and the last slots. */
  lemma CompileThree(quote: Quoter, a: (Key, Term), b: (Key, Term), c: (Key, Term))
    requires QuotableTerm(a.1) && QuotableTerm(b.1) && QuotableTerm(c.1) && c.0.Str?
    ensures QuotableCond(Map([a, b, c]))
    ensures CompileCond(quote, Map([a, b, c]), true) ==
            "(" + Clause(quote, a) + Clause(quote, b) + SlotText(Render(quote, c.0.s, c.1)) + ")"
  {
    var e := [a, b, c];
    assert QuotableEntries(e);
    var x := SlotText(Render(quote, c.0.s, c.1));
    var f := CompileCond(quote, Map(e), false);
    assert f == Where(quote, [a, b]) + x by {
      CompileFront(quote, e);
      assert e[..2] == [a, b];
    }
    assert Where(quote, [a, b]) == Clause(quote, a) + Clause(quote, b) by {
      TwoClauses(quote, a, b);
    }
    assert CompileCond(quote, Map(e), true) == "(" + f + ")" by {
      DashWrapsOnce(quote, e);
    }
    Parenthesised(CompileCond(quote, Map(e), true), f, Clause(quote, a), Clause(quote, b), x);
  }

  lemma Parenthesised(g: string, f: string, p: string, q: string, x: string)
    requires g == "(" + f + ")" && f == (p + q) + x
    ensures g == "(" + p + q + x + ")"
  {
  }

  /** The operators and conjunctions of the documented group are already
      trimmed and upper-case. */
  lemma Operators()
    ensures Upper(Trim(">")) == ">" && Upper(Trim("<")) == "<" && Upper(Trim("!=")) == "!="
    ensures Upper(Trim("OR")) == "OR" && Upper(Trim("AND")) == "AND"
  {
    Keyword(">");
    Keyword("<");
    Keyword("!=");
    Keyword("OR");
    AndNormal();
  }

  lemma Keyword(s: string)
    requires s == ">" || s == "<" || s == "!=" || s == "OR"
    ensures Upper(Trim(s)) == s
  {
    assert s[0] in "<>!O" && s[|s| - 1] in "<>=R";
    assert forall i :: 0 <= i < |s| ==> s[i] in "<>!=OR";
    UpperTrimUnchanged(s);
  }

  /** The replacement does not stop at the keys: a literal that holds a
      synthetic key has it replaced by the field too. Here the alternate is
      `[v, '=']` or any other term normalised to (v, =, AND). */
  lemma GroupRewritesLiteral(quote: Quoter, field: string, t: Term, v: string, pre: string, post: string)
    requires Normalize(t) == Norm(Atom(VStr(v)), "=", "AND", false)
    requires ':' !in pre && ':' !in post && quote(v) == pre + Token(0) + post
    ensures QuotableTerm(t)
    ensures GroupText(quote, field, [t]) == "(" + field + " = " + pre + field + post + ")"
  {
    assert QuotableTerm(t);
    KeyedLiteralSlots(quote, t, v, pre, post);
    GroupOfKeyedLiteral(quote, field, t, pre, post);
  }

  /** Under the key `:+0+:`, the alternate reads `:+0+: = pre:+0+:post`. */
  lemma KeyedLiteralSlots(quote: Quoter, t: Term, v: string, pre: string, post: string)
    requires Normalize(t) == Norm(Atom(VStr(v)), "=", "AND", false)
    requires quote(v) == pre + Token(0) + post
    ensures SlotText(Render(quote, Token(0), t)) == Token(0) + ((" = " + pre) + (Token(0) + post))
  {
    EqualsSlots(quote, v, Token(0), t);
  }

  /** Both keys in that text become the field. */
  lemma GroupOfKeyedLiteral(quote: Quoter, field: string, t: Term, pre: string, post: string)
    requires QuotableTerm(t) && ':' !in pre && ':' !in post
    requires SlotText(Render(quote, Token(0), t)) == Token(0) + ((" = " + pre) + (Token(0) + post))
    ensures GroupText(quote, field, [t]) == "(" + field + " = " + pre + field + post + ")"
  {
    var x := SlotText(Render(quote, Token(0), t));
    SingleAlternate(quote, field, t);
    LiteralReplace(Token(0), pre, post, field);
    Wrap(GroupText(quote, field, [t]), Replace(x, Token(0), field), field, pre, post);
  }

  lemma Wrap(g: string, r: string, field: string, pre: string, post: string)
    requires g == "(" + r + ")" && r == field + (" = " + pre) + field + post
    ensures g == "(" + field + " = " + pre + field + post + ")"
  {
  }

  /** `[v, '=']` is the tuple (v, =, AND, false). */
  lemma EqualsTerm(v: string)
    ensures Normalize(Tuple(Atom(VStr(v)), Some("="), None, None)) == Norm(Atom(VStr(v)), "=", "AND", false)
  {
    EqualsNormal();
  }

  lemma EqualsSlots(quote: Quoter, v: string, key: string, t: Term)
    requires Normalize(t) == Norm(Atom(VStr(v)), "=", "AND", false)
    ensures SlotText(Render(quote, key, t)) == key + " = " + quote(v)
  {
    RenderOfAtom(quote, key, t, VStr(v));
  }

  lemma LiteralReplace(tok: string, pre: string, post: string, rep: string)
    requires |tok| > 0 && tok[0] == ':' && ':' !in pre && ':' !in post
    ensures Replace(tok + ((" = " + pre) + (tok + post)), tok, rep) == rep + (" = " + pre) + rep + post
  {
    var mid := " = " + pre;
    assert ':' !in mid;
    ReplaceTwice(tok, mid, post, rep);
  }

  /** So `'a' => [[['x:+0+:y', '=']], 'FIELD_GROUP']`, quoted with single
      quotes, compares a with 'xay'. */
  lemma LiteralExample()
    ensures var quote: Quoter := s => "'" + s + "'";
            GroupText(quote, "a", [Tuple(Atom(VStr("x:+0+:y")), Some("="), None, None)]) == "(a = 'xay')"
  {
    var quote: Quoter := s => "'" + s + "'";
    var t := Tuple(Atom(VStr("x:+0+:y")), Some("="), None, None);
    EqualsTerm("x:+0+:y");
    KeyZero();
    assert quote("x:+0+:y") == "'x" + Token(0) + "y'";
    QuotedWithKey(quote, t, "x:+0+:y");
  }

  lemma KeyZero()
    ensures Token(0) == ":+0+:"
  {
  }

  lemma QuotedWithKey(quote: Quoter, t: Term, v: string)
    requires Normalize(t) == Norm(Atom(VStr(v)), "=", "AND", false)
    requires quote(v) == "'x" + Token(0) + "y'"
    ensures GroupText(quote, "a", [t]) == "(a = 'xay')"
  {
    GroupRewritesLiteral(quote, "a", t, v, "'x", "y'");
  }

  /** A group of one scalar alternate: its slots under the key `:+0+:`,
      with the key replaced, in parentheses. */
  lemma SingleAlternate(quote: Quoter, field: string, t: Term)
    requires QuotableTerm(t)
    ensures forall k :: 0 <= k < |[t]| ==> QuotableTerm([t][k])
    ensures GroupText(quote, field, [t]) ==
            "(" + Replace(SlotText(Render(quote, Token(0), t)), Token(0), field) + ")"
  {
    var x := SlotText(Render(quote, Token(0), t));
    GroupIsParenthesised(quote, field, [t]);
    assert GroupEntries([t]) == [(Str(Token(0)), t)];
    SingleEntry(quote, Token(0), t);
    assert ReplaceTokens(x, 1, field) == Replace(x, Token(0), field);
  }

  /** Both occurrences of tok in `tok mid tok end` are replaced. */
  lemma ReplaceTwice(tok: string, mid: string, end: string, rep: string)
    requires |tok| > 0 && tok[0] !in mid && tok[0] !in end
    ensures Replace(tok + (mid + (tok + end)), tok, rep) == rep + mid + rep + end
  {
    ReplaceAtStart(tok, mid + (tok + end), rep);
    NoFirstCharNoMatch(mid, tok + end, tok);
    ReplaceSkipsPrefix(mid, tok + end, tok, rep);
    ReplaceAtStart(tok, end, rep);
    ReplaceAbsent(end, tok, rep);
  }
}
