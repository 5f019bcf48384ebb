/** What a FIELD_GROUP means. `parseCond` compiles the alternates of a
    group under synthetic keys `:+k+:` and then replaces every key by the
    field. When the field and the alternates' own text hold no colon, this
    is the same as compiling the alternates under the field itself: the
    group reads `(field op v conj field op v conj ... field op v)`. */
module DbFieldGroup {
  import opened PhpStrings
  import opened PhpValues
  import opened DbDataSource
  import opened DbCondition
  import opened DbConditionProperties

  /** The entries a FIELD_GROUP stands for: every alternate under the field. */
  function FieldEntries(field: string, items: seq<Term>): (kv: seq<(Key, Term)>)
    ensures |kv| == |items|
    ensures forall k :: 0 <= k < |items| ==> kv[k] == (Str(field), items[k])
  {
    seq(|items|, k requires 0 <= k < |items| => (Str(field), items[k]))
  }

  /** An alternate whose text is all its own: not a nested group, and no
      colon in its operator, its value or its conjunction. */
  predicate PlainAlternate(quote: Quoter, t: Term)
  {
    QuotableTerm(t) &&
    !(Normalize(t).value.List? && Normalize(t).op == "FIELD_GROUP") &&
    ':' !in Render(quote, "", t).op && ':' !in Render(quote, "", t).value &&
    ':' !in Normalize(t).conj
  }

  /** Every alternate of a group is plain. The second quantifier fires only
      where an alternate is asked to be plain, which keeps the solver from
      unfolding the text of every alternate in sight. */
  predicate PlainAlternates(quote: Quoter, items: seq<Term>)
  {
    (forall k :: 0 <= k < |items| ==> QuotableTerm(items[k])) &&
    forall k {:trigger PlainAlternate(quote, items[k])} :: 0 <= k < |items| ==> PlainAlternate(quote, items[k])
  }

  // ---------------------------------------------------------------------
  // The synthetic keys
  // ---------------------------------------------------------------------

  /** The characters of a key: a colon at both ends, `+` and digits between. */
  lemma TokenChars(k: nat)
    ensures Token(k)[1] == '+' && ' ' !in Token(k)
    ensures forall p :: 0 < p < |Token(k)| - 1 ==> Token(k)[p] != ':'
  {
    var d := NatToString(k);
    assert Token(k) == ":+" + d + "+:";
    forall p | 0 <= p < |Token(k)|
      ensures Token(k)[p] != ' ' && (0 < p < |Token(k)| - 1 ==> Token(k)[p] != ':')
    {
      if 2 <= p < 2 + |d| {
        assert Token(k)[p] == d[p - 2];
      }
    }
  }

  /** One key starts another's text only when the two are the same key:
      `:+1+:` does not match inside `:+10+:`. */
  lemma TokenPrefix(i: nat, j: nat, x: string)
    ensures StartsWith(Token(j) + x, Token(i)) ==> i == j
  {
    var s, t := Token(j) + x, Token(i);
    var di, dj := NatToString(i), NatToString(j);
    if StartsWith(s, t) {
      assert t == ":+" + di + "+:" && s == ":+" + dj + "+:" + x;
      assert forall m :: 0 <= m < |t| ==> t[m] == s[m];
      assert t[2 + |di|] == '+' && s[2 + |dj|] == '+';
      assert forall k :: 0 <= k < |di| ==> t[2 + k] == di[k];
      assert forall k :: 0 <= k < |dj| ==> s[2 + k] == dj[k];
      assert |di| == |dj|;
      assert di == dj;
      IntToStringInjective(i, j);
    }
  }

  /** Replacing key i in `Token(j) + rest` turns only that key into rep, when
      the rest holds no colon and starts with a space. */
  lemma TokenKeyReplace(j: nat, i: nat, rest: string, rep: string)
    requires ':' !in rest && rest != [] && rest[0] == ' '
    ensures Replace(Token(j) + rest, Token(i), rep) == (if i == j then rep else Token(j)) + rest
  {
    var tok := Token(i);
    TokenChars(i);
    TokenChars(j);
    ReplaceAbsent(rest, tok, rep);
    if i == j {
      ReplaceAtStart(tok, rest, rep);
    } else {
      var s := Token(j) + rest;
      forall p | 0 <= p < |Token(j)|
        ensures !StartsWith(s[p..], tok)
      {
        if p == 0 {
          assert s[p..] == s;
          TokenPrefix(i, j, rest);
        } else if p < |Token(j)| - 1 {
          assert s[p..][0] == Token(j)[p];
        } else {
          assert s[p..][1] == rest[0];
        }
      }
      assert NoMatchStartsIn(Token(j), rest, tok);
      ReplaceSkipsPrefix(Token(j), rest, tok, rep);
    }
  }

  // ---------------------------------------------------------------------
  // The entries while the keys are replaced one after the other
  // ---------------------------------------------------------------------

  /** The key of alternate k once the first i keys have been replaced. */
  function StageKey(field: string, i: nat, k: nat): string
  {
    if k < i then field else Token(k)
  }

  function Stage(field: string, items: seq<Term>, i: nat): (kv: seq<(Key, Term)>)
    ensures |kv| == |items|
    ensures forall k :: 0 <= k < |items| ==> kv[k] == (Str(StageKey(field, i, k)), items[k])
  {
    seq(|items|, k requires 0 <= k < |items| => (Str(StageKey(field, i, k)), items[k]))
  }

  /** Replacing key i turns the key of alternate k into its next stage. */
  lemma KeyReplace(field: string, i: nat, k: nat, rest: string)
    requires ':' !in field && ':' !in rest && rest != [] && rest[0] == ' '
    ensures Replace(StageKey(field, i, k) + rest, Token(i), field) == StageKey(field, i + 1, k) + rest
  {
    if k < i {
      var tok := Token(i);
      assert tok[0] == ':';
      ReplaceAbsent(field + rest, tok, field);
    } else {
      TokenKeyReplace(k, i, rest, field);
    }
  }

  /** What an alternate puts after its key, before its conjunction. */
  function Head(quote: Quoter, t: Term): string
    requires QuotableTerm(t)
  {
    " " + Render(quote, "", t).op + " " + Render(quote, "", t).value
  }

  /** What an alternate's clause puts after its key. */
  function Tail(quote: Quoter, t: Term): string
    requires QuotableTerm(t)
  {
    Head(quote, t) + " " + Normalize(t).conj + " "
  }

  /** An alternate's slots and clause under any key. */
  lemma AlternateText(quote: Quoter, key: string, t: Term)
    requires PlainAlternate(quote, t)
    ensures SlotText(Render(quote, key, t)) == key + Head(quote, t)
    ensures Clause(quote, (Str(key), t)) == key + Tail(quote, t)
    ensures ':' !in Head(quote, t) && Head(quote, t) != [] && Head(quote, t)[0] == ' '
    ensures ':' !in Tail(quote, t) && Tail(quote, t) != [] && Tail(quote, t)[0] == ' '
    ensures Tail(quote, t)[|Tail(quote, t)| - 1] == ' '
  {
    var r := Render(quote, "", t);
    RenderRekey(quote, key, t);
    ClauseOfStr(quote, key, t);
    SpelledAlternate(key, r.op, r.value, Normalize(t).conj);
  }

  lemma SpelledAlternate(key: string, o: string, v: string, c: string)
    requires ':' !in o && ':' !in v && ':' !in c
    ensures var h := " " + o + " " + v;
            SlotText(Slots(key, o, v)) == key + h &&
            SlotText(Slots(key, o, v)) + (" " + c + " ") == key + (h + " " + c + " ") &&
            ':' !in h && h[0] == ' ' && ':' !in h + " " + c + " " && (h + " " + c + " ")[0] == ' ' &&
            (h + " " + c + " ")[|h + " " + c + " "| - 1] == ' '
  {
  }

  /** Outside a nested group, the key fills the field slot and nothing else. */
  lemma RenderRekey(quote: Quoter, key: string, t: Term)
    requires QuotableTerm(t) && !(Normalize(t).value.List? && Normalize(t).op == "FIELD_GROUP")
    ensures Render(quote, key, t) == Render(quote, "", t).(field := key)
  {
    var n := Normalize(t);
    match n.value
    case Atom(v) =>
      RenderOfAtom(quote, key, t, v);
      RenderOfAtom(quote, "", t, v);
    case List(items) =>
      RenderOfList(quote, key, t, items);
      RenderOfList(quote, "", t, items);
  }

  /** A map whose last entry has a string key compiles to the clauses before
      it and the last entry's slots. */
  lemma CompileFront(quote: Quoter, e: seq<(Key, Term)>)
    requires QuotableEntries(e) && e != [] && e[|e| - 1].0.Str?
    ensures QuotableEntries(e[..|e| - 1])
    ensures CompileCond(quote, Map(e), false) ==
            Where(quote, e[..|e| - 1]) + SlotText(Render(quote, e[|e| - 1].0.s, e[|e| - 1].1))
  {
    var n := |e|;
    var last := e[n - 1];
    WhereStep(quote, e, n - 1);
    assert e[..n] == e;
    ClauseOfStr(quote, last.0.s, last.1);
    CompileMap(quote, e, false);
    var w0, x := Where(quote, e[..n - 1]), SlotText(Render(quote, last.0.s, last.1));
    var tail := " " + Normalize(last.1).conj + " ";
    Assoc(w0, x, tail);
    DropLastAppend(w0 + x, tail);
  }

  /** Every stage of a group of plain alternates can be compiled. */
  lemma StageQuotable(quote: Quoter, field: string, items: seq<Term>, i: nat)
    requires PlainAlternates(quote, items)
    ensures QuotableEntries(Stage(field, items, i)) && QuotableCond(Map(Stage(field, items, i)))
  {
  }

  // ---------------------------------------------------------------------
  // The replacement on the spelled-out text
  // ---------------------------------------------------------------------

  /** A clause text without colons that starts and ends with a space. */
  predicate Spaced(t: string)
  {
    ':' !in t && t != [] && t[0] == ' ' && t[|t| - 1] == ' '
  }

  predicate SpacedPieces(tails: seq<string>)
  {
    forall k :: 0 <= k < |tails| ==> Spaced(tails[k])
  }

  /** The text of the first m alternates at stage i, each its key and then
      its clause text. */
  function StagePrefix(field: string, i: nat, tails: seq<string>, m: nat): string
    requires m <= |tails|
  {
    if m == 0 then "" else StagePrefix(field, i, tails, m - 1) + (StageKey(field, i, m - 1) + tails[m - 1])
  }

  /** The text of a whole stage: the clauses of all alternates but the last,
      then the last one's key and head. */
  function StageText(field: string, i: nat, tails: seq<string>, head: string): string
    requires tails != []
  {
    StagePrefix(field, i, tails, |tails| - 1) + (StageKey(field, i, |tails| - 1) + head)
  }

  /** Text that is empty or ends with a space: no key can run across its end. */
  predicate EndsInSpace(w: string)
  {
    w == [] || w[|w| - 1] == ' '
  }

  /** Replacing in text that is empty or ends with a space, then more text. */
  lemma ReplaceStep(w0: string, w0': string, x: string, x': string, tok: string, rep: string)
    requires |tok| > 0 && ' ' !in tok
    requires Replace(w0, tok, rep) == w0' && Replace(x, tok, rep) == x'
    requires EndsInSpace(w0)
    ensures Replace(w0 + x, tok, rep) == w0' + x'
  {
    if w0 == [] {
      assert w0 + x == x && w0' + x' == x';
    } else {
      ReplaceSplit(w0, x, tok, rep);
    }
  }

  /** ReplaceStep for a synthetic key. */
  lemma ReplaceLast(w: string, w': string, x: string, x': string, i: nat, field: string)
    requires Replace(w, Token(i), field) == w' && Replace(x, Token(i), field) == x'
    requires EndsInSpace(w)
    ensures Replace(w + x, Token(i), field) == w' + x'
  {
    TokenChars(i);
    ReplaceStep(w, w', x, x', Token(i), field);
  }

  /** Replacing key i in a text that ends with a space (or is empty),
      followed by the key of alternate k at stage i and text without colons. */
  lemma KeyedStep(field: string, i: nat, w: string, w': string, h: string, k: nat)
    requires ':' !in field && ':' !in h && h != [] && h[0] == ' '
    requires Replace(w, Token(i), field) == w' && EndsInSpace(w)
    ensures Replace(w + (StageKey(field, i, k) + h), Token(i), field) == w' + (StageKey(field, i + 1, k) + h)
  {
    KeyReplace(field, i, k, h);
    ReplaceLast(w, w', StageKey(field, i, k) + h, StageKey(field, i + 1, k) + h, i, field);
  }

  /** One alternate more: its key and clause text follow the prefix. */
  lemma PrefixStep(field: string, i: nat, w: string, w': string, t: string, k: nat)
    requires ':' !in field && Spaced(t)
    requires Replace(w, Token(i), field) == w' && EndsInSpace(w)
    ensures Replace(w + (StageKey(field, i, k) + t), Token(i), field) == w' + (StageKey(field, i + 1, k) + t)
    ensures EndsInSpace(w + (StageKey(field, i, k) + t))
  {
    var x := StageKey(field, i, k) + t;
    KeyedStep(field, i, w, w', t, k);
    assert (w + x)[|w + x| - 1] == t[|t| - 1];
  }

  /** Replacing key i in the first m alternates of stage i gives those of
      stage i + 1; the text is empty or ends with a space. */
  lemma {:induction false} PrefixReplace(field: string, i: nat, tails: seq<string>, m: nat)
    requires ':' !in field && SpacedPieces(tails) && m <= |tails|
    ensures Replace(StagePrefix(field, i, tails, m), Token(i), field) == StagePrefix(field, i + 1, tails, m)
    ensures EndsInSpace(StagePrefix(field, i, tails, m))
    decreases m
  {
    if m > 0 {
      PrefixReplace(field, i, tails, m - 1);
      assert Spaced(tails[m - 1]);
      PrefixStep(field, i, StagePrefix(field, i, tails, m - 1), StagePrefix(field, i + 1, tails, m - 1),
                 tails[m - 1], m - 1);
    }
  }

  /** Replacing key i in the text of stage i gives the text of stage i + 1. */
  lemma TextReplace(field: string, i: nat, tails: seq<string>, head: string)
    requires ':' !in field && SpacedPieces(tails) && tails != []
    requires ':' !in head && head != [] && head[0] == ' '
    ensures Replace(StageText(field, i, tails, head), Token(i), field) == StageText(field, i + 1, tails, head)
  {
    var n := |tails|;
    PrefixReplace(field, i, tails, n - 1);
    KeyedStep(field, i, StagePrefix(field, i, tails, n - 1), StagePrefix(field, i + 1, tails, n - 1), head, n - 1);
  }

  /** After m replacements the text of stage 0 is the text of stage m. */
  lemma {:induction false} TextsReplace(field: string, tails: seq<string>, head: string, m: nat)
    requires ':' !in field && SpacedPieces(tails) && tails != []
    requires ':' !in head && head != [] && head[0] == ' '
    ensures ReplaceTokens(StageText(field, 0, tails, head), m, field) == StageText(field, m, tails, head)
    decreases m
  {
    if m > 0 {
      TextsReplace(field, tails, head, m - 1);
      TextReplace(field, m - 1, tails, head);
    }
  }

  // ---------------------------------------------------------------------
  // The compiled text of a stage, spelled out
  // ---------------------------------------------------------------------

  function Tails(quote: Quoter, items: seq<Term>): (tails: seq<string>)
    requires forall k :: 0 <= k < |items| ==> QuotableTerm(items[k])
    ensures |tails| == |items| && forall k :: 0 <= k < |items| ==> tails[k] == Tail(quote, items[k])
  {
    seq(|items|, k requires 0 <= k < |items| => Tail(quote, items[k]))
  }

  lemma TailsSpaced(quote: Quoter, items: seq<Term>)
    requires PlainAlternates(quote, items)
    ensures SpacedPieces(Tails(quote, items))
  {
    var tails := Tails(quote, items);
    forall k | 0 <= k < |items|
      ensures Spaced(tails[k])
    {
      AlternateText(quote, "", items[k]);
    }
  }

  /** One alternate more: the clauses of stage i grow by its key and tail. */
  lemma WhereSpelledStep(quote: Quoter, field: string, items: seq<Term>, i: nat, m: nat)
    requires PlainAlternates(quote, items) && 0 < m <= |items|
    requires QuotableEntries(Stage(field, items, i))
    requires Where(quote, Stage(field, items, i)[..m - 1]) == StagePrefix(field, i, Tails(quote, items), m - 1)
    ensures Where(quote, Stage(field, items, i)[..m]) == StagePrefix(field, i, Tails(quote, items), m)
  {
    var e := Stage(field, items, i);
    WhereStep(quote, e, m - 1);
    var key := StageKey(field, i, m - 1);
    assert e[m - 1] == (Str(key), items[m - 1]);
    AlternateText(quote, key, items[m - 1]);
  }

  /** The clauses of the first m alternates at stage i. */
  lemma {:induction false} WhereSpelled(quote: Quoter, field: string, items: seq<Term>, i: nat, m: nat)
    requires PlainAlternates(quote, items)
    requires m <= |items|
    ensures QuotableEntries(Stage(field, items, i))
    ensures Where(quote, Stage(field, items, i)[..m]) == StagePrefix(field, i, Tails(quote, items), m)
    decreases m
  {
    StageQuotable(quote, field, items, i);
    if m > 0 {
      WhereSpelled(quote, field, items, i, m - 1);
      WhereSpelledStep(quote, field, items, i, m);
    } else {
      assert Stage(field, items, i)[..0] == [];
    }
  }

  /** The compiled text of stage i is its spelled-out text. */
  lemma CompileSpelled(quote: Quoter, field: string, items: seq<Term>, i: nat)
    requires PlainAlternates(quote, items)
    requires items != []
    ensures QuotableCond(Map(Stage(field, items, i)))
    ensures CompileCond(quote, Map(Stage(field, items, i)), false) ==
            StageText(field, i, Tails(quote, items), Head(quote, items[|items| - 1]))
  {
    var n := |items|;
    var e := Stage(field, items, i);
    StageQuotable(quote, field, items, i);
    var key := StageKey(field, i, n - 1);
    assert e[n - 1] == (Str(key), items[n - 1]);
    assert QuotableEntries(e[..n - 1]);
    var w := Where(quote, e[..n - 1]);
    var x := SlotText(Render(quote, key, items[n - 1]));
    assert CompileCond(quote, Map(e), false) == w + x by {
      CompileFront(quote, e);
    }
    assert w == StagePrefix(field, i, Tails(quote, items), n - 1) by {
      WhereSpelled(quote, field, items, i, n - 1);
    }
    assert x == key + Head(quote, items[n - 1]) by {
      AlternateText(quote, key, items[n - 1]);
    }
  }

  /** The token-keyed compile, with all keys replaced, is the compile under
      the field. */
  lemma CompileReplace(quote: Quoter, field: string, items: seq<Term>)
    requires ':' !in field && PlainAlternates(quote, items) && items != []
    ensures QuotableCond(Map(GroupEntries(items))) && QuotableCond(Map(FieldEntries(field, items)))
    ensures ReplaceTokens(CompileCond(quote, Map(GroupEntries(items)), false), |items|, field) ==
            CompileCond(quote, Map(FieldEntries(field, items)), false)
  {
    var n := |items|;
    var tails, head := Tails(quote, items), Head(quote, items[n - 1]);
    assert Stage(field, items, 0) == GroupEntries(items);
    assert Stage(field, items, n) == FieldEntries(field, items);
    CompileSpelled(quote, field, items, 0);
    CompileSpelled(quote, field, items, n);
    TailsSpaced(quote, items);
    AlternateText(quote, "", items[n - 1]);
    TextsReplace(field, tails, head, n);
  }

  /** A FIELD_GROUP is its alternates, each as `field op v conj`, in order,
      inside one pair of parentheses: exactly what compiling the alternates
      under the field itself, with parentheses asked for, gives. This holds
      when neither the field nor the alternates' own text holds a colon. */
  lemma GroupReadsAsAlternates(quote: Quoter, field: string, items: seq<Term>)
    requires ':' !in field
    requires PlainAlternates(quote, items)
    ensures QuotableCond(Map(FieldEntries(field, items)))
    ensures GroupText(quote, field, items) == CompileCond(quote, Map(FieldEntries(field, items)), true)
  {
    var fe := FieldEntries(field, items);
    assert QuotableCond(Map(fe));
    if items == [] {
      assert fe == [] && GroupEntries(items) == [];
    } else {
      CompileReplace(quote, field, items);
      GroupIsParenthesised(quote, field, items);
      DashWrapsOnce(quote, fe);
    }
  }
}
