/** The condition compiler of `Db_SqlHelper::parseCond`.

    A condition is a raw SQL string, some other scalar, or an ordered array
    `field => term`. A term is a scalar or a positional tuple
    `(value, op, conj, isCommand)` with optional positions; a value is a
    scalar or a list. `CompileCond` states what the compiler returns, as a
    function; `ParseCond` is the loop that computes it. */
module DbCondition {
  import opened PhpStrings
  import opened PhpValues
  import opened DbDataSource

  /** The first position of a term: a scalar or a PHP list. */
  datatype Operand = Atom(v: Val) | List(items: seq<Term>)

  /** One condition term. `Bare(v)` is a non-array entry, which the code
      wraps as `array(v)`. In a `Tuple`, `None` is a position that `isset`
      reports as missing (absent or null); a missing value is null. */
  datatype Term =
    | Bare(v: Val)
    | Tuple(value: Operand, op: Option<string>, conj: Option<string>, command: Option<bool>)

  /** The `$cond` argument: a scalar (a string is raw SQL) or an ordered array. */
  datatype Cond = Scalar(v: Val) | Map(entries: seq<(Key, Term)>)

  /** A term after default filling and normalisation of operator and conjunction. */
  datatype Norm = Norm(value: Operand, op: string, conj: string, command: bool)

  /** The three slots of the emitted `"{field} {op} {value} {conj} "`. */
  datatype Slots = Slots(field: string, op: string, value: string)

  const EqualIn: set<string> := {"=", "IN", "NOT IN"}
  const BetweenAnd: set<string> := {"BETWEEN_AND", "NOT_BETWEEN_AND"}

  // ---------------------------------------------------------------------
  // Sizes, for termination of the FIELD_GROUP recursion
  // ---------------------------------------------------------------------

  function TermSize(t: Term): nat
  {
    match t
    case Bare(_) => 1
    case Tuple(value, _, _, _) => 1 + OperandSize(value)
  }

  function OperandSize(o: Operand): nat
  {
    match o
    case Atom(_) => 1
    case List(items) => 1 + TermsSize(items)
  }

  function TermsSize(ts: seq<Term>): nat
  {
    if ts == [] then 0 else TermsSize(ts[..|ts| - 1]) + TermSize(ts[|ts| - 1])
  }

  function EntriesSize(e: seq<(Key, Term)>): nat
  {
    if e == [] then 0 else EntriesSize(e[..|e| - 1]) + TermSize(e[|e| - 1].1)
  }

  function CondSize(c: Cond): nat
  {
    match c
    case Scalar(_) => 1
    case Map(e) => 1 + EntriesSize(e)
  }

  lemma {:induction false} EntrySizeBound(e: seq<(Key, Term)>, i: nat)
    requires i < |e|
    ensures TermSize(e[i].1) <= EntriesSize(e)
    decreases |e|
  {
    if i < |e| - 1 {
      assert e[..|e| - 1][i] == e[i];
      EntrySizeBound(e[..|e| - 1], i);
    }
  }

  // ---------------------------------------------------------------------
  // Term normalisation (the isset defaults, trim and strtoupper)
  // ---------------------------------------------------------------------

  function GetOr<T>(o: Option<T>, default: T): T
  {
    if o.Some? then o.value else default
  }

  /** The tuple the code works on: a bare value becomes `array(v)`. */
  function AsTuple(t: Term): (r: Term)
    ensures r.Tuple?
  {
    if t.Bare? then Tuple(Atom(t.v), None, None, None) else t
  }

  /** Missing op is `=`, missing conj is `AND` (the value `$expr` was just
      reset to), a missing isCommand is false; a given op and conj are
      trimmed and upper-cased. The code also trims and upper-cases the
      defaults, which leaves them as they are (`EqualsNormal`, `AndNormal`). */
  function Normalize(t: Term): Norm
  {
    var d := AsTuple(t);
    Norm(d.value,
         if d.op.Some? then Upper(Trim(d.op.value)) else "=",
         if d.conj.Some? then Upper(Trim(d.conj.value)) else "AND",
         GetOr(d.command, false))
  }

  lemma EqualsNormal()
    ensures Upper(Trim("=")) == "="
  {
    var s := "=";
    assert s[0] == '=';
    UpperTrimUnchanged(s);
  }

  lemma AndNormal()
    ensures Upper(Trim("AND")) == "AND"
  {
    var s := "AND";
    assert s[0] == 'A' && s[1] == 'N' && s[2] == 'D';
    UpperTrimUnchanged(s);
  }

  // ---------------------------------------------------------------------
  // What the driver is asked to quote
  // ---------------------------------------------------------------------

  /** The items of a list that the code passes to `qstr` must be scalars:
      all items for `=`/`IN`/`NOT IN`, the first two for the BETWEEN forms,
      and nested requirements for the alternates of a FIELD_GROUP. Quoting
      an array makes `PDO::quote` throw. */
  predicate QuotableTerm(t: Term)
    decreases t, 1
  {
    match t
    case Bare(_) => true
    case Tuple(value, _, _, _) =>
      match value
      case Atom(_) => true
      case List(items) => QuotableList(Normalize(t).op, items)
  }

  /** The items of a list under its normalised operator. */
  predicate QuotableList(op: string, items: seq<Term>)
    decreases items, 0
  {
    if op in EqualIn then forall k :: 0 <= k < |items| ==> items[k].Bare?
    else if op in BetweenAnd then forall k :: 0 <= k < |items| && k < 2 ==> items[k].Bare?
    else if op == "FIELD_GROUP" then forall k :: 0 <= k < |items| ==> QuotableTerm(items[k])
    else true
  }

  predicate QuotableEntries(e: seq<(Key, Term)>)
  {
    forall i :: 0 <= i < |e| ==> QuotableTerm(e[i].1)
  }

  predicate QuotableCond(c: Cond)
  {
    c.Map? ==> QuotableEntries(c.entries)
  }

  function QuoteItems(quote: Quoter, items: seq<Term>): (r: seq<string>)
    requires forall k :: 0 <= k < |items| ==> items[k].Bare?
    ensures |r| == |items|
    ensures forall k :: 0 <= k < |items| ==> r[k] == Qstr(quote, items[k].v)
  {
    seq(|items|, k requires 0 <= k < |items| => Qstr(quote, items[k].v))
  }

  /** `array_shift` of a list: its k-th scalar, or null when it is too short. */
  function ItemAt(items: seq<Term>, k: nat): Val
    requires k < |items| ==> items[k].Bare?
  {
    if k < |items| then items[k].v else VNull
  }

  // ---------------------------------------------------------------------
  // FIELD_GROUP: synthetic keys and their substitution
  // ---------------------------------------------------------------------

  /** The synthetic key `:+k+:` of the k-th alternate. */
  function Token(k: nat): (tok: string)
    ensures |tok| > 4 && tok[0] == ':' && tok[|tok| - 1] == ':'
  {
    ":+" + NatToString(k) + "+:"
  }

  /** The array `$kv` the code builds: alternate k under key `:+k+:`. */
  function GroupEntries(items: seq<Term>): (kv: seq<(Key, Term)>)
    ensures |kv| == |items|
    ensures forall k :: 0 <= k < |items| ==> kv[k] == (Str(Token(k)), items[k])
  {
    seq(|items|, k requires 0 <= k < |items| => (Str(Token(k)), items[k]))
  }

  lemma {:induction false} GroupEntriesSize(items: seq<Term>)
    ensures EntriesSize(GroupEntries(items)) == TermsSize(items)
    decreases |items|
  {
    if items != [] {
      var n := |items|;
      assert GroupEntries(items)[..n - 1] == GroupEntries(items[..n - 1]);
      GroupEntriesSize(items[..n - 1]);
    }
  }

  /** The first n synthetic keys, in turn, replaced by the field name. */
  function ReplaceTokens(s: string, n: nat, field: string): string
  {
    if n == 0 then s else Replace(ReplaceTokens(s, n - 1, field), Token(n - 1), field)
  }

  // ---------------------------------------------------------------------
  // The compiler, as functions
  // ---------------------------------------------------------------------

  /** PHP `empty($cond)`. */
  predicate EmptyCond(c: Cond)
  {
    match c
    case Scalar(v) => EmptyVal(v)
    case Map(e) => e == []
  }

  /** What one string-keyed entry puts in the field, op and value slots. */
  function Render(quote: Quoter, field: string, t: Term): (s: Slots)
    requires QuotableTerm(t)
    decreases TermSize(t), 2
  {
    var n := Normalize(t);
    match n.value
    case Atom(v) =>
      Slots(field, n.op, if n.command then Text(v) else Qstr(quote, v))
    case List(items) =>
      assert TermSize(t) == TermsSize(items) + 2;
      ListSlots(quote, field, n.op, items)
  }

  /** The slots of a list value, by its normalised operator. */
  function ListSlots(quote: Quoter, field: string, op: string, items: seq<Term>): (s: Slots)
    requires QuotableList(op, items)
    decreases TermsSize(items) + 2, 1
  {
    if op in EqualIn then
      Slots(field, if op == "=" then "IN" else op, "(" + Join(",", QuoteItems(quote, items)) + ")")
    else if op in BetweenAnd then
      Slots(field, if op == "NOT_BETWEEN_AND" then "NOT" else "",
            "BETWEEN " + Qstr(quote, ItemAt(items, 0)) + " AND " + Qstr(quote, ItemAt(items, 1)))
    else if op == "FIELD_GROUP" then
      Slots("", "", GroupText(quote, field, items))
    else
      // any other operator: the list is interpolated as PHP's "Array"
      Slots(field, op, "Array")
  }

  /** A FIELD_GROUP value: the alternates compiled under their synthetic
      keys with parentheses requested, then every key replaced by the field. */
  function GroupText(quote: Quoter, field: string, items: seq<Term>): string
    requires forall k :: 0 <= k < |items| ==> QuotableTerm(items[k])
    decreases TermsSize(items) + 2, 0
  {
    GroupEntriesSize(items);
    var kv := GroupEntries(items);
    assert QuotableCond(Map(kv));
    ReplaceTokens(CompileCond(quote, Map(kv), true), |items|, field)
  }

  /** `"{field} {op} {value}"`: a clause without its conjunction. */
  function SlotText(s: Slots): string
  {
    s.field + " " + s.op + " " + s.value
  }

  /** The text one entry appends to `$where`; a non-string key appends nothing. */
  function Clause(quote: Quoter, entry: (Key, Term)): string
    requires QuotableTerm(entry.1)
    decreases TermSize(entry.1), 3
  {
    if entry.0.Int? then ""
    else SlotText(Render(quote, entry.0.s, entry.1)) + " " + Normalize(entry.1).conj + " "
  }

  /** `$where` after the loop: the clauses in iteration order. */
  function Where(quote: Quoter, e: seq<(Key, Term)>): string
    requires QuotableEntries(e)
    decreases EntriesSize(e), 4
  {
    if e == [] then ""
    else
      EntrySizeBound(e, |e| - 1);
      Where(quote, e[..|e| - 1]) + Clause(quote, e[|e| - 1])
  }

  /** `$expr` after the loop: set to AND on every iteration, then to the
      normalised conjunction of a string-keyed entry. */
  function LastExpr(e: seq<(Key, Term)>): string
  {
    if e == [] then ""
    else if e[|e| - 1].0.Int? then "AND"
    else Normalize(e[|e| - 1].1).conj
  }

  /** `parseCond($cond, $dash)`. */
  function CompileCond(quote: Quoter, c: Cond, dash: bool): string
    requires QuotableCond(c)
    decreases CondSize(c), 5
  {
    if EmptyCond(c) then ""
    else
      match c
      case Scalar(v) => if v.VStr? then v.s else ""
      case Map(e) =>
        var w := DropLast(Where(quote, e), |LastExpr(e)| + 2);
        if dash then "(" + w + ")" else w
  }

  // ---------------------------------------------------------------------
  // The compiler as the code runs it
  // ---------------------------------------------------------------------

  /** One more iteration of the loop appends the clause of entry i. */
  lemma WhereStep(quote: Quoter, e: seq<(Key, Term)>, i: nat)
    requires QuotableEntries(e) && i < |e|
    ensures QuotableEntries(e[..i]) && QuotableEntries(e[..i + 1])
    ensures Where(quote, e[..i + 1]) == Where(quote, e[..i]) + Clause(quote, e[i])
    ensures LastExpr(e[..i + 1]) == if e[i].0.Int? then "AND" else Normalize(e[i].1).conj
  {
    assert e[..i + 1][..i] == e[..i];
  }

  /** The `foreach` of `parseCond`: each string-keyed entry appends
      `"{field} {op} {value} {expr} "`, and the last `$expr` fixes how much
      is cut off the end. */
  method ParseCond(quote: Quoter, cond: Cond, dash: bool) returns (r: string)
    requires QuotableCond(cond)
    ensures r == CompileCond(quote, cond, dash)
    decreases CondSize(cond), 2
  {
    if EmptyCond(cond) { return ""; }
    if cond.Scalar? {
      return if cond.v.VStr? then cond.v.s else "";
    }
    var entries := cond.entries;
    var where, expr := "", "";
    var i := 0;
    while i < |entries|
      invariant i <= |entries|
      invariant where == Where(quote, entries[..i])
      invariant expr == LastExpr(entries[..i])
    {
      WhereStep(quote, entries, i);
      var key, d := entries[i].0, entries[i].1;
      expr := "AND";
      if key.Int? {
        i := i + 1;
        continue;
      }
      EntrySizeBound(entries, i);
      var field, op, value;
      field, op, value, expr := RenderEntry(quote, key.s, d);
      var clause := field + " " + op + " " + value + " " + expr + " ";
      where := where + clause;
      i := i + 1;
    }
    assert entries[..i] == entries;
    where := DropLast(where, |expr| + 2);
    r := if dash then "(" + where + ")" else where;
  }

  /** One pass of the loop body for a string key: the `isset` defaults,
      normalisation, and the quoting of a scalar value that is not a
      command; a list value goes to the `do {} while(false)` dispatch. */
  method RenderEntry(quote: Quoter, key: string, d: Term)
    returns (field: string, op: string, value: string, expr: string)
    requires QuotableTerm(d)
    ensures Slots(field, op, value) == Render(quote, key, d)
    ensures expr == Normalize(d).conj
    decreases TermSize(d), 2
  {
    field := key;
    var isCommand;
    op, expr, isCommand := TupleDefaults(d);
    match AsTuple(d).value
    case List(items) =>
      RenderOfList(quote, key, d, items);
      field, op, value := RenderList(quote, field, op, items);
    case Atom(v) =>
      RenderOfAtom(quote, key, d, v);
      value := if isCommand then Text(v) else Qstr(quote, v);
  }

  /** The `isset` defaults of a tuple, then `trim` and `strtoupper` of its
      operator and conjunction. */
  method TupleDefaults(d: Term) returns (op: string, conj: string, isCommand: bool)
    ensures op == Normalize(d).op
    ensures conj == Normalize(d).conj
    ensures isCommand == Normalize(d).command
  {
    var tuple := AsTuple(d);
    op := TupleOp(d);
    conj := TupleConj(d);
    isCommand := if tuple.command.Some? then tuple.command.value else false;
  }

  /** `isset($v[1]) ? $v[1] : '='`, trimmed and upper-cased. */
  method TupleOp(d: Term) returns (op: string)
    ensures op == Normalize(d).op
  {
    var tuple := AsTuple(d);
    if tuple.op.Some? {
      op := tuple.op.value;
    } else {
      op := "=";
      EqualsNormal();
    }
    op := Upper(Trim(op));
  }

  /** `isset($v[2]) ? $v[2] : $expr` with `$expr` just reset to AND,
      trimmed and upper-cased. */
  method TupleConj(d: Term) returns (conj: string)
    ensures conj == Normalize(d).conj
  {
    var tuple := AsTuple(d);
    if tuple.conj.Some? {
      conj := tuple.conj.value;
    } else {
      conj := "AND";
      AndNormal();
    }
    conj := Upper(Trim(conj));
  }

  lemma RenderOfList(quote: Quoter, key: string, d: Term, items: seq<Term>)
    requires QuotableTerm(d) && AsTuple(d).value == List(items)
    ensures TermsSize(items) + 2 == TermSize(d)
    ensures QuotableList(Normalize(d).op, items)
    ensures Render(quote, key, d) == ListSlots(quote, key, Normalize(d).op, items)
  {
  }

  lemma RenderOfAtom(quote: Quoter, key: string, d: Term, v: Val)
    requires QuotableTerm(d) && AsTuple(d).value == Atom(v)
    ensures Render(quote, key, d) ==
            Slots(key, Normalize(d).op, if Normalize(d).command then Text(v) else Qstr(quote, v))
  {
  }

  /** The dispatch on a list value: IN lists, BETWEEN pairs, FIELD_GROUP
      alternates, and PHP's "Array" for any other operator. */
  method RenderList(quote: Quoter, key: string, normOp: string, items: seq<Term>)
    returns (field: string, op: string, value: string)
    requires QuotableList(normOp, items)
    ensures Slots(field, op, value) == ListSlots(quote, key, normOp, items)
    decreases TermsSize(items) + 2, 1
  {
    field, op := key, normOp;
    if op in EqualIn {
      if op == "=" { op := "IN"; }
      value := "(" + Join(",", QuoteItems(quote, items)) + ")";
    } else if op in BetweenAnd {
      var lo, hi := ItemAt(items, 0), ItemAt(items, 1);
      value := "BETWEEN " + Qstr(quote, lo) + " AND " + Qstr(quote, hi);
      op := if op == "NOT_BETWEEN_AND" then "NOT" else "";
    } else if op == "FIELD_GROUP" {
      value := CompileGroup(quote, field, items);
      field, op := "", "";
    } else {
      value := "Array";
    }
  }

  /** FIELD_GROUP: key the alternates `:+k+:`, compile them in parentheses,
      then replace each key in turn by the field name. */
  method CompileGroup(quote: Quoter, field: string, items: seq<Term>) returns (value: string)
    requires forall k :: 0 <= k < |items| ==> QuotableTerm(items[k])
    ensures value == GroupText(quote, field, items)
    decreases TermsSize(items) + 2, 0
  {
    var kv: seq<(Key, Term)> := [];
    var k := 0;
    while k < |items|
      invariant k <= |items|
      invariant kv == GroupEntries(items[..k])
    {
      assert GroupEntries(items[..k + 1]) == GroupEntries(items[..k]) + [(Str(Token(k)), items[k])];
      kv := kv + [(Str(Token(k)), items[k])];
      k := k + 1;
    }
    assert items[..k] == items;
    GroupEntriesSize(items);
    assert QuotableCond(Map(kv));
    var sub := ParseCond(quote, Map(kv), true);
    value := sub;
    var j := 0;
    while j < |kv|
      invariant j <= |kv|
      invariant value == ReplaceTokens(sub, j, field)
    {
      value := Replace(value, kv[j].0.s, field);
      j := j + 1;
    }
  }
}
