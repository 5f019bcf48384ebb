/** The PHP values the database layer is handed: scalars, array keys, and the
    two truth tests the code applies to them (`empty()` and `if ($x)`). */
module PhpValues {
  import opened PhpStrings

  datatype Option<T> = None | Some(value: T)

  /** A PHP scalar. Floats are not modelled. */
  datatype Val = VInt(i: int) | VBool(b: bool) | VNull | VStr(s: string)

  /** A PHP array key: a string or an integer. */
  datatype Key = Str(s: string) | Int(i: int)

  /** PHP `empty()` of a scalar: null, false, 0, "" and "0". */
  predicate EmptyVal(v: Val)
  {
    match v
    case VInt(i) => i == 0
    case VBool(b) => !b
    case VNull => true
    case VStr(s) => s == "" || s == "0"
  }

  /** PHP truthiness of a string (`if ($s)`): false exactly for "" and "0". */
  predicate Truthy(s: string)
  {
    s != "" && s != "0"
  }

  /** What string interpolation `"{$v}"` makes of a scalar. */
  function Text(v: Val): (r: string)
    ensures v.VStr? ==> r == v.s
    ensures v.VInt? ==> ParseInt(r) == v.i
    ensures v.VBool? ==> r == (if v.b then "1" else "")
    ensures v.VNull? ==> r == ""
  {
    match v
    case VInt(i) => IntToStringRoundTrip(i); IntToString(i)
    case VBool(b) => if b then "1" else ""
    case VNull => ""
    case VStr(s) => s
  }

  /** The text of an array key, as string conversion or `strtolower` sees it. */
  function KeyText(k: Key): (r: string)
    ensures k.Str? ==> r == k.s
    ensures k.Int? ==> ParseInt(r) == k.i
  {
    match k
    case Str(s) => s
    case Int(i) => IntToStringRoundTrip(i); IntToString(i)
  }
}
