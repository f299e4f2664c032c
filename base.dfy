/** Shared value types: an Option/Result pair, the dynamically typed cell
    values the Python code reads out of DataFrames and ORM rows, and the
    exceptions the modelled code can raise. */
module Base {

  datatype Option<+T> = None | Some(value: T)

  datatype Result<+T, +E> = Ok(value: T) | Err(error: E)

  /** A spreadsheet / DataFrame cell as the Python code sees it:
      `None`, a float NaN (pandas' marker for a missing cell), a number
      (int, float or Decimal, kept exact), or a string. */
  datatype Value = PyNone | NaN | Num(x: real) | Str(s: string)

  /** `pd.isna(v)` */
  predicate IsNa(v: Value) {
    v.PyNone? || v.NaN?
  }

  /** Python truthiness of a cell: None, 0 and "" are falsy; NaN is truthy. */
  predicate Truthy(v: Value) {
    match v
    case PyNone => false
    case NaN => true
    case Num(x) => x != 0.0
    case Str(s) => s != ""
  }

  /** `str(v)`: a string is itself; how other cells print (`str(5)`,
      `str(5.0)`, `str(None)`, "nan") is the caller's `show`. */
  function PyStr(v: Value, show: Value -> string): string {
    if v.Str? then v.s else show(v)
  }

  /** The exceptions the modelled code lets escape. */
  datatype PyError =
    | KeyError(key: string)      // a DataFrame column that is not there
    | AttributeError             // `.strip()` called on a non-string
    | ValueError                 // `float()` of a string it cannot read
    | TypeError                  // `pd.to_numeric` of a DataFrame

  /** An element of a prefix is an element of the sequence. */
  lemma InPrefix<T>(s: seq<T>, k: nat, x: T)
    requires k <= |s| && x in s[..k]
    ensures x in s
  {
    var i :| 0 <= i < k && s[..k][i] == x;
    assert s[i] == x;
  }

  /** A witness that is not the last element lies in the front. */
  lemma ExistsFront<T>(s: seq<T>, p: T -> bool)
    requires s != [] && (exists x :: x in s && p(x)) && !p(s[|s| - 1])
    ensures exists x :: x in s[..|s| - 1] && p(x)
  {
    var x :| x in s && p(x);
    var i :| 0 <= i < |s| && s[i] == x;
    assert s[..|s| - 1][i] == x;
  }

  /** A non-empty sequence is its front followed by its last element. */
  lemma FrontLast<T>(s: seq<T>)
    requires s != []
    ensures s == s[..|s| - 1] + [s[|s| - 1]]
  {
  }
}
