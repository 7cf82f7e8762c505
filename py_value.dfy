/** The Python values that come back from the iDDS client (`(status, (ok,
    ..., payload))` tuples, lists of request dictionaries) and the few Python
    operations the service applies to them: truth value, `== 0`, indexing,
    key lookup, `in`, iteration and `int()`. Tuples and lists behave alike
    for everything used here, so both are `List`. */
module PyValue {
  import opened Common
  import opened Text
  import opened Dicts

  datatype Value =
    | NoneValue
    | Bool(b: bool)
    | Int(i: int)
    | Str(s: string)
    | List(items: seq<Value>)
    | Dict(d: ODict<Value>)

  /** Python's truth value: `None`, `False`, `0` and empty containers are false. */
  predicate Truthy(v: Value) {
    match v
    case NoneValue => false
    case Bool(b) => b
    case Int(i) => i != 0
    case Str(s) => |s| > 0
    case List(items) => |items| > 0
    case Dict(d) => |d.keys| > 0
  }

  /** `v == 0`: `False` equals `0` because `bool` is a subclass of `int`. */
  predicate IsZero(v: Value) {
    v == Int(0) || v == Bool(false)
  }

  /** The position `i` designates in a sequence of length `n`, counting from
      the end when negative. */
  function Position(i: int, n: nat): int {
    if i < 0 then i + n else i
  }

  /** `v[i]` for an integer `i`. */
  function GetItem(v: Value, i: int): (r: Result<Value>)
    ensures r.Ok? ==> v.List? || v.Str?
    ensures r.Err? ==> r.error.IndexError? || r.error.KeyError? || r.error.TypeError?
    ensures v.List? ==> (r.Ok? <==> 0 <= Position(i, |v.items|) < |v.items|)
    ensures v.List? && r.Ok? ==> r.value == v.items[Position(i, |v.items|)]
  {
    match v
    case List(items) =>
      var j := Position(i, |items|);
      if 0 <= j < |items| then Ok(items[j]) else Err(IndexError)
    case Str(s) =>
      var j := Position(i, |s|);
      if 0 <= j < |s| then Ok(Str([s[j]])) else Err(IndexError)
    case Dict(_) => Err(KeyError(IntToString(i)))
    case _ => Err(TypeError)
  }

  /** `v[key]` for a string `key`. */
  function Lookup(v: Value, key: string): (r: Result<Value>)
    ensures r.Ok? <==> v.Dict? && key in v.d.values
    ensures r.Err? ==> r.error.KeyError? || r.error.TypeError?
    ensures r.Ok? ==> r.value == v.d.values[key]
    ensures v.Dict? && key !in v.d.values ==> r == Err(KeyError(key))
  {
    match v
    case Dict(d) => if key in d.values then Ok(d.values[key]) else Err(KeyError(key))
    case _ => Err(TypeError)
  }

  /** `x in v` for a string `x`: a key of a dictionary, an item of a list, a
      substring of a string; other values are not iterable. */
  function Contains(v: Value, x: string): (r: Result<bool>)
    ensures r.Ok? <==> v.Dict? || v.List? || v.Str?
    ensures v.Dict? ==> r == Ok(x in v.d.values)
  {
    match v
    case Dict(d) => Ok(x in d.values)
    case List(items) => Ok(Str(x) in items)
    case Str(s) => Ok(Occurs(x, s))
    case _ => Err(TypeError)
  }

  /** `for item in v`: the items of a list, the keys of a dictionary in
      insertion order, the characters of a string. */
  function Iterate(v: Value): (r: Result<seq<Value>>)
    ensures r.Ok? <==> v.List? || v.Dict? || v.Str?
    ensures r.Err? ==> r.error == TypeError
    ensures v.List? ==> r == Ok(v.items)
  {
    match v
    case List(items) => Ok(items)
    case Dict(d) => Ok(seq(|d.keys|, k requires 0 <= k < |d.keys| => Str(d.keys[k])))
    case Str(s) => Ok(seq(|s|, k requires 0 <= k < |s| => Str([s[k]])))
    case _ => Err(TypeError)
  }

  /** `int(v)`: integers and booleans convert, a string must be a decimal
      literal, anything else is a `TypeError`. */
  function ToInt(v: Value): (r: Result<int>)
    ensures v.Int? ==> r == Ok(v.i)
    ensures r.Err? ==> r.error.ValueError? || r.error.TypeError?
    ensures v.Str? ==> (r.Ok? <==> ParseInt(v.s).Some?)
    ensures !(v.Int? || v.Bool? || v.Str?) ==> r == Err(TypeError)
  {
    match v
    case Int(i) => Ok(i)
    case Bool(b) => Ok(if b then 1 else 0)
    case Str(s) =>
      var parsed := ParseInt(s);
      if parsed.Some? then Ok(parsed.value) else Err(ValueError("invalid literal for int() with base 10"))
    case _ => Err(TypeError)
  }

  /** The decimal text of an integer reads back through `int()`. */
  lemma ToIntOfDecimal(i: int)
    ensures ToInt(Str(IntToString(i))) == Ok(i)
  {
    ParseIntToString(i);
  }
}
