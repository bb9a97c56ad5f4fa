/** Python data as the policy builder receives it (parsed JSON), the exceptions
    Python raises on it, and the handful of Python operations the builder applies
    to untyped data: truthiness, `in`, subscripting, `.get`, iteration and `[-1]`. */
module PyValues {
  import opened PyStrings

  datatype Option<+T> = None | Some(value: T)

  /** The exceptions the modelled code raises or lets escape. Only ValueError
      carries a message written by the policy builder itself; the others come from
      the Python runtime and their text is not modelled. */
  datatype Error =
    | ValueError(msg: string)
    | TypeError
    | AttributeError
    | KeyError
    | IndexError

  datatype Result<+T> = Ok(value: T) | Err(error: Error) {
    predicate IsFailure() { Err? }

    /** Used by `:-` on a failure only; total so that a call whose failure is
        impossible in context leaves no unreachable proof obligation behind. */
    function PropagateFailure<U>(): Result<U>
    {
      match this
      case Err(e) => Err(e)
      case Ok(_) => Err(TypeError)
    }

    function Extract(): T
      requires Ok?
    {
      value
    }
  }

  /** A JSON-shaped Python value. A dict is an insertion-ordered list of
      key/value pairs, as Python dicts are; numbers are integers. */
  datatype Value =
    | Null
    | Bool(b: bool)
    | Num(n: int)
    | Str(s: string)
    | Arr(items: seq<Value>)
    | Obj(fields: seq<(string, Value)>)

  /** The value bound to `key` (the first binding, as a dict has only one). */
  function Lookup(fields: seq<(string, Value)>, key: string): (r: Option<Value>)
    ensures r.Some? <==> exists i :: 0 <= i < |fields| && fields[i].0 == key
  {
    if |fields| == 0 then None
    else if fields[0].0 == key then Some(fields[0].1)
    else
      var r := Lookup(fields[1..], key);
      assert forall i :: 1 <= i < |fields| ==> fields[i] == fields[1..][i - 1];
      r
  }

  /** The binding at position `i` is found when no earlier pair has the key. */
  lemma {:induction false} LookupAt(fields: seq<(string, Value)>, key: string, i: nat)
    requires i < |fields| && fields[i].0 == key
    requires forall j :: 0 <= j < i ==> fields[j].0 != key
    ensures Lookup(fields, key) == Some(fields[i].1)
  {
    if i > 0 {
      LookupAt(fields[1..], key, i - 1);
    }
  }

  function Keys(fields: seq<(string, Value)>): (r: seq<Value>)
    ensures |r| == |fields|
    ensures forall i :: 0 <= i < |fields| ==> r[i] == Str(fields[i].0)
  {
    seq(|fields|, i requires 0 <= i < |fields| => Str(fields[i].0))
  }

  /** Python's `bool(v)`. */
  predicate Truthy(v: Value) {
    match v
    case Null => false
    case Bool(b) => b
    case Num(n) => n != 0
    case Str(s) => s != ""
    case Arr(items) => |items| > 0
    case Obj(fields) => |fields| > 0
  }

  /** Python's `key in v` for a string key: a dict tests its keys, a list its
      elements, a string its substrings; other values are not containers. */
  function In(key: string, v: Value): (r: Result<bool>)
    ensures r.Err? <==> v.Null? || v.Bool? || v.Num?
    ensures v.Obj? ==> r == Ok(Lookup(v.fields, key).Some?)
  {
    match v
    case Obj(fields) => Ok(Lookup(fields, key).Some?)
    case Arr(items) => Ok(Str(key) in items)
    case Str(s) => Ok(Contains(s, key))
    case _ => Err(TypeError)
  }

  /** Python's `key in v` evaluates without error to True. */
  predicate HasKey(v: Value, key: string) {
    In(key, v) == Ok(true)
  }

  /** The value under `key` when `v` is a dict that has it. */
  function Field(v: Value, key: string): (r: Option<Value>)
    ensures r.Some? <==> v.Obj? && HasKey(v, key)
  {
    if v.Obj? then Lookup(v.fields, key) else None
  }

  /** Python's `v[key]` for a string key. */
  function Index(v: Value, key: string): (r: Result<Value>)
    ensures r.Ok? <==> v.Obj? && Lookup(v.fields, key).Some?
    ensures r.Ok? ==> r.value == Lookup(v.fields, key).value
  {
    match v
    case Obj(fields) =>
      (match Lookup(fields, key)
       case Some(x) => Ok(x)
       case None => Err(KeyError))
    case _ => Err(TypeError)
  }

  /** Python's `v.get(key, default)`; only a dict has `.get`. */
  function Get(v: Value, key: string, default: Value): (r: Result<Value>)
    ensures r.Ok? <==> v.Obj?
    ensures v.Obj? && Lookup(v.fields, key).Some? ==> r == Ok(Lookup(v.fields, key).value)
    ensures v.Obj? && Lookup(v.fields, key).None? ==> r == Ok(default)
  {
    match v
    case Obj(fields) =>
      (match Lookup(fields, key)
       case Some(x) => Ok(x)
       case None => Ok(default))
    case _ => Err(AttributeError)
  }

  /** What `for x in v` visits: a list's elements, a dict's keys, a string's characters. */
  function Iter(v: Value): (r: Result<seq<Value>>)
    ensures r.Ok? <==> v.Arr? || v.Obj? || v.Str?
    ensures v.Arr? ==> r == Ok(v.items)
  {
    match v
    case Arr(items) => Ok(items)
    case Obj(fields) => Ok(Keys(fields))
    case Str(s) => Ok(seq(|s|, i requires 0 <= i < |s| => Str([s[i]])))
    case _ => Err(TypeError)
  }

  /** Python's `v[-1]`. */
  function LastItem(v: Value): (r: Result<Value>)
    ensures v.Arr? && |v.items| > 0 ==> r == Ok(v.items[|v.items| - 1])
  {
    match v
    case Arr(items) => if |items| > 0 then Ok(items[|items| - 1]) else Err(IndexError)
    case Str(s) => if |s| > 0 then Ok(Str([s[|s| - 1]])) else Err(IndexError)
    case Obj(_) => Err(KeyError)
    case _ => Err(TypeError)
  }

  /** A Python list of strings. */
  function StrList(ss: seq<string>): (r: Value)
    ensures r.Arr? && |r.items| == |ss|
    ensures forall i :: 0 <= i < |ss| ==> r.items[i] == Str(ss[i])
  {
    Arr(seq(|ss|, i requires 0 <= i < |ss| => Str(ss[i])))
  }

  lemma StrListContains(ss: seq<string>, x: string)
    ensures Str(x) in StrList(ss).items <==> x in ss
  {
    if x in ss {
      var i :| 0 <= i < |ss| && ss[i] == x;
      assert StrList(ss).items[i] == Str(x);
    }
  }
}
