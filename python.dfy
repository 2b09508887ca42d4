/**
  The values of a decoded JSON packet and the few Python 2 operations the
  bridge applies to them: `p[key]`, unary minus, `1070 + v*10`, and the
  conversions `%d`, `%.Nf` and `%s`. Each operation either yields a value or
  raises the exception Python raises; neither bridge script catches any, so a
  raised exception ends the process.
 */
module Python {
  import opened Wrappers
  import opened Format

  /** What `json.loads` produces: `null`, booleans, numbers, strings, arrays and objects. */
  datatype Value =
    | Null
    | Int(i: int)
    | Bool(b: bool)
    | Float(x: real)
    | Str(s: string)
    | Array(items: seq<Value>)
    | Obj(fields: map<string, Value>)

  datatype Error = KeyError(key: string) | TypeError | ValueError

  datatype Result<+T> = Ok(value: T) | Err(error: Error) {
    predicate IsFailure() { Err? }

    function PropagateFailure<U>(): Result<U>
      requires Err?
    {
      Err(error)
    }

    function Extract(): T
      requires Ok?
    {
      value
    }
  }

  /** `p[key]`: the field of an object, `KeyError` when it is absent, `TypeError` when `p` is no object. */
  function Lookup(p: Value, key: string): (r: Result<Value>)
    ensures r.Ok? <==> p.Obj? && key in p.fields
    ensures r.Ok? ==> r.value == p.fields[key]
    ensures r.Err? ==> r.error == if p.Obj? then KeyError(key) else TypeError
  {
    match p
    case Obj(fields) => if key in fields then Ok(fields[key]) else Err(KeyError(key))
    case _ => Err(TypeError)
  }

  /** A boolean is an integer in Python 2 (`True == 1`). */
  function BoolInt(b: bool): int { if b then 1 else 0 }

  /** The numeric value of an `int`, `bool` or `float`; other values are no numbers. */
  function Numeric(v: Value): Option<real>
  {
    match v
    case Int(i) => Some(i as real)
    case Bool(b) => Some(BoolInt(b) as real)
    case Float(x) => Some(x)
    case _ => None
  }

  /** `-v`. */
  function Negate(v: Value): (r: Result<Value>)
    ensures r.Ok? <==> Numeric(v).Some?
    ensures r.Ok? ==> Numeric(r.value) == Some(-Numeric(v).value)
    ensures r.Err? ==> r.error == TypeError
  {
    match v
    case Int(i) => Ok(Int(-i))
    case Bool(b) => Ok(Int(-BoolInt(b)))
    case Float(x) => Ok(Float(-x))
    case _ => Err(TypeError)
  }

  /** `int(x)` for a float: truncation toward zero. */
  function Trunc(x: real): (r: int)
    ensures 0.0 <= x ==> r as real <= x < r as real + 1.0
    ensures x <= 0.0 ==> r as real - 1.0 < x <= r as real
  {
    if x >= 0.0 then x.Floor else -((-x).Floor)
  }

  /** `"%d" % v`: integers and booleans in decimal, floats truncated first; anything else is a `TypeError`. */
  function FormatD(v: Value): (r: Result<string>)
    ensures r.Ok? <==> Numeric(v).Some?
    ensures v.Int? ==> r == Ok(Dec(v.i))
    ensures v.Bool? ==> r == Ok(Dec(BoolInt(v.b)))
    ensures v.Float? ==> r == Ok(Dec(Trunc(v.x)))
    ensures r.Err? ==> r.error == TypeError
  {
    match v
    case Int(i) => Ok(Dec(i))
    case Bool(b) => Ok(Dec(BoolInt(b)))
    case Float(x) => Ok(Dec(Trunc(x)))
    case _ => Err(TypeError)
  }

  /**
    `"%.Nf" % v` with `N == places`. The decimal rendering of a binary float is
    outside the model: `fixed` stands for it and receives the number's value.
   */
  function FormatF(v: Value, places: nat, fixed: (real, nat) -> string): (r: Result<string>)
    ensures r.Ok? <==> Numeric(v).Some?
    ensures r.Ok? ==> r.value == fixed(Numeric(v).value, places)
    ensures r.Err? ==> r.error == TypeError
  {
    match Numeric(v)
    case Some(x) => Ok(fixed(x, places))
    case None => Err(TypeError)
  }

  /** `"%s" % v`: a string as it is; `show` stands for Python's `str()` of any other value. */
  function FormatS(v: Value, show: Value -> string): string
  {
    if v.Str? then v.s else show(v)
  }
}
