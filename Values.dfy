/**
 The values a webhook body is made of, and the library services the
 normaliser calls but does not implement (JSON decoding, float parsing,
 ISO-8601 timestamp parsing, float rendering). Those services are kept
 abstract: the model is parameterised by a `Lib` bundle of total functions,
 each returning `None` where the library would raise.
 */
module Values {

  datatype Option<+T> = None | Some(value: T)

  /** One value of a decoded body. `Bool` and `Int` stay apart because Python's
      `str()` renders them differently even though `isinstance(True, int)`;
      `Nested` stands for a JSON list or object inside the body and carries
      its Python `str()` rendering. */
  datatype Value =
    | Null
    | Bool(b: bool)
    | Int(i: int)
    | Float(f: real)
    | Str(s: string)
    | Nested(repr: string)

  /** A recovered body: a mapping from field names to values. */
  type Body = map<string, Value>

  /** Whatever a JSON decoder may return for a whole request body. */
  datatype Json = Object(fields: Body) | Scalar(v: Value)

  /** The library services, each a total function that answers `None` where the
      library call raises. */
  datatype Lib = Lib(
    loadsObject: string -> Option<Body>,    // json.loads on brace-delimited text
    parseFloat: string -> Option<real>,     // float(s) on a stripped string
    isoToUtc: string -> Option<string>,     // fromisoformat(s).astimezone(utc).isoformat()
    floatText: real -> string               // str(x) for a Python float
  )

  function DigitChar(d: nat): char
    requires d < 10
  {
    "0123456789"[d]
  }

  function Digits(n: nat): string
  {
    if n < 10 then [DigitChar(n)] else Digits(n / 10) + [DigitChar(n % 10)]
  }

  /** Python's `str()` of an int. */
  function DecimalText(i: int): string
  {
    if i < 0 then "-" + Digits(-i) else Digits(i)
  }

  /** Python's `str()` of a value, as `str(symbol)` and f-strings use it. */
  function Text(lib: Lib, v: Value): string
  {
    match v
    case Null => "None"
    case Bool(b) => if b then "True" else "False"
    case Int(i) => DecimalText(i)
    case Float(f) => lib.floatText(f)
    case Str(s) => s
    case Nested(repr) => repr
  }
}
