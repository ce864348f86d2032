/** The in-memory JSON tree that rules read from, the object context they run
    against, and the closed set of failures a rule can report. */
module JsonModel {

  /** A JSON value, as produced by the (external) byte decoder. Numbers are
      integers in this model. */
  datatype Json =
    | Null
    | Bool(b: bool)
    | Num(n: int)
    | Str(s: string)
    | Arr(elems: seq<Json>)
    | Obj(fields: map<string, Json>)

  /** An object context: the field mapping of one JSON object. This is what a
      keyed decoding container gives access to. */
  type Ctx = map<string, Json>

  /** The shapes a field can be decoded as. `IntShape` is a number that fits
      a 64-bit signed integer, the host's `Int`. */
  datatype Shape = StringShape | IntShape | BoolShape | ArrayShape | ObjectShape

  const IntMin: int := -0x8000_0000_0000_0000
  const IntMax: int := 0x7FFF_FFFF_FFFF_FFFF

  predicate FitsInt(n: int) {
    IntMin <= n <= IntMax
  }

  /** True when `j` has the given shape. */
  predicate HasShape(j: Json, shape: Shape) {
    match shape
    case StringShape => j.Str?
    case IntShape => j.Num? && FitsInt(j.n)
    case BoolShape => j.Bool?
    case ArrayShape => j.Arr?
    case ObjectShape => j.Obj?
  }

  datatype Option<T> = None | Some(value: T)

  /** One failed branch of an alternation: its position in the list of
      branches and the failure it reported. */
  datatype Attempt = Attempt(branch: nat, error: Err)

  /** Every failure a rule can report. */
  datatype Err =
    | MissingKey(key: string)                     // the field is absent
    | TypeMismatch(key: string, expected: Shape)  // the field has another shape
    | ValueNotFound(key: string)                  // the field is null where a value is decoded
    | NotObject                                   // the document root is not an object
    | ElementNotObject(index: nat)                // no object at this position of an array
    | OneOfFailed(failures: seq<Attempt>, context: Ctx)  // every branch of an alternation failed

  /** The outcome of running a rule: a value or a failure. */
  datatype Result<A> = Ok(value: A) | Fail(err: Err)
}
