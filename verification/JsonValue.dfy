/** The closed JSON value domain the canonical encoder walks, and the doubles in it. */
module JsonValue {

  /** An IEEE-754 double, named by what the formatter observes of it.
      A finite non-zero double is identified with its sign and its shortest
      round-trip digits: the value is 0.d1...dk * 10^point. */
  datatype F64 =
    | NaN
    | Inf(neg: bool)
    | Zero(neg: bool)
    | Fin(neg: bool, digits: string, point: int)

  datatype Json =
    | Null
    | Bool(b: bool)
    | Str(s: string)
    | Int(i: int)
    | Flt(f: F64)
    | Num(lit: string)
    | Arr(elems: seq<Json>)
    | Obj(members: map<string, Json>)
}
