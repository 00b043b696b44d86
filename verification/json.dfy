/** The JSON scalars that travel in `additional_params`. */
module Json {

  datatype Value = Null | Bool(b: bool) | Num(n: int) | Str(s: string)

  /** Python truthiness of a decoded JSON scalar. */
  predicate Truthy(v: Value)
  {
    match v
    case Null => false
    case Bool(b) => b
    case Num(n) => n != 0
    case Str(s) => s != ""
  }

}
