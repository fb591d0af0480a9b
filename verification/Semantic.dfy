/** The values and rows of query evidence. */
module Semantic {
  import opened Machine

  /** Query result cells. `F` stands for the floating-point payload and `T` for the text payload. */
  datatype Value<F, T> =
    | Null
    | Int64(i: i64)
    | Float64(f: F)
    | Bool(b: bool)
    | Text(t: T)
    | Blob(bytes: seq<byte>)
}
