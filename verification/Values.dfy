// The document value tree. Object insertion order is significant.
module Values {
  import opened Results
  import opened IndexMaps
  import opened Decimals
  import opened Orders
  import opened Jsons

  type Int64 = n: int | -0x8000_0000_0000_0000 <= n < 0x8000_0000_0000_0000

  type UInt64 = n: int | 0 <= n < 0x1_0000_0000_0000_0000

  // A float is carried by its bit pattern; its arithmetic and its text are
  // outside this model.
  datatype Float = Float(bits: UInt64)

  datatype Value =
    | Null
    | Bool(flag: bool)
    | Int(int64: Int64)
    | UInt(uint64: UInt64)
    | FloatValue(float: Float)
    | Decimal(decimal: DecimalValue)
    | String(text: string)
    | Binary(bytes: seq<nat>)
    | Date(days: int)
    | TimestampMicros(micros: int)
    | Array(items: seq<Value>)
    | Object(fields: IndexMap<Value>)
  {
    // Null and false are false; everything else is true.
    predicate IsTruthy() {
      !(Null? || this == Bool(false))
    }
  }

  // What the program asks of libraries it does not define: the function
  // registry, float parsing, arithmetic, order and text, base64 and the
  // derived equality of values.
  datatype Lib = Lib(
    call: (string, seq<Value>) -> Result<Value>,
    parseFloat: string -> Option<Float>,
    intToFloat: int -> Float,
    floatText: Float -> string,
    floatRank: Float -> string,
    floatNumber: Float -> Option<NumberText>,
    floatArith: (FloatOp, Float, Float) -> Float,
    floatCompare: (Float, Float) -> Ordering,
    base64: seq<nat> -> string,
    sameValue: (Value, Value) -> bool)

  datatype FloatOp = Add | Subtract | Times | Over | Minimum | Maximum
}
