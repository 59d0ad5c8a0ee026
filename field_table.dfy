/** The field schema of the telemetry decoder: one descriptor per type code
    (src/main.rs:7-12) and the decoded reading it produces (src/main.rs:16-20). */
module FieldTable {

  /** The width of Rust's `u8`, the type of a descriptor's divisor. */
  type U8 = x: nat | x < 256

  /** An exact fixed-point number: `raw / divisor`.  The source converts the
      quotient to `f64`; the model keeps both integers and gives the exact
      rational value for a non-zero divisor. */
  datatype Scaled = Scaled(raw: int, divisor: U8) {
    function Value(): real
      requires divisor > 0
    {
      raw as real / divisor as real
    }
  }

  /** A field descriptor: the name reported for the field, how many payload
      bytes it occupies, whether those bytes are two's complement, and the
      divisor applied to the integer they hold. */
  datatype FieldType = FieldType(name: string, size: nat, signed: bool, divisor: U8)

  /** One decoded reading, in the order the decoder pushes it. */
  datatype DecodeData = DecodeData(name: string, channel: nat, value: Scaled)

  /** The schema is a lookup from type code to descriptor. */
  type Schema = map<nat, FieldType>

  /** The widest payload the conversion supports: with at most 7 bytes, both
      `1 << (8 * size)` and the big-endian fold fit in an `i64`. */
  const MaxSize: nat := 7

  /** Every descriptor's payload is narrow enough for the 64-bit conversion. */
  predicate ConvertibleSizes(table: Schema)
  {
    forall code :: code in table ==> table[code].size <= MaxSize
  }

  /** The schema compiled into the program (src/main.rs:28-191). */
  const Table: Schema := map[
    0 := FieldType("options", 1, false, 1),
    1 := FieldType("backlogCount", 2, false, 1),
    2 := FieldType("battery", 1, false, 1),
    3 := FieldType("timestamp", 4, false, 1),
    4 := FieldType("rssi", 1, true, 1),
    5 := FieldType("internal_temperature", 2, true, 100),
    6 := FieldType("external_temperature", 2, true, 100),
    7 := FieldType("sht85_humidity", 1, false, 2),
    8 := FieldType("voltage", 2, true, 100),
    9 := FieldType("current", 2, true, 100),
    10 := FieldType("door", 1, false, 1),
    11 := FieldType("error_mask", 2, false, 1),
    12 := FieldType("snr", 1, true, 1),
    13 := FieldType("sht85_temperature", 2, true, 100),
    20 := FieldType("configuration", 2, false, 1),
    21 := FieldType("meas_period", 2, false, 1),
    22 := FieldType("epoch", 4, false, 1),
    23 := FieldType("get_backlog", 2, false, 1)
  ]

  /** The built-in table knows codes 0-13 and 20-23, each with a 1-, 2- or
      4-byte payload and a positive divisor, so the decoder's size bound holds. */
  lemma TableShape()
    ensures forall code: nat :: code in Table <==> code <= 13 || 20 <= code <= 23
    ensures forall code :: code in Table ==>
      (Table[code].size == 1 || Table[code].size == 2 || Table[code].size == 4) &&
      Table[code].divisor > 0
    ensures ConvertibleSizes(Table)
  {
  }
}
