# LoRaWAN payload decoder — Dafny model

This project models the decoder in `src/main.rs`. The decoder turns a packed
telemetry payload into readings. A byte vector holds a sequence of records.
Each record starts with a type code. The code is looked up in a fixed table of
field descriptors (name, payload size, signedness, divisor). The payload bytes
are folded big-endian into an integer. That integer is sign-corrected over
`8 * size` bits for signed fields. Each reading carries the field's name, a
channel byte and the integer scaled by the divisor.

The project has four modules, one per part of the program:

- `FieldTable` (`field_table.dfy`) holds the `FieldType` descriptor and the
  `DecodeData` reading. It also holds the built-in table as an immutable
  `map<nat, FieldType>`. The reading's value is `Scaled(raw, divisor)`: the
  exact integer and its divisor, with the exact `real` quotient for a non-zero
  divisor.
- `Conversion` (`conversion.dfy`) models `array_to_decimal`. The pure
  functions `BigEndian`, `TwosComplement` and `Raw` are the specification.
  The method `ArrayToDecimal` mirrors the source: a `for` loop folds the
  bytes, then the sign correction reassigns the value. The method is proved to
  compute `Raw`.
- `Decoder` (`decoder.dfy`) models the decode `while` loop of `main`. The
  recursive function `DecodeFrom` is the specification. The method
  `DecodeLoop` mirrors the source's mutable cursor `i` and its pushed vector
  of results, and is proved equal to `DecodeFrom`. A second, independent view
  of the loop is the walk `Cursors`: the positions at which an iteration reads
  a type code. The lemmas relate the readings and the panics to that walk.
- `Sample` (`sample.dfy`) holds the 37-byte vector built into `main`. It
  decodes the vector end to end, through the specification and through the
  loop.

Two source behaviours are kept exactly as written:

- **The skipped byte.** After the type code at position `c`, the cursor
  already points at `c + 1` when `bytes_val.get(i + 1)` is read. So the
  channel is the byte at `c + 2`. That byte is also the first payload byte.
  The byte at `c + 1` is never used.
- **Unknown codes.** An unknown type code is only logged. The loop then goes
  on from `c + 2`.

Two reads can go out of range. Either one panics the process: the `unwrap`
of the channel read, and the payload slice. The model represents a panic as
the outcome `Panicked(site, cursor)`. A panic discards every reading pushed
so far, because the process aborts.

Three consequences of the code are worth stating plainly:

- An unknown type code does not stop decoding: the loop skips two bytes and
  continues.
- Out-of-range reads panic; nothing returns an error value.
- With a one-byte field at code 3, `[3, 0, 0, 99]` yields a reading for
  position 0 and then panics at the channel read of position 3
  (`Sample.OneByteScenarioPanics`).

The model assumes two things the source does not enforce:

- The input is a `Vec<usize>`, but the model requires every element to be a
  byte value (`AllBytes`).
- Every descriptor's payload is at most 7 bytes (`ConvertibleSizes`). Then
  `1 << (8 * size)` and the `i64` fold cannot overflow. The built-in table
  uses only sizes 1, 2 and 4 (`FieldTable.TableShape`).

Under these assumptions the source's `(value << 8) | byte` equals
`value * 256 + byte`. `Conversion.ShiftOrIsMulAdd` proves this for 64-bit
words while the value is below 2^56, and the loop in `ArrayToDecimal` keeps
its accumulator below 256^k after k bytes, so below 2^56 before each step of
a slice of at most 7 bytes. The model's loop uses the arithmetic form.
`Conversion.ShiftOrIsMulAdd` and `Conversion.HalfOfEdge` are side notes that
justify this reading of the source's bit operations; no other member uses
them.

## Model

| member | source | states |
|---|---|---|
| `FieldTable.TableShape` | src/main.rs:28-191 | The built-in table knows exactly codes 0-13 and 20-23. Every entry has a payload of 1, 2 or 4 bytes and a positive divisor, so the size bound of the conversion holds. |
| `Conversion.BigEndian` | src/main.rs:263-267 | The value the fold computes, as the positional sum of s[k] * 256^(n-1-k). Its properties are the lemmas below. |
| `Conversion.TwosComplement` | src/main.rs:268-274 | The sign correction. The result is congruent to the input modulo 2^(8n), and for an n-byte value it is negative exactly when the value exceeds `max = (edge - 1) >> 1`. |
| `Conversion.Raw` | src/main.rs:262-274 | The integer `array_to_decimal` computes before dividing. The signed and unsigned readings agree modulo 2^(8n), and the unsigned one is never negative. |
| `Conversion.BigEndianZero` | src/main.rs:263-267 | The fold yields zero exactly when every byte of the slice is zero. |
| `Conversion.BigEndianSnoc` | src/main.rs:264-267 | Appending a byte to a slice multiplies its big-endian value by 256 and adds the byte. This is one step of the source's fold. |
| `Conversion.BigEndianRange` | src/main.rs:263-267 | For byte values, the value of an n-byte slice lies in [0, 256^n). |
| `Conversion.HalfOfEdge` | src/main.rs:269-270 | A side note on the source's arithmetic: for n >= 1, `edge = 256^n` is twice its half, and `max = (edge - 1) >> 1` is one below that half (2^(8n-1) - 1). |
| `Conversion.TwosComplementRange` | src/main.rs:268-274 | The correction subtracts `edge` exactly when the value exceeds 2^(8n-1) - 1, and otherwise leaves it unchanged. The result lies in [-2^(8n-1), 2^(8n-1) - 1]. |
| `Conversion.SignedRaw` | src/main.rs:268-274 | A signed field's integer lies in the n-byte signed range. It is the unsigned value minus 256^n exactly when that value is at least 2^(8n-1). |
| `Conversion.UnsignedValueNonNegative` | src/main.rs:262-275 | With a positive divisor, an unsigned field's scaled value is never negative. |
| `Conversion.ConversionExamples` | src/main.rs:262-274 | Signed [0xFF] is -1, [0x80] is -128, [0x7F] is 127 and [209] is -47. Unsigned [1, 0] is 256. Signed [7, 213] is 2005. |
| `Conversion.ShiftOrIsMulAdd` | src/main.rs:266 | A side note on the source's arithmetic: on 64-bit words, shifting the value left by 8 and OR-ing in the byte equals `value * 256 + byte` when the value is below 2^56 and the byte below 256. |
| `Conversion.ArrayToDecimal` | src/main.rs:262-276 | The loop computes `Raw`: the big-endian fold, sign-corrected when signed, paired with the divisor. The accumulator stays below 256^k after k bytes. Unsigned results lie in [0, 256^n). Signed results lie in [-2^(8n-1), 2^(8n-1) - 1]. |
| `Decoder.ReadingAt` | src/main.rs:238-252 | A pushed reading takes its name and divisor from the descriptor. Its channel is the byte at c + 2, which for a non-empty payload is the first byte of its own payload slice. |
| `Decoder.DecodeFrom` | src/main.rs:235-257 | What the loop yields from a cursor on. A panic is raised by a record inside the vector, at or after the starting cursor. |
| `Decoder.SkippedByteUnused` | src/main.rs:238-246 | For every record on the walk, overwriting the byte right after its type code leaves the whole outcome unchanged: the byte at c + 1 is never used. |
| `Decoder.Cursors` | src/main.rs:237-253 | The positions where the loop reads a type code. The walk is empty exactly when the start is at or past the end, and every position lies inside the vector. |
| `Decoder.CursorsShape` | src/main.rs:237-253 | The walk starts at the initial cursor. Each step advances by exactly 2 + size for a known code and by 2 for an unknown one, so the cursor strictly increases and the loop terminates. Only the last record of the walk can panic. |
| `Decoder.DecodePanicsAtLastCursor` | src/main.rs:238-246 | A run panics exactly when its walk ends on a faulty record, and the panic names that record. It is the channel read when c + 2 >= len, and the payload slice otherwise, which happens when c + 2 + size > len. |
| `Decoder.CompletedWalkIsClean` | src/main.rs:237-257 | In a run that does not panic, no record faults, and the last record ends exactly at the end of the vector. |
| `Decoder.CompletedReadings` | src/main.rs:242-256 | A completed run pushes exactly one reading per known type code on its walk, in walk order. Unknown codes push nothing and do not stop the loop. |
| `Decoder.DecodeIgnoresPrefix` | src/main.rs:235-257 | Decoding from a record boundary depends only on the bytes from there on. A panic is reported at the same record, shifted by the prefix length. |
| `Decoder.DecodeLoop` | src/main.rs:235-257 | The imperative loop with its mutable cursor and result vector yields exactly `Decode(table, bytes)`: all readings in order, or the panic and its site. |
| `Sample.SampleIsSourceVector` | src/main.rs:195-233 | The record-by-record sample is the source's flat 37-element vector. |
| `Sample.SampleIsBytes` | src/main.rs:195-233 | Every element of the sample is a byte value. |
| `Sample.LeadingRecord` | src/main.rs:238-253 | A vector that starts with a known record decodes into that record's reading, whose channel is its first payload byte, followed by the decoding of the rest. |
| `Sample.SamplePayloads` | src/main.rs:262-274 | The integers held by the ten payloads of the sample. |
| `Sample.SampleDecodes` | src/main.rs:193-257 | The sample decodes without a panic into ten readings, for codes 0, 1, 2, 3, 4, 5, 7, 13, 11 and 12. Among them, rssi has raw -47, internal_temperature has raw 2005 with divisor 100, and snr has raw 7. |
| `Sample.SampleWalkEndsAtLength` | src/main.rs:237-253 | The walk over the sample has no faulty record and ends with the cursor at 37, the vector's length. |
| `Sample.SampleValues` | src/main.rs:275 | Scaled, rssi reads -47, internal_temperature reads 20.05 and snr reads 7. |
| `Sample.UnknownCodeSkipped` | src/main.rs:238-256 | An unknown code is skipped with the byte after it. The loop then reads the byte two past it as the next type code. |
| `Sample.PanicScenarios` | src/main.rs:240-246 | Short vectors panic at the channel read. A timestamp record with fewer than four payload bytes panics at the slice. |
| `Sample.OneByteScenarioPanics` | src/main.rs:237-246 | With code 3 as a one-byte field, `[3, 0, 0, 99]` panics at the channel read of position 3. |
| `Sample.DecodeSample` | src/main.rs:193-257 | Running the decode loop on the built-in table and sample yields the ten sample readings. |

## Left out

- Logging: the `tracing` subscriber setup and the log calls (src/main.rs:2-3, 23-26, 255, 259) have no effect on the result.
- Floating point: the `f64` conversion and division (src/main.rs:275) are modelled as the exact integer with its divisor, plus the exact `real` quotient for a non-zero divisor. Rounding is not modelled, and neither is the infinity or NaN that a zero divisor would give. No entry in the table has a zero divisor.
- `HashMap`: the table is an immutable `map`, and hashing plays no part.
- Widths of 8 bytes or more: the model requires sizes of at most 7 bytes instead of modelling the overflow of `1 << (8 * size)` and of the `i64` fold.
- Elements of 256 or more in the `usize` input vector are excluded by the byte-value precondition. For such elements, `(value << 8) | byte` would no longer equal `value * 256 + byte`.
- Repeated decoding of the same input gives the same output, because `Decode` is a function. No separate lemma states this.
