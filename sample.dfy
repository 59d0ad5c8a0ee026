/** The payload built into the program (src/main.rs:195-233), decoded with the
    built-in table (src/main.rs:28-191). */
module Sample {
  import opened FieldTable
  import opened Conversion
  import opened Decoder

  /** The sample vector, written as its ten records: `From<c>` is the vector
      from position c on, and each line adds the record that starts at c as
      its type code, the byte after it, and its payload. */
  const SampleBytes: seq<nat> := From0
  const From0: seq<nat> := [0, 10] + [1] + From3
  const From3: seq<nat> := [1, 11] + [1, 183] + From7
  const From7: seq<nat> := [2, 10] + [100] + From10
  const From10: seq<nat> := [3, 12] + [101, 75, 88, 53] + From16
  const From16: seq<nat> := [4, 10] + [209] + From19
  const From19: seq<nat> := [5, 14] + [7, 213] + From23
  const From23: seq<nat> := [7, 104] + [99] + From26
  const From26: seq<nat> := [13, 14] + [7, 144] + From30
  const From30: seq<nat> := [11, 11] + [0, 0] + From34
  const From34: seq<nat> := [12, 10] + [7]

  /** The readings the loop pushes for the sample, in order. */
  const SampleReadings: seq<DecodeData> := [
    DecodeData("options", 1, Scaled(1, 1)),
    DecodeData("backlogCount", 1, Scaled(439, 1)),
    DecodeData("battery", 100, Scaled(100, 1)),
    DecodeData("timestamp", 101, Scaled(1699436597, 1)),
    DecodeData("rssi", 209, Scaled(-47, 1)),
    DecodeData("internal_temperature", 7, Scaled(2005, 100)),
    DecodeData("sht85_humidity", 99, Scaled(99, 2)),
    DecodeData("sht85_temperature", 7, Scaled(1936, 100)),
    DecodeData("error_mask", 0, Scaled(0, 1)),
    DecodeData("snr", 7, Scaled(7, 1))
  ]

  /** Written out flat, the sample is the source's 37-element vector. */
  lemma SampleIsSourceVector()
    ensures SampleBytes == [
      0, 10, 1, 1, 11, 1, 183, 2, 10, 100, 3, 12, 101, 75, 88, 53, 4, 10, 209,
      5, 14, 7, 213, 7, 104, 99, 13, 14, 7, 144, 11, 11, 0, 0, 12, 10, 7]
  {
  }

  /** Every element of the sample is a byte value, as the decode loop needs. */
  lemma SampleIsBytes()
    ensures AllBytes(SampleBytes)
  {
  }

  /** A vector that starts with a record of known type code `code` and a
      payload holding `raw` decodes into that record's reading, whose channel
      is the payload's first byte, followed by the decoding of what comes
      after the record. */
  lemma LeadingRecord(table: Schema, code: nat, unused: nat, payload: seq<nat>, rest: seq<nat>, raw: int)
    requires code in table && |payload| == table[code].size >= 1
    requires Raw(payload, table[code].signed) == raw
    ensures DecodeFrom(table, [code, unused] + payload + rest, 0)
         == Prepend([DecodeData(table[code].name, payload[0], Scaled(raw, table[code].divisor))],
                    ShiftCursor(DecodeFrom(table, rest, 0), 2 + |payload|))
  {
    var record := [code, unused] + payload;
    var b := record + rest;
    assert b[0] == code && b[2] == payload[0];
    assert b[2..|record|] == payload;
    DecodeIgnoresPrefix(table, record, rest, 0);
  }

  /** The integers the sample's payloads hold. */
  lemma SamplePayloads()
    ensures Raw([1], false) == 1
    ensures Raw([1, 183], false) == 439
    ensures Raw([100], false) == 100
    ensures Raw([101, 75, 88, 53], false) == 1699436597
    ensures Raw([209], true) == -47
    ensures Raw([7, 213], true) == 2005
    ensures Raw([99], false) == 99
    ensures Raw([7, 144], true) == 1936
    ensures Raw([0, 0], false) == 0
    ensures Raw([7], true) == 7
  {
  }

  /** From cursor 34 on: the snr record (type code 12) and the rest. */
  lemma SampleFrom34Decodes()
    ensures DecodeFrom(Table, From34, 0) == Completed(SampleReadings[9..])
  {
    assert From34 == [12, 10] + [7] + [];
    SamplePayloads();
    assert 12 in Table && Table[12] == FieldType("snr", 1, true, 1);
    LeadingRecord(Table, 12, 10, [7], [], 7);
    assert SampleReadings[9..] == [SampleReadings[9]] + SampleReadings[10..];
  }

  /** From cursor 30 on: the error_mask record (type code 11) and the rest. */
  lemma SampleFrom30Decodes()
    ensures DecodeFrom(Table, From30, 0) == Completed(SampleReadings[8..])
  {
    SampleFrom34Decodes();
    SamplePayloads();
    assert 11 in Table && Table[11] == FieldType("error_mask", 2, false, 1);
    LeadingRecord(Table, 11, 11, [0, 0], From34, 0);
    assert SampleReadings[8..] == [SampleReadings[8]] + SampleReadings[9..];
  }

  /** From cursor 26 on: the sht85_temperature record (type code 13) and the rest. */
  lemma SampleFrom26Decodes()
    ensures DecodeFrom(Table, From26, 0) == Completed(SampleReadings[7..])
  {
    SampleFrom30Decodes();
    SamplePayloads();
    assert 13 in Table && Table[13] == FieldType("sht85_temperature", 2, true, 100);
    LeadingRecord(Table, 13, 14, [7, 144], From30, 1936);
    assert SampleReadings[7..] == [SampleReadings[7]] + SampleReadings[8..];
  }

  /** From cursor 23 on: the sht85_humidity record (type code 7) and the rest. */
  lemma SampleFrom23Decodes()
    ensures DecodeFrom(Table, From23, 0) == Completed(SampleReadings[6..])
  {
    SampleFrom26Decodes();
    SamplePayloads();
    assert 7 in Table && Table[7] == FieldType("sht85_humidity", 1, false, 2);
    LeadingRecord(Table, 7, 104, [99], From26, 99);
    assert SampleReadings[6..] == [SampleReadings[6]] + SampleReadings[7..];
  }

  /** From cursor 19 on: the internal_temperature record (type code 5) and the rest. */
  lemma SampleFrom19Decodes()
    ensures DecodeFrom(Table, From19, 0) == Completed(SampleReadings[5..])
  {
    SampleFrom23Decodes();
    SamplePayloads();
    assert 5 in Table && Table[5] == FieldType("internal_temperature", 2, true, 100);
    LeadingRecord(Table, 5, 14, [7, 213], From23, 2005);
    assert SampleReadings[5..] == [SampleReadings[5]] + SampleReadings[6..];
  }

  /** From cursor 16 on: the rssi record (type code 4) and the rest. */
  lemma SampleFrom16Decodes()
    ensures DecodeFrom(Table, From16, 0) == Completed(SampleReadings[4..])
  {
    SampleFrom19Decodes();
    SamplePayloads();
    assert 4 in Table && Table[4] == FieldType("rssi", 1, true, 1);
    LeadingRecord(Table, 4, 10, [209], From19, -47);
    assert SampleReadings[4..] == [SampleReadings[4]] + SampleReadings[5..];
  }

  /** From cursor 10 on: the timestamp record (type code 3) and the rest. */
  lemma SampleFrom10Decodes()
    ensures DecodeFrom(Table, From10, 0) == Completed(SampleReadings[3..])
  {
    SampleFrom16Decodes();
    SamplePayloads();
    assert 3 in Table && Table[3] == FieldType("timestamp", 4, false, 1);
    LeadingRecord(Table, 3, 12, [101, 75, 88, 53], From16, 1699436597);
    assert SampleReadings[3..] == [SampleReadings[3]] + SampleReadings[4..];
  }

  /** From cursor 7 on: the battery record (type code 2) and the rest. */
  lemma SampleFrom7Decodes()
    ensures DecodeFrom(Table, From7, 0) == Completed(SampleReadings[2..])
  {
    SampleFrom10Decodes();
    SamplePayloads();
    assert 2 in Table && Table[2] == FieldType("battery", 1, false, 1);
    LeadingRecord(Table, 2, 10, [100], From10, 100);
    assert SampleReadings[2..] == [SampleReadings[2]] + SampleReadings[3..];
  }

  /** From cursor 3 on: the backlogCount record (type code 1) and the rest. */
  lemma SampleFrom3Decodes()
    ensures DecodeFrom(Table, From3, 0) == Completed(SampleReadings[1..])
  {
    SampleFrom7Decodes();
    SamplePayloads();
    assert 1 in Table && Table[1] == FieldType("backlogCount", 2, false, 1);
    LeadingRecord(Table, 1, 11, [1, 183], From7, 439);
    assert SampleReadings[1..] == [SampleReadings[1]] + SampleReadings[2..];
  }

  /** From cursor 0 on: the options record (type code 0) and the rest. */
  lemma SampleFrom0Decodes()
    ensures DecodeFrom(Table, From0, 0) == Completed(SampleReadings[0..])
  {
    SampleFrom3Decodes();
    SamplePayloads();
    assert 0 in Table && Table[0] == FieldType("options", 1, false, 1);
    LeadingRecord(Table, 0, 10, [1], From3, 1);
    assert SampleReadings[0..] == [SampleReadings[0]] + SampleReadings[1..];
  }

  /** The sample decodes without a panic into ten readings, for type codes
      0, 1, 2, 3, 4, 5, 7, 13, 11 and 12. */
  lemma SampleDecodes()
    ensures |SampleBytes| == 37
    ensures Decode(Table, SampleBytes) == Completed(SampleReadings)
  {
    SampleFrom0Decodes();
    assert SampleReadings[0..] == SampleReadings;
  }

  /** The walk over the sample ends with the cursor at 37, the length of the
      vector, and no record of it panics. */
  lemma SampleWalkEndsAtLength()
    ensures var cs := Cursors(Table, SampleBytes, 0);
      |cs| > 0 && cs[|cs| - 1] + Advance(Table, SampleBytes, cs[|cs| - 1]) == 37 &&
      Clean(Table, SampleBytes, cs)
  {
    SampleDecodes();
    CompletedWalkIsClean(Table, SampleBytes, 0);
  }

  /** Scaled by their divisors, rssi reads -47, internal_temperature 20.05
      and snr 7. */
  lemma SampleValues()
    ensures SampleReadings[4].value.Value() == -47.0
    ensures SampleReadings[5].value.Value() == 20.05
    ensures SampleReadings[9].value.Value() == 7.0
  {
  }

  /** An unknown type code (14) is skipped together with the byte after it,
      and the loop carries on from the byte two past it, which it reads as
      the next type code: here 2, battery, whose channel and payload are
      the byte 50. */
  lemma UnknownCodeSkipped()
    ensures Decode(Table, [14, 0, 2, 9, 50]) == Completed([DecodeData("battery", 50, Scaled(50, 1))])
  {
    assert 14 !in Table;
    assert 2 in Table && Table[2] == FieldType("battery", 1, false, 1);
    assert [14, 0, 2, 9, 50][4..5] == [50];
    assert [50][1..] == [];
  }

  /** A record with no room for the byte two past its type code panics at
      the channel read; a timestamp record with fewer than four payload bytes
      panics at the payload slice. */
  lemma PanicScenarios()
    ensures Decode(Table, [2, 0]) == Panicked(ChannelRead, 0)
    ensures Decode(Table, [14, 0, 2, 9]) == Panicked(ChannelRead, 2)
    ensures Decode(Table, [3, 0, 1, 2, 3]) == Panicked(PayloadSlice, 0)
  {
  }

  /** The stream [3, 0, 0, 99] with code 3 as a one-byte unsigned "battery"
      field: the record at position 0 takes the byte 0 at position 2 as its
      payload, the byte 99 at position 3 is read as the next type code, and
      that record's channel read runs past the end. */
  lemma OneByteScenarioPanics()
    ensures Decode(map[3 := FieldType("battery", 1, false, 1)], [3, 0, 0, 99])
         == Panicked(ChannelRead, 3)
  {
  }

  /** The tail of `main` (src/main.rs:193-257): the decode loop run on the
      built-in table and sample ends without a panic, with the ten readings. */
  method DecodeSample() returns (out: Outcome)
    ensures out == Completed(SampleReadings)
  {
    TableShape();
    SampleIsBytes();
    out := DecodeLoop(Table, SampleBytes);
    SampleDecodes();
  }
}
