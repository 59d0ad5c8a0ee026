/** The decode loop of `main` (src/main.rs:235-257): a cursor walks the byte
    vector record by record, reading a type code, a channel byte and the
    payload the type code's descriptor calls for. */
module Decoder {
  import opened FieldTable
  import opened Conversion

  /** The two reads that can go out of range and panic. */
  datatype PanicSite =
    | ChannelRead    // `bytes_val.get(i + 1).unwrap()` (src/main.rs:240)
    | PayloadSlice   // `&bytes_val[i..end_index]` (src/main.rs:246)

  /** How a run ends: every reading pushed, or a panic at the read `site`
      during the record whose type code is at position `cursor`. */
  datatype Outcome =
    | Completed(readings: seq<DecodeData>)
    | Panicked(site: PanicSite, cursor: nat)

  /** The readings `done` already pushed, followed by what the rest of the
      run yields; a panic discards them, as the process aborts. */
  function Prepend(done: seq<DecodeData>, rest: Outcome): Outcome
  {
    match rest
    case Completed(readings) => Completed(done + readings)
    case Panicked(_, _) => rest
  }

  /** How far the record starting at `c` moves the cursor: past the type code,
      the unused byte and the payload for a known code, past only the first
      two for an unknown one. */
  function Advance(table: Schema, bytes: seq<nat>, c: nat): nat
    requires c < |bytes|
  {
    if bytes[c] in table then 2 + table[bytes[c]].size else 2
  }

  /** The record at `c` panics: its channel read at c + 2 or the end of its
      payload lies beyond the vector. */
  predicate Fault(table: Schema, bytes: seq<nat>, c: nat)
    requires c < |bytes|
  {
    c + 2 >= |bytes| || (bytes[c] in table && c + 2 + table[bytes[c]].size > |bytes|)
  }

  /** The reading pushed for the record whose known type code is at `c`.
      The cursor already stands one past the type code when `i + 1` is read,
      so the channel is the byte at c + 2, which is also where the payload
      begins; the byte at c + 1 is never used. */
  function ReadingAt(table: Schema, bytes: seq<nat>, c: nat): (r: DecodeData)
    requires c < |bytes| && bytes[c] in table && !Fault(table, bytes, c)
    ensures r.name == table[bytes[c]].name
    ensures r.channel == bytes[c + 2]
    ensures table[bytes[c]].size >= 1 ==> r.channel == bytes[c + 2..c + 2 + table[bytes[c]].size][0]
    ensures r.value.divisor == table[bytes[c]].divisor
  {
    var field := table[bytes[c]];
    DecodeData(field.name, bytes[c + 2], Scaled(Raw(bytes[c + 2..c + 2 + field.size], field.signed), field.divisor))
  }

  /** What the loop yields from cursor `i` on.  A panic is raised by a record
      inside the vector, never before the starting cursor. */
  function DecodeFrom(table: Schema, bytes: seq<nat>, i: nat): (out: Outcome)
    ensures out.Panicked? ==> i <= out.cursor < |bytes|
    decreases |bytes| - i
  {
    if i >= |bytes| then Completed([])
    else if i + 2 >= |bytes| then Panicked(ChannelRead, i)
    else if bytes[i] !in table then DecodeFrom(table, bytes, i + 2)
    else if i + 2 + table[bytes[i]].size > |bytes| then Panicked(PayloadSlice, i)
    else Prepend([ReadingAt(table, bytes, i)], DecodeFrom(table, bytes, i + 2 + table[bytes[i]].size))
  }

  /** The decoding of a whole byte vector. */
  function Decode(table: Schema, bytes: seq<nat>): Outcome
  {
    DecodeFrom(table, bytes, 0)
  }

  /** The same outcome, with a panic's cursor moved `n` positions on. */
  function ShiftCursor(out: Outcome, n: nat): Outcome
  {
    match out
    case Completed(_) => out
    case Panicked(site, cursor) => Panicked(site, cursor + n)
  }

  /** Decoding from a record boundary depends only on the bytes from there
      on: the run over `p + q` from |p| + i is the run over `q` from `i`,
      with any panic reported |p| positions further on. */
  lemma {:induction false} DecodeIgnoresPrefix(table: Schema, p: seq<nat>, q: seq<nat>, i: nat)
    ensures DecodeFrom(table, p + q, |p| + i) == ShiftCursor(DecodeFrom(table, q, i), |p|)
    decreases |q| - i
  {
    var b, j := p + q, |p| + i;
    if i < |q| && i + 2 < |q| {
      assert b[j] == q[i];
      if q[i] !in table {
        DecodeIgnoresPrefix(table, p, q, i + 2);
      } else if i + 2 + table[q[i]].size <= |q| {
        var n := table[q[i]].size;
        assert b[j + 2] == q[i + 2];
        assert b[j + 2..j + 2 + n] == q[i + 2..i + 2 + n];
        assert ReadingAt(table, b, j) == ReadingAt(table, q, i);
        DecodeIgnoresPrefix(table, p, q, i + 2 + n);
      }
    }
  }

  /** The run from `j` depends only on the bytes from `j` on: two vectors of
      the same length that agree there decode alike. */
  lemma SameSuffixSameRun(table: Schema, a: seq<nat>, b: seq<nat>, j: nat)
    requires |a| == |b| && j <= |a| && a[j..] == b[j..]
    ensures DecodeFrom(table, a, j) == DecodeFrom(table, b, j)
  {
    assert a[..j] + a[j..] == a;
    assert b[..j] + b[j..] == b;
    DecodeIgnoresPrefix(table, a[..j], a[j..], 0);
    DecodeIgnoresPrefix(table, b[..j], b[j..], 0);
  }

  /** One iteration of the loop from `i` does the same on two vectors of the
      same length that agree on the record's type code, channel and payload,
      when the runs from where it advances to agree. */
  lemma SameStep(table: Schema, a: seq<nat>, b: seq<nat>, i: nat)
    requires |a| == |b| && i < |a| && a[i] == b[i] && !Fault(table, a, i)
    requires a[i + 2] == b[i + 2]
    requires a[i] in table ==>
      a[i + 2..i + 2 + table[a[i]].size] == b[i + 2..i + 2 + table[a[i]].size]
    requires DecodeFrom(table, a, i + Advance(table, a, i)) == DecodeFrom(table, b, i + Advance(table, a, i))
    ensures DecodeFrom(table, a, i) == DecodeFrom(table, b, i)
  {
    if a[i] in table {
      assert ReadingAt(table, a, i) == ReadingAt(table, b, i);
    }
  }

  /** The byte right after a type code is never used: overwriting it, for any
      record on the walk, leaves the whole run from `i` unchanged. */
  lemma {:induction false} SkippedByteUnused(table: Schema, bytes: seq<nat>, i: nat, c: nat, x: nat)
    requires c in Cursors(table, bytes, i) && c + 1 < |bytes|
    ensures DecodeFrom(table, bytes[c + 1 := x], i) == DecodeFrom(table, bytes, i)
    decreases |bytes| - i
  {
    var b := bytes[c + 1 := x];
    assert i < |bytes| && i <= c;
    if !Fault(table, bytes, i) {
      var next := i + Advance(table, bytes, i);
      assert Cursors(table, bytes, i) == [i] + Cursors(table, bytes, next);
      if c == i {
        assert b[next..] == bytes[next..];
        SameSuffixSameRun(table, b, bytes, next);
      } else {
        assert next <= c;
        SkippedByteUnused(table, bytes, next, c, x);
      }
      if bytes[i] in table {
        var n := table[bytes[i]].size;
        assert b[i + 2..i + 2 + n] == bytes[i + 2..i + 2 + n];
      }
      SameStep(table, bytes, b, i);
    }
  }

  /** The positions at which the loop reads a type code, from cursor `i` on:
      each iteration starts where the previous one advanced to, and the walk
      stops at the end of the vector or at the first record that panics. */
  ghost function Cursors(table: Schema, bytes: seq<nat>, i: nat): (cs: seq<nat>)
    ensures |cs| == 0 <==> i >= |bytes|
    ensures forall k :: 0 <= k < |cs| ==> i <= cs[k] < |bytes|
    decreases |bytes| - i
  {
    if i >= |bytes| then []
    else if Fault(table, bytes, i) then [i]
    else [i] + Cursors(table, bytes, i + Advance(table, bytes, i))
  }

  /** No record at the positions `cs` panics. */
  ghost predicate Clean(table: Schema, bytes: seq<nat>, cs: seq<nat>)
  {
    forall k :: 0 <= k < |cs| ==> cs[k] < |bytes| && !Fault(table, bytes, cs[k])
  }

  /** One reading per known type code among the positions `cs`, in order;
      unknown codes contribute nothing. */
  ghost function KnownReadings(table: Schema, bytes: seq<nat>, cs: seq<nat>): seq<DecodeData>
    requires Clean(table, bytes, cs)
  {
    if cs == [] then []
    else (if bytes[cs[0]] in table then [ReadingAt(table, bytes, cs[0])] else [])
         + KnownReadings(table, bytes, cs[1..])
  }

  /** The walk starts at `i`, moves by exactly `Advance` per record (so the
      cursor strictly increases), stays inside the vector, and only its last
      record can panic. */
  lemma {:induction false} CursorsShape(table: Schema, bytes: seq<nat>, i: nat)
    ensures var cs := Cursors(table, bytes, i);
      && (|cs| > 0 ==> cs[0] == i)
      && (forall k :: 0 <= k < |cs| - 1 ==>
            !Fault(table, bytes, cs[k]) && cs[k + 1] == cs[k] + Advance(table, bytes, cs[k]))
    decreases |bytes| - i
  {
    if i < |bytes| && !Fault(table, bytes, i) {
      var next := i + Advance(table, bytes, i);
      CursorsShape(table, bytes, next);
      var cs, tail := Cursors(table, bytes, i), Cursors(table, bytes, next);
      assert cs == [i] + tail;
      forall k | 0 <= k < |cs| - 1
        ensures !Fault(table, bytes, cs[k]) && cs[k + 1] == cs[k] + Advance(table, bytes, cs[k])
      {
        if k > 0 {
          assert cs[k] == tail[k - 1] && cs[k + 1] == tail[k];
        }
      }
    }
  }

  /** The run from `i` panics exactly when the walk ends on a faulty record,
      and then at that record: at the channel read when c + 2 is out of range,
      at the payload slice otherwise. */
  lemma {:induction false} DecodePanicsAtLastCursor(table: Schema, bytes: seq<nat>, i: nat)
    ensures var cs, out := Cursors(table, bytes, i), DecodeFrom(table, bytes, i);
      && (out.Panicked? <==> |cs| > 0 && Fault(table, bytes, cs[|cs| - 1]))
      && (out.Panicked? ==>
            && out.cursor == cs[|cs| - 1]
            && (out.site == ChannelRead <==> out.cursor + 2 >= |bytes|))
    decreases |bytes| - i
  {
    if i < |bytes| && !Fault(table, bytes, i) {
      var next := i + Advance(table, bytes, i);
      DecodePanicsAtLastCursor(table, bytes, next);
      var cs, tail := Cursors(table, bytes, i), Cursors(table, bytes, next);
      assert cs == [i] + tail;
      var out, rest := DecodeFrom(table, bytes, i), DecodeFrom(table, bytes, next);
      assert out.Panicked? ==> out == rest;
      assert out.Panicked? <==> rest.Panicked?;
      if tail != [] {
        assert cs[|cs| - 1] == tail[|tail| - 1];
      }
    }
  }

  /** A completed run from `i` walked without a faulty record to the exact
      end of the vector. */
  lemma {:induction false} CompletedWalkIsClean(table: Schema, bytes: seq<nat>, i: nat)
    requires DecodeFrom(table, bytes, i).Completed?
    ensures var cs := Cursors(table, bytes, i);
      && Clean(table, bytes, cs)
      && (|cs| == 0 || cs[|cs| - 1] + Advance(table, bytes, cs[|cs| - 1]) == |bytes|)
    decreases |bytes| - i
  {
    if i < |bytes| {
      var next := i + Advance(table, bytes, i);
      CompletedWalkIsClean(table, bytes, next);
      var cs, tail := Cursors(table, bytes, i), Cursors(table, bytes, next);
      assert cs == [i] + tail;
      if tail != [] {
        assert cs[|cs| - 1] == tail[|tail| - 1];
      }
      forall k | 0 <= k < |cs| ensures !Fault(table, bytes, cs[k]) {
        if k > 0 { assert cs[k] == tail[k - 1]; }
      }
    }
  }

  /** A completed run from `i` pushed one reading per known type code on its
      walk, in walk order, and nothing for unknown codes. */
  lemma {:induction false} CompletedReadings(table: Schema, bytes: seq<nat>, i: nat)
    requires DecodeFrom(table, bytes, i).Completed?
    ensures Clean(table, bytes, Cursors(table, bytes, i))
    ensures DecodeFrom(table, bytes, i).readings == KnownReadings(table, bytes, Cursors(table, bytes, i))
    decreases |bytes| - i
  {
    CompletedWalkIsClean(table, bytes, i);
    if i < |bytes| {
      var next := i + Advance(table, bytes, i);
      CompletedReadings(table, bytes, next);
      var cs := Cursors(table, bytes, i);
      assert cs[1..] == Cursors(table, bytes, next);
    }
  }

  /** The decode loop.  `i` is the cursor and `decoded` the vector of results;
      a read out of range ends the run with the panic it would raise.  The
      bytes are byte values and every descriptor's payload is at most 7 bytes,
      as the 64-bit conversion needs. */
  method DecodeLoop(table: Schema, bytes: seq<nat>) returns (out: Outcome)
    requires AllBytes(bytes) && ConvertibleSizes(table)
    ensures out == Decode(table, bytes)
  {
    var decoded: seq<DecodeData> := [];
    var i: nat := 0;
    while i < |bytes|
      invariant i <= |bytes|
      invariant Decode(table, bytes) == Prepend(decoded, DecodeFrom(table, bytes, i))
      decreases |bytes| - i
    {
      var typeCode := bytes[i];
      i := i + 1;
      if i + 1 >= |bytes| {
        return Panicked(ChannelRead, i - 1);
      }
      var channel := bytes[i + 1];
      i := i + 1;
      if typeCode in table {
        var field := table[typeCode];
        var endIndex := i + field.size;
        if endIndex > |bytes| {
          return Panicked(PayloadSlice, i - 2);
        }
        var slice := bytes[i..endIndex];
        assert AllBytes(slice) by {
          forall k | 0 <= k < |slice| ensures slice[k] < 256 {
            assert slice[k] == bytes[i + k];
          }
        }
        var value := ArrayToDecimal(slice, field.signed, field.divisor);
        var reading := DecodeData(field.name, channel, value);
        assert reading == ReadingAt(table, bytes, i - 2);
        decoded := decoded + [reading];
        i := i + field.size;
        PrependAssociates(decoded[..|decoded| - 1], reading, DecodeFrom(table, bytes, i));
        assert decoded[..|decoded| - 1] + [reading] == decoded;
      }
    }
    out := Completed(decoded);
  }

  /** Pushing one reading and then the rest is pushing both at once. */
  lemma PrependAssociates(done: seq<DecodeData>, r: DecodeData, rest: Outcome)
    ensures Prepend(done, Prepend([r], rest)) == Prepend(done + [r], rest)
  {
  }
}
