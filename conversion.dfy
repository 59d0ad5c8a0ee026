/** `array_to_decimal` (src/main.rs:262-276): big-endian reconstruction of a
    payload slice, two's-complement correction for signed fields, and scaling
    by the descriptor's divisor. */
module Conversion {
  import opened FieldTable

  /** 256^n, i.e. `1 << (8 * n)`. */
  function Pow256(n: nat): (r: nat)
    ensures r >= 1
  {
    if n == 0 then 1 else 256 * Pow256(n - 1)
  }

  /** Every element of `s` is a byte value. */
  predicate AllBytes(s: seq<nat>)
  {
    forall k :: 0 <= k < |s| ==> s[k] < 256
  }

  /** The big-endian reading of `s`: the sum of s[k] * 256^(|s|-1-k). */
  function BigEndian(s: seq<nat>): nat
  {
    if s == [] then 0 else s[0] * Pow256(|s| - 1) + BigEndian(s[1..])
  }

  /** The two's-complement reading over `8 * n` bits of an unsigned value:
      subtract 2^(8n) when the value is above the largest positive one.  The
      result is congruent to `u` modulo 2^(8n), and for an n-byte value it is
      negative exactly when the value is above the largest positive one. */
  function TwosComplement(u: int, n: nat): (r: int)
    ensures r % Pow256(n) == u % Pow256(n)
    ensures 0 <= u < Pow256(n) ==> (r < 0 <==> u > (Pow256(n) - 1) / 2)
  {
    var edge := Pow256(n);
    if u > (edge - 1) / 2 then ModShift(u, edge); u - edge else u
  }

  /** Subtracting the modulus keeps the remainder. */
  lemma ModShift(u: int, e: int)
    requires e > 0
    ensures (u - e) % e == u % e
  {
    var q, m := u / e, u % e;
    var q2, m2 := (u - e) / e, (u - e) % e;
    var k := q - q2 - 1;
    assert k * e == m2 - m by {
      assert q * e - q2 * e - e == (q - q2 - 1) * e;
    }
    MulAtLeastOnce(k, e);
  }

  /** A non-zero multiple of `e` is at least `e` away from zero. */
  lemma MulAtLeastOnce(k: int, e: int)
    requires e > 0
    ensures k >= 1 ==> k * e >= e
    ensures k <= -1 ==> k * e <= -e
  {
    assert k * e == (k - 1) * e + e;
    assert k * e == (k + 1) * e - e;
  }

  /** The integer a payload slice holds, before the divisor is applied.  The
      signed and unsigned readings agree modulo 2^(8 * |s|), and an unsigned
      reading is never negative. */
  function Raw(s: seq<nat>, signed: bool): (r: int)
    ensures r % Pow256(|s|) == BigEndian(s) % Pow256(|s|)
    ensures !signed ==> r >= 0
  {
    if signed then TwosComplement(BigEndian(s), |s|) else BigEndian(s)
  }

  /** Half the range of an n-byte integer: 2^(8n-1) for n >= 1. */
  function Half(n: nat): int
  {
    Pow256(n) / 2
  }

  /** Appending a byte shifts the value left by eight bits and adds the byte:
      the step the source's fold performs. */
  lemma {:induction false} BigEndianSnoc(s: seq<nat>, x: nat)
    ensures BigEndian(s + [x]) == BigEndian(s) * 256 + x
  {
    if s == [] {
      assert s + [x] == [x];
      assert [x][1..] == [];
    } else {
      var t := s + [x];
      assert t[0] == s[0] && t[1..] == s[1..] + [x];
      BigEndianSnoc(s[1..], x);
      calc {
        BigEndian(t);
        s[0] * Pow256(|s|) + BigEndian(s[1..] + [x]);
        s[0] * (256 * Pow256(|s| - 1)) + BigEndian(s[1..]) * 256 + x;
        { assert s[0] * (256 * Pow256(|s| - 1)) == (s[0] * Pow256(|s| - 1)) * 256; }
        (s[0] * Pow256(|s| - 1) + BigEndian(s[1..])) * 256 + x;
        BigEndian(s) * 256 + x;
      }
    }
  }

  /** A slice reads as zero exactly when every byte of it is zero. */
  lemma {:induction false} BigEndianZero(s: seq<nat>)
    ensures BigEndian(s) == 0 <==> forall k :: 0 <= k < |s| ==> s[k] == 0
  {
    if s != [] {
      BigEndianZero(s[1..]);
      assert s[0] * Pow256(|s| - 1) == 0 <==> s[0] == 0;
      assert (forall k :: 0 <= k < |s| ==> s[k] == 0)
         <==> s[0] == 0 && forall k :: 0 <= k < |s[1..]| ==> s[1..][k] == 0;
    }
  }

  /** An n-byte big-endian value lies in [0, 256^n). */
  lemma {:induction false} BigEndianRange(s: seq<nat>)
    requires AllBytes(s)
    ensures 0 <= BigEndian(s) < Pow256(|s|)
  {
    if s != [] {
      BigEndianRange(s[1..]);
      var p, rest := Pow256(|s| - 1), BigEndian(s[1..]);
      assert BigEndian(s) == s[0] * p + rest;
      MulLeft(s[0], 255, p);
      assert BigEndian(s) < 255 * p + p == Pow256(|s|);
    }
  }

  /** Multiplying by a natural number keeps the order of the factors. */
  lemma MulLeft(a: nat, b: nat, p: nat)
    requires a <= b
    ensures a * p <= b * p
  {
  }

  /** 256^n is even for n >= 1, so (256^n - 1) / 2 is one below its half. */
  lemma HalfOfEdge(n: nat)
    requires n >= 1
    ensures Pow256(n) == 2 * Half(n)
    ensures (Pow256(n) - 1) / 2 == Half(n) - 1
  {
    assert Pow256(n) == 2 * (128 * Pow256(n - 1));
  }

  /** The correction subtracts 2^(8n) exactly when the unsigned value is above
      2^(8n-1) - 1, leaves it unchanged otherwise, and lands in the signed
      range [-2^(8n-1), 2^(8n-1) - 1]. */
  lemma TwosComplementRange(u: int, n: nat)
    requires n >= 1 && 0 <= u < Pow256(n)
    ensures u > Half(n) - 1 ==> TwosComplement(u, n) == u - Pow256(n)
    ensures u <= Half(n) - 1 ==> TwosComplement(u, n) == u
    ensures -Half(n) <= TwosComplement(u, n) <= Half(n) - 1
  {
  }

  /** A signed field's integer lies in the n-byte signed range, and differs
      from the unsigned value by 2^(8n) exactly when that value's top bit is
      set. */
  lemma SignedRaw(s: seq<nat>)
    requires AllBytes(s) && |s| >= 1
    ensures -Half(|s|) <= Raw(s, true) <= Half(|s|) - 1
    ensures BigEndian(s) >= Half(|s|) ==> Raw(s, true) == BigEndian(s) - Pow256(|s|)
    ensures BigEndian(s) < Half(|s|) ==> Raw(s, true) == BigEndian(s)
  {
    BigEndianRange(s);
    TwosComplementRange(BigEndian(s), |s|);
  }

  /** With a positive divisor an unsigned field never reads negative. */
  lemma UnsignedValueNonNegative(s: seq<nat>, divisor: U8)
    requires AllBytes(s) && divisor > 0
    ensures Scaled(Raw(s, false), divisor).Value() >= 0.0
  {
  }

  /** Worked values of the conversion. */
  lemma ConversionExamples()
    ensures Raw([0xFF], true) == -1
    ensures Raw([0x80], true) == -128
    ensures Raw([0x7F], true) == 127
    ensures Raw([209], true) == -47
    ensures Raw([1, 0], false) == 256
    ensures Raw([7, 213], true) == 2005
  {
  }

  /** The fold step `(value << 8) | byte` on 64-bit words is `value * 256 + byte`
      while the value stays below 2^56 and the byte below 256: shifting clears
      the low eight bits, so the OR adds the byte. */
  lemma ShiftOrIsMulAdd(value: bv64, byte: bv64)
    requires value < 0x100_0000_0000_0000 && byte < 256
    ensures (value << 8) | byte == value * 256 + byte
  {
  }

  /** `array_to_decimal`: fold the slice big-endian, correct the sign over
      `8 * |stream|` bits when the field is signed, and pair the integer with
      the divisor.  The slice holds byte values and is at most 7 bytes long,
      so every intermediate fits the source's `i64`. */
  method ArrayToDecimal(stream: seq<nat>, isSigned: bool, divisor: U8) returns (value: Scaled)
    requires AllBytes(stream) && |stream| <= MaxSize
    ensures value.divisor == divisor
    ensures value.raw == Raw(stream, isSigned)
    ensures !isSigned ==> 0 <= value.raw < Pow256(|stream|)
    ensures isSigned && |stream| >= 1 ==> -Half(|stream|) <= value.raw <= Half(|stream|) - 1
  {
    var acc: int := 0;
    for k := 0 to |stream|
      invariant acc == BigEndian(stream[..k])
      invariant 0 <= acc < Pow256(k)
    {
      BigEndianSnoc(stream[..k], stream[k]);
      assert stream[..k + 1] == stream[..k] + [stream[k]];
      BigEndianRange(stream[..k + 1]);
      acc := acc * 256 + stream[k];
    }
    assert stream[..|stream|] == stream;
    if isSigned {
      var edge := Pow256(|stream|);
      var max := (edge - 1) / 2;
      if acc > max {
        acc := acc - edge;
      }
    }
    value := Scaled(acc, divisor);
    if isSigned {
      if |stream| >= 1 {
        SignedRaw(stream);
      }
    } else {
      BigEndianRange(stream);
    }
  }
}
