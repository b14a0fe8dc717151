/** Unsigned LEB128 (DWARF Version 4, section 7.6, "Variable Length Data"): a natural
    number written as base-128 digits, least significant first, one per byte, with
    bit 0x80 set on every byte but the last. BCS uses it as the length prefix of a
    byte string. This module is the specification both encoder copies are proved against. */
module Uleb128 {
  import opened Optional

  /** The low seven bits of a byte: its base-128 digit. */
  function Digit(b: bv8): nat { (b & 0x7f) as nat }

  /** Whether bit 0x80, the continuation bit, is set. */
  predicate Continues(b: bv8) { b & 0x80 != 0 }

  /** Setting or testing the top bit of a byte below 0x80 leaves its digit alone. */
  lemma DigitByte(d: nat)
    requires d < 128
    ensures !Continues(d as bv8) && Digit(d as bv8) == d
    ensures Continues((d as bv8) | 0x80) && Digit((d as bv8) | 0x80) == d
  {
    SmallToByte(d);
    LowByteBits(d as bv8);
  }

  lemma SmallToByte(d: nat)
    requires d < 128
    ensures (d as bv8) as int == d && (d as bv8) < 0x80
  {
  }

  lemma LowByteBits(x: bv8)
    requires x < 0x80
    ensures x & 0x80 == 0 && x & 0x7f == x
    ensures (x | 0x80) & 0x80 != 0 && (x | 0x80) & 0x7f == x
  {
  }

  /** The encoding of n. */
  function Encode(n: nat): seq<bv8>
  {
    if n < 128 then [n as bv8] else [((n % 128) as bv8) | 0x80] + Encode(n / 128)
  }

  function Pow128(k: nat): nat {
    if k == 0 then 1 else 128 * Pow128(k - 1)
  }

  /** The number the digits of a byte string stand for: the sum of digit i times 128^i. */
  function Value(bs: seq<bv8>): nat {
    if bs == [] then 0 else Digit(bs[0]) + 128 * Value(bs[1..])
  }

  /** Every byte but the last carries the continuation bit, the last does not, and
      the digits read back as n. */
  lemma {:induction false} EncodeIsWellFormed(n: nat)
    ensures |Encode(n)| >= 1
    ensures forall i | 0 <= i < |Encode(n)| - 1 :: Continues(Encode(n)[i])
    ensures !Continues(Encode(n)[|Encode(n)| - 1])
    ensures Value(Encode(n)) == n
  {
    if n < 128 {
      DigitByte(n);
    } else {
      var e, tail := Encode(n), Encode(n / 128);
      DigitByte(n % 128);
      EncodeIsWellFormed(n / 128);
      EncodeStep(n);
      assert e[0] == ((n % 128) as bv8) | 0x80 && e[1..] == tail;
      assert Value(e) == n % 128 + 128 * (n / 128);
      forall i | 0 <= i < |e| - 1 ensures Continues(e[i]) {
        if i > 0 { assert e[i] == tail[i - 1]; }
      }
      assert e[|e| - 1] == tail[|tail| - 1];
    }
  }

  /** The encoding is minimal: its length is the number of base-128 digits of n, and
      for n > 0 the last byte is not zero. */
  lemma {:induction false} EncodeIsMinimal(n: nat)
    ensures n < Pow128(|Encode(n)|)
    ensures |Encode(n)| > 1 ==> Pow128(|Encode(n)| - 1) <= n
    ensures n > 0 ==> Encode(n)[|Encode(n)| - 1] != 0
  {
    if n >= 128 {
      EncodeIsMinimal(n / 128);
      var e := Encode(n);
      assert e[1..] == Encode(n / 128);
    }
  }

  /** What the encoder's loop still has to write for the part of the number not yet consumed. */
  ghost function Remaining(bigNum: nat): seq<bv8> {
    if bigNum == 0 then [] else Encode(bigNum)
  }

  /** One round of the encoder's loop: it appends the low digit of what remained and,
      when more digits follow, sets that byte's continuation bit in place. */
  lemma EncodeLoopStep(done: seq<bv8>, was: nat, arr: seq<bv8>)
    requires was > 0
    requires was / 128 > 0 ==> arr == (done + [(was % 128) as bv8])[|done| := ((was % 128) as bv8) | 0x80]
    requires was / 128 == 0 ==> arr == done + [(was % 128) as bv8]
    ensures done + Remaining(was) == arr + Remaining(was / 128)
  {
    EncodeFirstByte(was);
    if was / 128 > 0 {
      assert arr == done + [((was % 128) as bv8) | 0x80];
    }
  }

  /** Reads one LEB128 number from the front of `data`: the value and the number of
      bytes it took, or None when the data ends before a byte without the continuation bit. */
  function Decode(data: seq<bv8>): (r: Option<(nat, nat)>)
    ensures r.Some? ==> 1 <= r.value.1 <= |data|
    ensures r.Some? ==> !Continues(data[r.value.1 - 1])
  {
    if data == [] then None
    else if !Continues(data[0]) then Some((Digit(data[0]), 1))
    else
      var more := Decode(data[1..]);
      if more.None? then None else Some((Digit(data[0]) + 128 * more.value.0, more.value.1 + 1))
  }

  /** The decoder stops at the first byte without the continuation bit, and finds
      nothing exactly when every byte has it. */
  lemma {:induction false} DecodeStopsAtFirstFinalByte(data: seq<bv8>)
    ensures Decode(data).Some? ==> forall i | 0 <= i < Decode(data).value.1 - 1 :: Continues(data[i])
    ensures Decode(data).None? <==> forall i | 0 <= i < |data| :: Continues(data[i])
  {
    if data != [] && Continues(data[0]) {
      var tail := data[1..];
      DecodeStopsAtFirstFinalByte(tail);
      forall i | 1 <= i < |data| ensures data[i] == tail[i - 1] {}
    }
  }

  /** Decoding an encoding, whatever follows it, gives the number back and stops at its end. */
  lemma {:induction false} DecodeEncode(n: nat, rest: seq<bv8>)
    ensures Decode(Encode(n) + rest) == Some((n, |Encode(n)|))
  {
    if n < 128 {
      DigitByte(n);
      DecodeCons(n as bv8, rest);
    } else {
      var b, tail := ((n % 128) as bv8) | 0x80, Encode(n / 128);
      EncodeStep(n);
      assert Encode(n) + rest == [b] + (tail + rest);
      DecodeEncode(n / 128, rest);
      DigitByte(n % 128);
      DecodeCons(b, tail + rest);
    }
  }

  /** Decoding one byte in front of `rest`. */
  lemma DecodeCons(b: bv8, rest: seq<bv8>)
    ensures !Continues(b) ==> Decode([b] + rest) == Some((Digit(b), 1))
    ensures Continues(b) && Decode(rest).Some? ==>
      Decode([b] + rest) == Some((Digit(b) + 128 * Decode(rest).value.0, Decode(rest).value.1 + 1))
  {
    assert ([b] + rest)[0] == b && ([b] + rest)[1..] == rest;
  }

  /** Conversely, a decoded prefix whose last byte is not zero (or which is one byte
      long) is exactly the encoding of the decoded value: minimal encodings are unique. */
  lemma {:induction false} DecodeIsEncode(data: seq<bv8>)
    requires Decode(data).Some?
    requires var k := Decode(data).value.1; k == 1 || data[k - 1] != 0
    ensures var (v, k) := Decode(data).value; k <= |data| && data[..k] == Encode(v)
    decreases |data|, 1
  {
    if !Continues(data[0]) {
      DigitByteRoundTrip(data[0]);
    } else {
      DecodeIsEncodeContinued(data);
    }
  }

  /** The step of the proof above for a first byte with the continuation bit. */
  lemma {:induction false} DecodeIsEncodeContinued(data: seq<bv8>)
    requires Decode(data).Some? && data != [] && Continues(data[0])
    requires var k := Decode(data).value.1; k == 1 || data[k - 1] != 0
    ensures var (v, k) := Decode(data).value; k <= |data| && data[..k] == Encode(v)
    decreases |data|, 0
  {
    var tail := data[1..];
    DecodeStep(data);
    var v', k' := Decode(tail).value.0, Decode(tail).value.1;
    assert tail[k' - 1] == data[k'];
    DecodedNonZero(tail);
    DecodeIsEncode(tail);
    HeadByte(data[0], v');
    PrefixCons(data, k');
  }

  lemma PrefixCons(data: seq<bv8>, k: nat)
    requires k < |data|
    ensures data[..k + 1] == [data[0]] + data[1..][..k]
  {
  }

  /** Decoding past a first byte with the continuation bit. */
  lemma DecodeStep(data: seq<bv8>)
    requires Decode(data).Some? && data != [] && Continues(data[0])
    ensures Decode(data[1..]).Some?
    ensures Decode(data).value ==
      (Digit(data[0]) + 128 * Decode(data[1..]).value.0, Decode(data[1..]).value.1 + 1)
  {
  }

  /** A continuing byte followed by the digits of v' > 0 is the first byte of
      the encoding of the value they stand for. */
  lemma HeadByte(b: bv8, v': nat)
    requires Continues(b) && v' > 0
    ensures Encode(Digit(b) + 128 * v') == [b] + Encode(v')
  {
    var d := Digit(b);
    DigitByteRoundTrip(b);
    DivModDigit(d, v');
    ContinuedFirstByte(d + 128 * v', d, v', b);
  }

  /** The first byte of the encoding of a number of two or more digits, given its low
      digit d, the rest q and the byte b that carries d with the continuation bit. */
  lemma ContinuedFirstByte(n: nat, d: nat, q: nat, b: bv8)
    requires n >= 128 && n % 128 == d && n / 128 == q && b == (d as bv8) | 0x80
    ensures Encode(n) == [b] + Encode(q)
  {
    EncodeStep(n);
  }

  lemma DivModDigit(d: nat, q: nat)
    requires d < 128
    ensures (d + 128 * q) % 128 == d && (d + 128 * q) / 128 == q
  {
  }

  /** The first byte of an encoding: the low digit, with the continuation bit set
      exactly when more digits follow. */
  lemma EncodeFirstByte(n: nat)
    requires n > 0
    ensures n / 128 > 0 ==> Encode(n) == [((n % 128) as bv8) | 0x80] + Encode(n / 128)
    ensures n / 128 == 0 ==> Encode(n) == [(n % 128) as bv8]
  {
  }

  lemma EncodeStep(n: nat)
    requires n >= 128
    ensures Encode(n) == [((n % 128) as bv8) | 0x80] + Encode(n / 128)
  {
  }

  /** A byte is determined by its digit and its continuation bit. */
  lemma DigitByteRoundTrip(b: bv8)
    ensures Digit(b) < 128
    ensures !Continues(b) ==> b == Digit(b) as bv8
    ensures Continues(b) ==> b == (Digit(b) as bv8) | 0x80
  {
    var lo := b & 0x7f;
    ByteSplit(b);
    ByteToNatAndBack(lo);
  }

  /** A byte is its low seven bits joined with its top bit. */
  lemma ByteSplit(b: bv8)
    ensures b & 0x7f < 0x80
    ensures b & 0x80 == 0 || b & 0x80 == 0x80
    ensures b == (b & 0x7f) | (b & 0x80)
  {
  }

  lemma ByteToNatAndBack(x: bv8)
    ensures (x as nat) as bv8 == x
  {
  }

  lemma NonZeroLastDigit(b: bv8)
    requires !Continues(b) && b != 0
    ensures Digit(b) > 0
  {
  }

  /** A decoding that ends in a non-zero byte has a non-zero value. */
  lemma {:induction false} DecodedNonZero(data: seq<bv8>)
    requires Decode(data).Some?
    requires data[Decode(data).value.1 - 1] != 0
    ensures Decode(data).value.0 > 0
  {
    if !Continues(data[0]) {
      NonZeroLastDigit(data[0]);
    } else {
      var tail := data[1..];
      DecodeStep(data);
      assert tail[Decode(tail).value.1 - 1] == data[Decode(data).value.1 - 1];
      DecodedNonZero(tail);
    }
  }

  /** A BCS byte string: the length prefix, then the payload. */
  function Frame(payload: seq<bv8>): seq<bv8> {
    Encode(|payload|) + payload
  }

  /** Reading the prefix of a framed payload gives its length, and the bytes after the
      prefix are exactly the payload. */
  lemma FrameRoundTrip(payload: seq<bv8>)
    ensures Decode(Frame(payload)).Some?
    ensures var (n, k) := Decode(Frame(payload)).value;
      n == |payload| && k + n == |Frame(payload)| && Frame(payload)[k..] == payload
  {
    DecodeEncode(|payload|, payload);
  }
}
