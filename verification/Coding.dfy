/** Fixed-width and variable-length integers (leveldb/util/coding.cc). */
module Coding {
  import opened Slices
  import opened Options

  const WORD := 0x1_0000_0000
  type Word = w: nat | w < 0x1_0000_0000

  function EncodeFixed32(w: Word): (r: Bytes)
    ensures |r| == 4
  {
    [w % 256, w / 0x100 % 256, w / 0x1_0000 % 256, w / 0x100_0000]
  }

  function DecodeFixed32(b: Bytes): Word
    requires |b| == 4
  {
    b[0] as int + b[1] as int * 0x100 + b[2] as int * 0x1_0000 + b[3] as int * 0x100_0000
  }

  /** The lowest byte comes first. */
  lemma Fixed32Bytes(w: Word)
    ensures var b := EncodeFixed32(w);
      w == b[0] as int + 0x100 * b[1] as int + 0x1_0000 * b[2] as int + 0x100_0000 * b[3] as int
  {
    var w1, w2, w3 := w / 0x100, w / 0x1_0000, w / 0x100_0000;
    assert w2 == w1 / 0x100 && w3 == w2 / 0x100;
  }

  lemma Fixed32RoundTrip(w: Word)
    ensures DecodeFixed32(EncodeFixed32(w)) == w
  {
    Fixed32Bytes(w);
    hide EncodeFixed32;
  }

  // ---------------------------------------------------------------- varint32

  /** Seven bits a byte, the lowest first; the high bit says that more bytes follow. */
  function Varint(v: nat): (r: Bytes)
    ensures |r| >= 1
  {
    if v < 128 then [v] else [v % 128 + 128] + Varint(v / 128)
  }

  /** Byte i of a varint holds bits 7i to 7i + 6, the high bit is set in all bytes but the last, and there are
      no more bytes than it takes. */
  lemma {:induction false} VarintBytes(v: nat, i: nat)
    requires i < |Varint(v)|
    ensures Varint(v)[i] as int == v / Power(i) % 128 + if i + 1 < |Varint(v)| then 128 else 0
    ensures v < Power(|Varint(v)|) && (|Varint(v)| > 1 ==> v >= Power(|Varint(v)| - 1))
  {
    if v >= 128 {
      var more := Varint(v / 128);
      assert Varint(v) == [v % 128 + 128] + more;
      VarintBytes(v / 128, if i == 0 then 0 else i - 1);
      if i > 0 {
        DivideTwice(v, Power(i - 1));
        assert Varint(v)[i] == more[i-1];
      }
    }
  }

  lemma DivideTwice(v: nat, p: nat)
    requires p > 0
    ensures v / 128 / p == v / (128 * p)
  {
    var q, r := v / 128 / p, v / 128 % p;
    assert v == 128 * (p * q + r) + v % 128;
    assert 128 * r + v % 128 < 128 * p;
    assert v == (128 * p) * q + (128 * r + v % 128);
    Quotient(v, 128 * p, q, 128 * r + v % 128);
  }

  lemma Quotient(v: nat, d: nat, q: nat, r: nat)
    requires d > 0 && v == d * q + r && r < d
    ensures v / d == q
  {
    var m := v / d;
    assert d * m <= v < d * (m + 1);
    assert m < q ==> d * (m + 1) <= d * q;
    assert m > q ==> d * (q + 1) <= d * m;
  }

  /** EncodeVarint32, with its five cases. */
  function EncodeVarint32(v: Word): Bytes {
    if v < 0x80 then [v]
    else if v < 0x4000 then [v % 128 + 128, v / 0x80]
    else if v < 0x20_0000 then [v % 128 + 128, v / 0x80 % 128 + 128, v / 0x4000]
    else if v < 0x1000_0000 then
      [v % 128 + 128, v / 0x80 % 128 + 128, v / 0x4000 % 128 + 128, v / 0x20_0000]
    else
      [v % 128 + 128, v / 0x80 % 128 + 128, v / 0x4000 % 128 + 128, v / 0x20_0000 % 128 + 128, v / 0x1000_0000]
  }

  lemma EncodeVarint32IsVarint(v: Word)
    ensures EncodeVarint32(v) == Varint(v)
  {
    hide Varint;
    VarintStep(v);
    VarintStep(v / 0x80);
    VarintStep(v / 0x80 / 0x80);
    VarintStep(v / 0x80 / 0x80 / 0x80);
    VarintStep(v / 0x80 / 0x80 / 0x80 / 0x80);
    DivideOn(v);
    var v1, v2, v3, v4 := v / 0x80, v / 0x4000, v / 0x20_0000, v / 0x1000_0000;
    if v < 0x80 {
    } else if v < 0x4000 {
      assert [v % 128 + 128] + [v1] == [v % 128 + 128, v1];
    } else if v < 0x20_0000 {
      assert [v % 128 + 128] + ([v1 % 128 + 128] + [v2]) == [v % 128 + 128, v1 % 128 + 128, v2];
    } else if v < 0x1000_0000 {
      assert [v % 128 + 128] + ([v1 % 128 + 128] + ([v2 % 128 + 128] + [v3])) ==
             [v % 128 + 128, v1 % 128 + 128, v2 % 128 + 128, v3];
    } else {
      assert [v % 128 + 128] + ([v1 % 128 + 128] + ([v2 % 128 + 128] + ([v3 % 128 + 128] + [v4]))) ==
             [v % 128 + 128, v1 % 128 + 128, v2 % 128 + 128, v3 % 128 + 128, v4];
    }
  }

  lemma DivideOn(v: nat)
    ensures v / 0x80 / 0x80 == v / 0x4000 && v / 0x4000 / 0x80 == v / 0x20_0000 && v / 0x20_0000 / 0x80 == v / 0x1000_0000
    ensures (v < 0x4000 <==> v / 0x80 < 0x80) && (v < 0x20_0000 <==> v / 0x4000 < 0x80)
    ensures (v < 0x1000_0000 <==> v / 0x20_0000 < 0x80) && (v < 0x8_0000_0000 <==> v / 0x1000_0000 < 0x80)
  {
  }

  lemma VarintStep(v: nat)
    ensures Varint(v) == if v < 128 then [v] else [v % 128 + 128] + Varint(v / 128)
  {
  }

  datatype Decoded = Decoded(value: nat, length: nat)

  /** What at most k bytes of a varint mean. */
  function DecodeVarint(b: Bytes, k: nat): (r: Option<Decoded>)
    ensures r.Some? ==> 0 < r.value.length <= |b| && r.value.length <= k
  {
    if b == [] || k == 0 then None
    else if b[0] < 128 then Some(Decoded(b[0] as int, 1))
    else
      match DecodeVarint(b[1..], k - 1)
      case None => None
      case Some(d) => Some(Decoded(b[0] as int - 128 + 128 * d.value, d.length + 1))
  }

  /** Number of bytes of a varint: 128^k > v. */
  function Power(k: nat): (r: nat)
    ensures r > 0
  {
    if k == 0 then 1 else 128 * Power(k - 1)
  }

  lemma {:induction false} VarintRoundTrip(v: nat, rest: Bytes, k: nat)
    requires k > 0 && v < Power(k)
    ensures DecodeVarint(Varint(v) + rest, k) == Some(Decoded(v, |Varint(v)|))
  {
    if v >= 128 {
      assert (Varint(v) + rest)[1..] == Varint(v / 128) + rest;
      VarintRoundTrip(v / 128, rest, k - 1);
    }
  }

  /** GetVarint32Ptr: the loop over the bytes, in 32-bit arithmetic. */
  method GetVarint32(input: Bytes) returns (r: Option<Decoded>)
    ensures r == match DecodeVarint(input, 5)
                 case None => None
                 case Some(d) => Some(Decoded(d.value % WORD, d.length))
  {
    hide DecodeVarint, Continued;
    Begin(input, 5);
    var result: nat, i, shift: nat := 0, 0, 1;
    while i < 5 && i < |input|
      invariant 0 <= i <= 5 && i <= |input| && shift == Power(i)
      invariant i < 5 ==> result < shift && Continued(input, 5, i, result)
      invariant i == 5 ==> DecodeVarint(input, 5).None?
    {
      var b := input[i] as int;
      if b < 128 {
        LastByte(input, 5, i, result);
        AddMod32(result, b * shift);
        return Some(Decoded((result + (b * shift) % WORD) % WORD, i + 1));
      }
      if i < 4 {
        NextByte(input, 5, i, result);
        NoWrap32(i, b - 128, result);
      } else {
        TooLong(input, 5, result);
      }
      result := (result + ((b - 128) * shift) % WORD) % WORD;
      i := i + 1;
      shift := shift * 128;
    }
    if i < 5 { RanOut(input, 5, i, result); }
    r := None;
  }

  const WORD64 := 0x1_0000_0000_0000_0000

  /** GetVarint64Ptr. */
  method GetVarint64(input: Bytes) returns (r: Option<Decoded>)
    ensures r == match DecodeVarint(input, 10)
                 case None => None
                 case Some(d) => Some(Decoded(d.value % WORD64, d.length))
  {
    hide DecodeVarint, Continued;
    Begin(input, 10);
    var result: nat, i, shift: nat := 0, 0, 1;
    while i < 10 && i < |input|
      invariant 0 <= i <= 10 && i <= |input| && shift == Power(i)
      invariant i < 10 ==> result < shift && Continued(input, 10, i, result)
      invariant i == 10 ==> DecodeVarint(input, 10).None?
    {
      var b := input[i] as int;
      if b < 128 {
        LastByte(input, 10, i, result);
        AddMod64(result, b * shift);
        return Some(Decoded((result + (b * shift) % WORD64) % WORD64, i + 1));
      }
      if i < 9 {
        NextByte(input, 10, i, result);
        NoWrap64(i, b - 128, result);
      } else {
        TooLong(input, 10, result);
      }
      result := (result + ((b - 128) * shift) % WORD64) % WORD64;
      i := i + 1;
      shift := shift * 128;
    }
    if i < 10 { RanOut(input, 10, i, result); }
    r := None;
  }

  /** After i of at most k bytes the result holds their part of the value. */
  ghost predicate Continued(input: Bytes, k: nat, i: nat, result: nat)
    requires i <= |input| && i <= k
  {
    DecodeVarint(input, k) ==
      match DecodeVarint(input[i..], k - i)
      case None => None
      case Some(d) => Some(Decoded(result + Power(i) * d.value, i + d.length))
  }

  lemma Begin(input: Bytes, k: nat)
    ensures Continued(input, k, 0, 0)
    ensures input == [] ==> DecodeVarint(input, k).None?
  {
    assert input[0..] == input;
  }

  lemma RanOut(input: Bytes, k: nat, i: nat, result: nat)
    requires i == |input| && i < k && Continued(input, k, i, result)
    ensures DecodeVarint(input, k).None?
  {
  }

  /** The last byte ends the varint. */
  lemma LastByte(input: Bytes, k: nat, i: nat, result: nat)
    requires i < |input| && i < k && Continued(input, k, i, result) && input[i] < 128
    ensures DecodeVarint(input, k) == Some(Decoded(result + input[i] as int * Power(i), i + 1))
  {
    assert DecodeVarint(input[i..], k - i) == Some(Decoded(input[i] as int, 1));
    assert Power(i) * input[i] as int == input[i] as int * Power(i);
  }

  /** Any other byte adds seven bits, and the varint goes on. */
  lemma NextByte(input: Bytes, k: nat, i: nat, result: nat)
    requires i < |input| && i + 1 < k && Continued(input, k, i, result) && input[i] >= 128
    ensures Continued(input, k, i + 1, result + (input[i] as int - 128) * Power(i))
  {
    var x := input[i] as int - 128;
    assert input[i..][1..] == input[i+1..];
    match DecodeVarint(input[i+1..], k - (i + 1))
    case None =>
    case Some(d) =>
      assert DecodeVarint(input[i..], k - i) == Some(Decoded(x + 128 * d.value, d.length + 1));
      Distribute(Power(i), x, d.value);
  }

  lemma TooLong(input: Bytes, k: nat, result: nat)
    requires 0 < k <= |input| && Continued(input, k, k - 1, result) && input[k-1] >= 128
    ensures DecodeVarint(input, k).None?
  {
    assert DecodeVarint(input[k-1..], 1) == None;
  }

  lemma AddMod32(x: nat, y: nat)
    ensures (x + y % WORD) % WORD == (x + y) % WORD
  {
    assert x + y == x + y % WORD + WORD * (y / WORD);
  }

  lemma AddMod64(x: nat, y: nat)
    ensures (x + y % WORD64) % WORD64 == (x + y) % WORD64
  {
    assert x + y == x + y % WORD64 + WORD64 * (y / WORD64);
  }

  /** Before the last byte nothing wraps around. */
  lemma NoWrap32(i: nat, x: nat, result: nat)
    requires i < 4 && x < 128 && result < Power(i)
    ensures (result + (x * Power(i)) % WORD) % WORD == result + x * Power(i) < Power(i + 1)
  {
    BelowPower(Power(i), x, result);
    PowerGrows(i + 1, 4);
    assert Power(4) == 0x1000_0000;
  }

  lemma NoWrap64(i: nat, x: nat, result: nat)
    requires i < 9 && x < 128 && result < Power(i)
    ensures (result + (x * Power(i)) % WORD64) % WORD64 == result + x * Power(i) < Power(i + 1)
  {
    BelowPower(Power(i), x, result);
    PowerGrows(i + 1, 9);
    NinthPower();
  }

  lemma BelowPower(p: nat, x: nat, result: nat)
    requires x < 128 && result < p
    ensures 0 <= x * p && result + x * p < 128 * p
  {
    assert x * p <= 127 * p;
  }

  lemma {:induction false} PowerGrows(i: nat, j: nat)
    requires i <= j
    ensures Power(i) <= Power(j)
  {
    if i < j { PowerGrows(i, j - 1); }
  }

  lemma NinthPower()
    ensures Power(9) < WORD64 < Power(10)
  {
    assert Power(4) == 0x1000_0000 && Power(5) == 0x8_0000_0000 && Power(8) == 0x100_0000_0000_0000;
  }

  lemma Distribute(p: nat, x: int, v: int)
    ensures p * (x + 128 * v) == x * p + (128 * p) * v
  {
  }

  // ---------------------------------------------------------------- length-prefixed slices

  function LengthPrefixed(s: Bytes): Bytes { Varint(|s|) + s }

  /** The string in front of any bytes, and what is behind it; None when they are too short for one. */
  ghost function SliceAt(b: Bytes): (r: Option<(Bytes, Bytes)>)
    ensures r.Some? ==> |r.value.1| < |b|
  {
    match DecodeVarint(b, 5)
    case None => None
    case Some(d) =>
      var size := d.value % 0x1_0000_0000;
      if |b| - d.length < size then None else Some((b[d.length..d.length+size], b[d.length+size..]))
  }

  lemma SliceInFront(s: Bytes, tail: Bytes)
    requires |s| < WORD
    ensures SliceAt(LengthPrefixed(s) + tail) == Some((s, tail))
  {
    var b := LengthPrefixed(s) + tail;
    assert b == Varint(|s|) + (s + tail);
    assert Power(5) > WORD;
    VarintRoundTrip(|s|, s + tail, 5);
    hide Varint, DecodeVarint;
    assert b[|Varint(|s|)|..] == s + tail;
    assert b[|Varint(|s|)|..|Varint(|s|)|+|s|] == s && b[|Varint(|s|)|+|s|..] == tail;
  }

  /** GetLengthPrefixedSlice; None when the input is too short. */
  method GetLengthPrefixedSlice(input: Bytes) returns (r: Option<Bytes>, rest: Bytes)
    ensures |rest| <= |input|
    ensures SliceAt(input) == if r.Some? then Some((r.value, rest)) else None
    ensures forall s, more :: |s| < WORD && input == LengthPrefixed(s) + more ==> r == Some(s) && rest == more
  {
    hide DecodeVarint;
    var length := GetVarint32(input);
    rest := input;
    r := None;
    if length.Some? {
      var at, n := length.value.length, length.value.value;
      rest := input[at..];
      assert |rest| >= n ==> rest[..n] == input[at..at+n] && rest[n..] == input[at+n..];
      if |rest| >= length.value.value {
        r := Some(rest[..length.value.value]);
        rest := rest[length.value.value..];
      }
    }
    forall s, more | |s| < WORD && input == LengthPrefixed(s) + more ensures r == Some(s) && rest == more {
      SliceInFront(s, more);
    }
  }
}
