/**
  Bytes, Go's fixed-width integers and base-128 varints.

  Go's `uint64`, `int64` and `int32` are ranges of `int`; every wrap-around or truncation
  of the source is written out with one of the conversions below.
 */
module Wire {

  import opened Basics

  const TWO_31: int := 0x8000_0000
  const TWO_32: int := 0x1_0000_0000
  const TWO_63: int := 0x8000_0000_0000_0000

  /** Go's conversion int64(u). */
  function ToInt64(u: uint64): int {
    if u < TWO_63 then u else u - TWO_64
  }

  /** Go's conversion int32(u): the low 32 bits, as a signed number. */
  function ToInt32(u: uint64): int {
    var w := u % TWO_32;
    if w < TWO_31 then w else w - TWO_32
  }

  /** Go's int64 sum of two int64 operands, which wraps around at most once. */
  function AddInt64(a: int, b: int): int {
    if a + b >= TWO_63 then a + b - TWO_64
    else if a + b < -TWO_63 then a + b + TWO_64
    else a + b
  }

  function Pow2(n: nat): (p: nat)
    ensures p > 0
  {
    if n == 0 then 1 else 2 * Pow2(n - 1)
  }

  /** Bitwise or, bit by bit. */
  function BitOr(x: nat, y: nat): nat
    decreases x + y
  {
    if x == 0 then y
    else if y == 0 then x
    else (if x % 2 == 1 || y % 2 == 1 then 1 else 0) + 2 * BitOr(x / 2, y / 2)
  }

  /** Go's x << k on a uint64. */
  function ShiftLeft(x: uint64, k: nat): uint64 {
    (x * Pow2(k)) % TWO_64
  }

  lemma {:induction false} Pow2Add(m: nat, n: nat)
    ensures Pow2(m + n) == Pow2(m) * Pow2(n)
  {
    if m > 0 {
      Pow2Add(m - 1, n);
      assert Pow2(m + n) == 2 * (Pow2(m - 1) * Pow2(n));
    }
  }

  /** Or-ing bits in above the highest bit so far is adding them. */
  lemma {:induction false} OrAboveIsSum(x: nat, y: nat, k: nat)
    requires x < Pow2(k)
    ensures BitOr(x, y * Pow2(k)) == x + y * Pow2(k)
  {
    if k > 0 && x > 0 && y > 0 {
      var half := y * Pow2(k - 1);
      assert y * Pow2(k) == 2 * half;
      assert half > 0;
      OrAboveIsSum(x / 2, y, k - 1);
      assert (2 * half) % 2 == 0 && (2 * half) / 2 == half;
    }
  }

  // ----- base-128 varints

  /** The value of a base-128 digit string, least significant digit first. */
  function Base128(s: bytes): nat {
    if s == [] then 0 else s[0] as int % 128 + 128 * Base128(s[1..])
  }

  /** The continuation bit is set on all bytes but the last. */
  predicate Terminated(s: bytes) {
    && s != []
    && s[|s| - 1] < 128
    && forall k :: 0 <= k < |s| - 1 ==> s[k] >= 128
  }

  predicate IsVarint(s: bytes) {
    |s| <= 10 && Terminated(s)
  }

  datatype Error =
    | IntOverflow
    | UnexpectedEOF
    | InvalidLength
    | UnexpectedEndOfGroup
    | IllegalWireType
    | EndGroupForNonGroup
    | IllegalTag
    | WrongWireType
    | LeafRejected

  /** What reading a varint gives: its value and the number of bytes it took, or an error and what was read until then. */
  datatype VarintResult = Varint(value: uint64, len: nat) | NoVarint(error: Error, partial: uint64)

  /** Reads a varint at the start of s, of which k bytes have been looked at. */
  function ReadVarint(s: bytes, k: nat := 0): (r: VarintResult)
    requires k <= 10 && k <= |s|
    ensures r.Varint? ==> k < r.len <= |s| && r.len <= 10
    decreases 10 - k
  {
    if k == 10 then NoVarint(IntOverflow, Base128(s[..10]) % TWO_64)
    else if k == |s| then NoVarint(UnexpectedEOF, Base128(s) % TWO_64)
    else if s[k] < 128 then Varint(Base128(s[..k + 1]) % TWO_64, k + 1)
    else ReadVarint(s, k + 1)
  }

  /** The bytes the encoder's loop writes for v. */
  function EncodeVarint(v: nat): (s: bytes)
    ensures |s| >= 1
  {
    if v < 128 then [v as byte] else [(v % 128 + 128) as byte] + EncodeVarint(v / 128)
  }

  /** Number of bits of x; Go's bits.Len64. */
  function BitLen(x: nat): nat {
    if x == 0 then 0 else 1 + BitLen(x / 2)
  }

  /** The closed-form varint length. */
  function Sov(x: nat): nat {
    (BitLen(BitOr(x, 1)) + 6) / 7
  }

  lemma {:induction false} Base128Append(s: bytes, b: byte)
    ensures Base128(s + [b]) == Base128(s) + b as int % 128 * Pow2(7 * |s|)
  {
    if s == [] {
      assert s + [b] == [b];
    } else {
      Base128Append(s[1..], b);
      assert (s + [b])[1..] == s[1..] + [b];
      Pow2Add(7, 7 * (|s| - 1));
      assert Pow2(7) == 128;
      var p := Pow2(7 * |s[1..]|);
      assert 128 * (b as int % 128 * p) == b as int % 128 * (128 * p);
    }
  }

  lemma {:induction false} Base128Bound(s: bytes)
    ensures Base128(s) < Pow2(7 * |s|)
  {
    if s != [] {
      Base128Bound(s[1..]);
      Pow2Add(7, 7 * (|s| - 1));
      assert Pow2(7) == 128;
    }
  }

  lemma Pow2Values()
    ensures Pow2(7) == 128 && Pow2(63) == TWO_63 && Pow2(64) == TWO_64
  {
    assert Pow2(8) == 256;
    Pow2Add(8, 8);
    Pow2Add(16, 16);
    Pow2Add(32, 32);
  }

  /** One turn of the decoding loop: or-ing in the k-th digit, with the tenth one cut off at 64 bits. */
  lemma VarintDigit(t: bytes, k: nat)
    requires k < 10 && k < |t|
    ensures Base128(t[..k]) < TWO_64
    ensures BitOr(Base128(t[..k]), ShiftLeft(t[k] as int % 128, 7 * k)) == Base128(t[..k + 1]) % TWO_64
    ensures k < 9 ==> Base128(t[..k + 1]) < TWO_64
  {
    var x, d, p := Base128(t[..k]), t[k] as int % 128, Pow2(7 * k);
    assert t[..k + 1] == t[..k] + [t[k]];
    Base128Append(t[..k], t[k]);
    Base128Bound(t[..k]);
    Pow2Values();
    Pow2Add(7 * k, 63 - 7 * k);
    VarintDigitSum(x, d, k);
  }

  /** What a sum wraps around to. */
  lemma WrapsTo(x: nat, turns: nat)
    requires x < TWO_64
    ensures (x + turns * TWO_64) % TWO_64 == x
  {
  }

  lemma VarintDigitSum(x: nat, d: nat, k: nat)
    requires k < 10 && x < Pow2(7 * k) && d < 128
    ensures x < TWO_64 && BitOr(x, ShiftLeft(d, 7 * k)) == (x + d * Pow2(7 * k)) % TWO_64
    ensures k < 9 ==> x + d * Pow2(7 * k) < TWO_64
  {
    if k == 9 {
      TenthDigitSum(x, d);
    } else {
      DigitRoom(k);
      EarlyDigitSum(x, d, 7 * k, Pow2(7 * k));
    }
  }

  lemma DigitRoom(k: nat)
    requires k < 9
    ensures 128 * Pow2(7 * k) <= TWO_63
  {
    Pow2Values();
    Pow2Add(7, 7 * k);
    Pow2Grows(7 * (k + 1), 63);
  }

  lemma {:induction false} Pow2Grows(m: nat, n: nat)
    requires m <= n
    ensures Pow2(m) <= Pow2(n)
    decreases n
  {
    if m < n {
      Pow2Grows(m, n - 1);
    }
  }

  lemma TenthDigitSum(x: nat, d: nat)
    requires x < Pow2(63) && d < 128
    ensures x < TWO_64 && BitOr(x, ShiftLeft(d, 63)) == (x + d * Pow2(63)) % TWO_64
  {
    Pow2Values();
    var kept := d % 2 * TWO_63;
    assert d * TWO_63 == kept + d / 2 * TWO_64;
    WrapsTo(kept, d / 2);
    WrapsTo(x + kept, d / 2);
    OrAboveIsSum(x, d % 2, 63);
  }

  lemma EarlyDigitSum(x: nat, d: nat, shift: nat, p: nat)
    requires p == Pow2(shift) && 128 * p <= TWO_63 && x < p && d < 128
    ensures x + d * p < TWO_63
    ensures BitOr(x, ShiftLeft(d, shift)) == x + d * p == (x + d * p) % TWO_64
  {
    var y := d * p;
    MulBound(d, p);
    assert y % TWO_64 == y && (x + y) % TWO_64 == x + y;
    assert d * Pow2(shift) == y && ShiftLeft(d, shift) == y % TWO_64;
    OrAboveIsSum(x, d, shift);
  }

  lemma {:induction false} MulBound(d: nat, p: nat)
    requires d < 128
    ensures 0 <= d * p <= 127 * p
  {
  }

  // The reader accepts exactly the varints.

  lemma {:induction false} ReadVarintSound(s: bytes, k: nat)
    requires k <= 10 && k <= |s|
    requires forall j :: 0 <= j < k ==> s[j] >= 128
    requires ReadVarint(s, k).Varint?
    ensures var v := ReadVarint(s, k);
            IsVarint(s[..v.len]) && v.value == Base128(s[..v.len]) % TWO_64
    decreases 10 - k
  {
    if s[k] >= 128 {
      ReadVarintSound(s, k + 1);
    }
  }

  /** Too few bytes, all with the continuation bit: the reader wants more, and has read them all. */
  lemma {:induction false} BreaksOffFrom(s: bytes, k: nat)
    requires k <= |s| < 10 && forall j :: 0 <= j < |s| ==> s[j] >= 128
    ensures ReadVarint(s, k) == NoVarint(UnexpectedEOF, Base128(s) % TWO_64)
    decreases |s| - k
  {
    if k < |s| {
      BreaksOffFrom(s, k + 1);
    }
  }

  lemma VarintBreaksOff(s: bytes)
    requires |s| < 10 && forall j :: 0 <= j < |s| ==> s[j] >= 128
    ensures Base128(s) < TWO_64 && ReadVarint(s) == NoVarint(UnexpectedEOF, Base128(s))
  {
    BreaksOffFrom(s, 0);
    Base128Bound(s);
    Pow2Values();
    Pow2Grows(7 * |s|, 63);
    WrapsTo(Base128(s), 0);
  }

  /** Ten bytes with the continuation bit are too many. */
  lemma {:induction false} OverflowsFrom(s: bytes, k: nat)
    requires k <= 10 <= |s| && forall j :: 0 <= j < 10 ==> s[j] >= 128
    ensures ReadVarint(s, k) == NoVarint(IntOverflow, Base128(s[..10]) % TWO_64)
    decreases 10 - k
  {
    if k < 10 {
      OverflowsFrom(s, k + 1);
    }
  }

  lemma VarintOverflows(s: bytes)
    requires |s| >= 10 && forall j :: 0 <= j < 10 ==> s[j] >= 128
    ensures ReadVarint(s) == NoVarint(IntOverflow, Base128(s[..10]) % TWO_64)
  {
    OverflowsFrom(s, 0);
  }

  lemma {:induction false} ReadVarintCompleteFrom(s: bytes, t: bytes, k: nat)
    requires IsVarint(s) && k < |s|
    ensures ReadVarint(s + t, k) == Varint(Base128(s) % TWO_64, |s|)
    decreases |s| - k
  {
    if k == |s| - 1 {
      assert (s + t)[..k + 1] == s;
    } else {
      ReadVarintCompleteFrom(s, t, k + 1);
    }
  }

  lemma ReadVarintComplete(s: bytes, t: bytes)
    requires IsVarint(s)
    ensures ReadVarint(s + t) == Varint(Base128(s) % TWO_64, |s|)
  {
    ReadVarintCompleteFrom(s, t, 0);
  }

  lemma {:induction false} ReadVarintExtendFrom(s: bytes, t: bytes, k: nat)
    requires k <= 10 && k <= |s| && ReadVarint(s, k).Varint?
    ensures ReadVarint(s + t, k) == ReadVarint(s, k)
    decreases 10 - k
  {
    if s[k] < 128 {
      assert (s + t)[..k + 1] == s[..k + 1];
    } else {
      ReadVarintExtendFrom(s, t, k + 1);
    }
  }

  /** An accepted varint is read the same whatever follows it. */
  lemma ReadVarintExtend(s: bytes, t: bytes)
    requires ReadVarint(s).Varint?
    ensures ReadVarint(s + t) == ReadVarint(s)
  {
    ReadVarintExtendFrom(s, t, 0);
  }

  // The encoder's output, its length and its value.

  lemma {:induction false} EncodeVarintFits(v: nat, n: nat)
    requires n >= 1
    ensures |EncodeVarint(v)| <= n <==> v < Pow2(7 * n)
    decreases n
  {
    assert Pow2(7) == 128;
    if v >= 128 && n > 1 {
      EncodeVarintFits(v / 128, n - 1);
      Pow2Add(7, 7 * (n - 1));
    } else if v < 128 {
      Pow2Add(7, 7 * (n - 1));
    }
  }

  lemma FirstDigit(b: byte, s: bytes)
    requires Terminated(s) && b >= 128
    ensures Terminated([b] + s) && Base128([b] + s) == b as int % 128 + 128 * Base128(s)
  {
    assert ([b] + s)[1..] == s;
  }

  lemma {:induction false} EncodeVarintShape(v: nat)
    ensures Terminated(EncodeVarint(v)) && Base128(EncodeVarint(v)) == v
  {
    if v >= 128 {
      EncodeVarintShape(v / 128);
      FirstDigit((v % 128 + 128) as byte, EncodeVarint(v / 128));
    } else {
      assert EncodeVarint(v)[1..] == [];
    }
  }

  lemma EncodeVarintIsVarint(v: uint64)
    ensures IsVarint(EncodeVarint(v))
  {
    EncodeVarintShape(v);
    Pow2Values();
    Pow2Add(64, 6);
    EncodeVarintFits(v, 10);
  }

  /** Decoding undoes encoding, whatever bytes follow. */
  lemma VarintRoundTrip(v: uint64, t: bytes)
    ensures ReadVarint(EncodeVarint(v) + t) == Varint(v, |EncodeVarint(v)|)
  {
    var s := EncodeVarint(v);
    assert IsVarint(s) by { EncodeVarintIsVarint(v); }
    assert Base128(s) == v by { EncodeVarintShape(v); }
    assert v % TWO_64 == v;
    ReadVarintComplete(s, t);
  }

  /** No accepted byte string for a value is shorter than the encoder's. */
  lemma VarintMinimal(s: bytes)
    requires ReadVarint(s).Varint?
    ensures |EncodeVarint(ReadVarint(s).value)| <= ReadVarint(s).len
  {
    var r := ReadVarint(s);
    ReadVarintSound(s, 0);
    Base128Bound(s[..r.len]);
    EncodeVarintFits(r.value, r.len);
  }

  lemma BitLenTwice(x: nat)
    requires x >= 4
    ensures BitLen(x) == 2 + BitLen(x / 4)
  {
  }

  /** Dropping the low base-128 digit drops seven bits. */
  lemma BitLenDigit(x: nat)
    requires x >= 128
    ensures BitLen(x) == 7 + BitLen(x / 128)
  {
    var a, b, c := x / 4, x / 16, x / 64;
    assert a / 4 == b && b / 4 == c && c / 2 == x / 128;
    BitLenTwice(x);
    BitLenTwice(a);
    BitLenTwice(b);
    assert BitLen(c) == 1 + BitLen(c / 2);
  }

  /** The closed form agrees with the loop. */
  lemma {:induction false} SovIsEncodedLength(v: nat)
    ensures Sov(v) == |EncodeVarint(v)|
  {
    assert Pow2(7) == 128 && Pow2(1) == 2;
    var w := BitOr(v, 1);
    assert w / 2 == v / 2 && w >= 1 by {
      if v > 0 { assert BitOr(v / 2, 0) == v / 2; }
    }
    if v < 128 {
      assert w < 128;
      BitLenSmall(w);
    } else {
      SovIsEncodedLength(v / 128);
      var w' := BitOr(v / 128, 1);
      assert w' / 2 == v / 128 / 2 by { assert BitOr(v / 128 / 2, 0) == v / 128 / 2; }
      BitLenDigit(v);
      assert BitLen(w) == BitLen(v);
      assert BitLen(w') == BitLen(v / 128);
    }
  }

  lemma BitLenSmall(w: nat)
    requires 1 <= w < 128
    ensures 1 <= BitLen(w) <= 7
  {
    Pow2Values();
    BitLenUpTo(w, 7);
  }

  lemma {:induction false} BitLenUpTo(w: nat, k: nat)
    requires w < Pow2(k)
    ensures BitLen(w) <= k
  {
    if w > 0 {
      BitLenUpTo(w / 2, k - 1);
    }
  }
}
