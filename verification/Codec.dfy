/**
  The loops of the generated codecs, in place: a cursor over the input, a depth counter for
  unknown fields, and a buffer filled from the back.

  Indices are Go ints: every sum that can leave the int64 range is taken with AddInt64.
 */
module Codec {
  import opened Basics
  import opened Wire
  import opened Skip
  import opened Fields

  // ----- reading

  /** A payload is a slice of a Go byte string, so its length is an int. */
  predicate Bounded(r: ItemResult) {
    match r
    case ItemRead(item, _) => item.Payload? ==> |item.bytes| < TWO_63
    case NoItem(_, partial) => !partial.Payload?
  }

  /** Reads the varint at index iNdEx. */
  method DecodeVarint(dAtA: bytes, iNdEx: nat) returns (r: VarintResult)
    requires iNdEx <= |dAtA|
    ensures r == ReadVarint(dAtA[iNdEx..])
  {
    var wire: uint64, shift, i := 0, 0, iNdEx;
    ghost var t, k := dAtA[iNdEx..], 0;
    while true
      invariant k <= 10 && shift == 7 * k && i == iNdEx + k <= |dAtA|
      invariant ReadVarint(t) == ReadVarint(t, k)
      invariant wire == Base128(t[..k]) % TWO_64 && (k < 10 ==> wire == Base128(t[..k]))
      decreases 10 - k
    {
      if shift >= 64 {
        return NoVarint(IntOverflow, wire);
      }
      if i >= |dAtA| {
        assert t[..k] == t;
        return NoVarint(UnexpectedEOF, wire);
      }
      var b := dAtA[i];
      i := i + 1;
      wire := OrDigit(t, k, wire, b, shift);
      if b < 0x80 {
        return Varint(wire, i - iNdEx);
      }
      shift, k := shift + 7, k + 1;
    }
  }

  /** Ors in the low seven bits of b at the position `shift`; b is the k-th byte of t. */
  method OrDigit(ghost t: bytes, ghost k: nat, wire: uint64, b: byte, shift: nat) returns (r: uint64)
    requires k < 10 && k < |t| && b == t[k] && shift == 7 * k && wire == Base128(t[..k])
    ensures r == Base128(t[..k + 1]) % TWO_64
    ensures k < 9 ==> r == Base128(t[..k + 1])
  {
    VarintDigit(t, k);
    if k < 9 {
      WrapsTo(Base128(t[..k + 1]), 0);
    }
    r := BitOr(wire, ShiftLeft(b as int % 128, shift));
  }

  /** Skips the varint at index iNdEx; the same loop without the value. */
  method SkipVarint(dAtA: bytes, iNdEx: nat) returns (len: nat, err: Option<Error>)
    requires iNdEx <= |dAtA|
    ensures match ReadVarint(dAtA[iNdEx..])
            case Varint(_, n) => err == None && len == n
            case NoVarint(e, _) => err == Some(e)
  {
    var shift, i := 0, iNdEx;
    ghost var t, k := dAtA[iNdEx..], 0;
    while true
      invariant k <= 10 && shift == 7 * k && i == iNdEx + k <= |dAtA|
      invariant ReadVarint(t) == ReadVarint(t, k)
      decreases 10 - k
    {
      if shift >= 64 {
        return 0, Some(IntOverflow);
      }
      if i >= |dAtA| {
        return 0, Some(UnexpectedEOF);
      }
      i := i + 1;
      if dAtA[i - 1] < 0x80 {
        return i - iNdEx, None;
      }
      shift, k := shift + 7, k + 1;
    }
  }

  ghost predicate TokenOutcome(token: TokenResult, i: nat, depth: nat, next: int, newDepth: nat, err: Option<Error>) {
    match token
    case NoToken(e) => err == Some(e)
    case TokenRead(n, delta) =>
      if depth + delta < 0 then err == Some(UnexpectedEndOfGroup)
      else if i + n >= TWO_63 then err == Some(InvalidLength)
      else err == None && next == i + n && newDepth == depth + delta
  }

  /** How the skipper's loop goes on once a token is read. */
  ghost predicate SkipContinues(read: Reader, s: bytes, i: nat, depth: nat, next: int, newDepth: nat, err: Option<Error>) {
    && i < |s|
    && (err.None? ==> i < next)
    && SkipFrom(read, s[i..], i, depth)
       == if err.Some? then NotSkipped(err.value)
          else if newDepth == 0 then Skipped(next)
          else if next > |s| then NotSkipped(UnexpectedEOF)
          else SkipFrom(read, s[next..], next, newDepth)
  }

  lemma {:induction false} TokenContinues(read: Reader, s: bytes, i: nat, depth: nat, next: int, newDepth: nat, err: Option<Error>)
    requires i < |s| && TokenOutcome(read(s[i..]), i, depth, next, newDepth, err)
    ensures SkipContinues(read, s, i, depth, next, newDepth, err)
  {
    if err.None? && next <= |s| {
      assert s[i..][next - i..] == s[next..];
    }
  }

  /** Reads the token at index iNdEx at a given depth; what the body of the skipper's loop does. */
  method SkipToken(dAtA: bytes, iNdEx: nat, depth: nat) returns (next: int, newDepth: nat, err: Option<Error>)
    requires iNdEx < |dAtA| < TWO_63
    ensures SkipContinues(ReadToken, dAtA, iNdEx, depth, next, newDepth, err)
  {
    next, newDepth, err := PassToken(dAtA, iNdEx, depth);
    TokenContinues(ReadToken, dAtA, iNdEx, depth, next, newDepth, err);
  }

  method PassToken(dAtA: bytes, iNdEx: nat, depth: nat) returns (next: int, newDepth: nat, err: Option<Error>)
    requires iNdEx < |dAtA| < TWO_63
    ensures TokenOutcome(ReadToken(dAtA[iNdEx..]), iNdEx, depth, next, newDepth, err)
  {
    next, newDepth, err := 0, depth, None;
    var wire := DecodeVarint(dAtA, iNdEx);
    if wire.NoVarint? {
      return 0, depth, Some(wire.error);
    }
    next := iNdEx + wire.len;
    assert dAtA[iNdEx..][wire.len..] == dAtA[next..];
    match wire.value % 8 {
      case 0 =>
        var len, e := SkipVarint(dAtA, next);
        if e.Some? {
          return 0, depth, e;
        }
        next := next + len;
      case 1 =>
        next := AddInt64(next, 8);
      case 2 =>
        var length := DecodeVarint(dAtA, next);
        if length.NoVarint? {
          return 0, depth, Some(length.error);
        }
        next := next + length.len;
        if ToInt64(length.value) < 0 {
          return 0, depth, Some(InvalidLength);
        }
        next := AddInt64(next, ToInt64(length.value));
      case 3 =>
        newDepth := depth + 1;
      case 4 =>
        if depth == 0 {
          return 0, depth, Some(UnexpectedEndOfGroup);
        }
        newDepth := depth - 1;
      case 5 =>
        next := AddInt64(next, 4);
      case _ =>
        return 0, depth, Some(IllegalWireType);
    }
    if next < 0 {
      return 0, depth, Some(InvalidLength);
    }
  }

  /** Skips the field at the start of dAtA, with a depth counter for groups. */
  method SkipUnknown(dAtA: bytes) returns (r: SkipResult)
    requires |dAtA| < TWO_63
    ensures r == SkipField(dAtA)
  {
    var iNdEx, depth := 0, 0;
    while iNdEx < |dAtA|
      invariant 0 <= iNdEx && 0 <= depth
      invariant SkipField(dAtA) == if iNdEx <= |dAtA| then SkipFrom(ReadToken, dAtA[iNdEx..], iNdEx, depth) else NotSkipped(UnexpectedEOF)
      decreases |dAtA| - iNdEx
    {
      var next, newDepth, err := SkipToken(dAtA, iNdEx, depth);
      if err.Some? {
        return NotSkipped(err.value);
      }
      iNdEx, depth := next, newDepth;
      if depth == 0 {
        return Skipped(iNdEx);
      }
    }
    return NotSkipped(UnexpectedEOF);
  }

  /**
    One turn of an Unmarshal loop up to the body of its switch: the tag and its checks, then
    the value or length and its checks for a listed field, or the skipper for an unlisted one.
   */
  method NextField(schema: Schema, dAtA: bytes, iNdEx: nat) returns (r: ItemResult)
    requires iNdEx < |dAtA| < TWO_63
    ensures r == ReadItem(schema, dAtA[iNdEx..], iNdEx)
    ensures r.ItemRead? ==> r.len <= |dAtA| - iNdEx
    ensures Bounded(r)
  {
    var l := |dAtA|;
    ghost var t := dAtA[iNdEx..];
    var wire := DecodeVarint(dAtA, iNdEx);
    if wire.NoVarint? {
      return NoItem(wire.error, Unknown);
    }
    var i := iNdEx + wire.len;
    assert t[wire.len..] == dAtA[i..];
    var fieldNum, wireType := ToInt32(wire.value / 8), wire.value % 8;
    if wireType == 4 {
      return NoItem(EndGroupForNonGroup, Unknown);
    }
    if fieldNum <= 0 {
      return NoItem(IllegalTag, Unknown);
    }
    if fieldNum !in schema {
      r := NextUnknown(dAtA, iNdEx);
    } else if schema[fieldNum].ScalarKind? {
      if wireType != 0 {
        return NoItem(WrongWireType, Unknown);
      }
      var v := DecodeVarint(dAtA, i);
      if v.NoVarint? {
        return NoItem(v.error, Scalar(fieldNum, v.partial));
      }
      return ItemRead(Scalar(fieldNum, v.value), i + v.len - iNdEx);
    } else {
      if wireType != 2 {
        return NoItem(WrongWireType, Unknown);
      }
      r := NextPayload(fieldNum, dAtA, iNdEx, wire.len);
    }
  }

  /** The same, in terms of the decoding of the message as a whole. */
  method TakeField<M>(ghost d: Message<M>, ghost m: M, schema: Schema, dAtA: bytes, iNdEx: nat) returns (r: ItemResult)
    requires iNdEx < |dAtA| < TWO_63 && d.read == ItemReader(schema)
    ensures Continues(d, m, dAtA, iNdEx, r)
    ensures Bounded(r)
  {
    r := NextField(schema, dAtA, iNdEx);
    DecodeTurn(d, m, dAtA, iNdEx, r);
  }

  method NextPayload(fieldNum: int, dAtA: bytes, iNdEx: nat, n: nat) returns (r: ItemResult)
    requires iNdEx + n <= |dAtA| < TWO_63
    ensures r == ReadPayload(fieldNum, dAtA[iNdEx + n..], iNdEx, n)
    ensures r.ItemRead? ==> r.len <= |dAtA| - iNdEx
  {
    var length := DecodeVarint(dAtA, iNdEx + n);
    if length.NoVarint? {
      return NoItem(length.error, Unknown);
    }
    var start := iNdEx + n + length.len;
    var intLength := ToInt64(length.value);
    if intLength < 0 {
      return NoItem(InvalidLength, Unknown);
    }
    var postIndex := AddInt64(start, intLength);
    if postIndex < 0 {
      return NoItem(InvalidLength, Unknown);
    }
    if postIndex > |dAtA| {
      return NoItem(UnexpectedEOF, Unknown);
    }
    assert dAtA[iNdEx + n..][length.len..length.len + intLength] == dAtA[start..postIndex];
    return ItemRead(Payload(fieldNum, dAtA[start..postIndex]), postIndex - iNdEx);
  }

  method NextUnknown(dAtA: bytes, iNdEx: nat) returns (r: ItemResult)
    requires iNdEx < |dAtA| < TWO_63
    ensures r == ReadUnknown(dAtA[iNdEx..], iNdEx)
    ensures r.ItemRead? ==> r.len <= |dAtA| - iNdEx
  {
    var skippy := SkipUnknown(dAtA[iNdEx..]);
    if skippy.NotSkipped? {
      return NoItem(skippy.error, Unknown);
    }
    if AddInt64(iNdEx, skippy.next) < 0 {
      return NoItem(InvalidLength, Unknown);
    }
    if AddInt64(iNdEx, skippy.next) > |dAtA| {
      return NoItem(UnexpectedEOF, Unknown);
    }
    return ItemRead(Unknown, skippy.next);
  }

  // ----- writing, back to front

  /** s with b written over it at index at. */
  function Splice(s: bytes, at: nat, b: bytes): bytes
    requires at + |b| <= |s|
  {
    s[..at] + b + s[at + |b|..]
  }

  /** Going from `before` to `now`, b was written so that it ends right before index `end`, and nothing else changed. */
  ghost predicate Filled(before: bytes, now: bytes, end: nat, b: bytes) {
    |b| <= end <= |before| && now == Splice(before, end - |b|, b)
  }

  /** Writing c right before b amounts to writing c + b. */
  lemma FilledBefore(before: bytes, middle: bytes, now: bytes, end: nat, b: bytes, c: bytes)
    requires Filled(before, middle, end, b) && Filled(middle, now, end - |b|, c)
    ensures Filled(before, now, end, c + b)
  {
  }

  /** Writes the varint of v so that it ends right before offset; the index it starts at. */
  method EncodeVarintAt(dAtA: array<byte>, offset: nat, v: uint64) returns (base: nat)
    requires Sov(v) <= offset <= dAtA.Length
    modifies dAtA
    ensures base + |EncodeVarint(v)| == offset
    ensures Filled(old(dAtA[..]), dAtA[..], offset, EncodeVarint(v))
  {
    ghost var before := dAtA[..];
    SovIsEncodedLength(v);
    base := offset - Sov(v);
    var i, rest := base, v;
    ghost var written: bytes := [];
    while rest >= 0x80
      invariant i == base + |written| && written + EncodeVarint(rest) == EncodeVarint(v)
      invariant dAtA[..] == Splice(before, base, written)
      decreases rest
    {
      var b := (rest % 128 + 128) as byte;
      EncodeOneMore(written, b, rest);
      PutByte(dAtA, i, b, before, base, written);
      written := written + [b];
      i, rest := i + 1, rest / 128;
    }
    PutByte(dAtA, i, rest as byte, before, base, written);
  }

  lemma EncodeOneMore(written: bytes, b: byte, rest: nat)
    requires rest >= 128 && b == (rest % 128 + 128) as byte
    ensures written + [b] + EncodeVarint(rest / 128) == written + EncodeVarint(rest)
  {
  }

  /** Writes one byte right behind the bytes written so far. */
  method PutByte(dAtA: array<byte>, i: nat, b: byte, ghost before: bytes, ghost base: nat, ghost written: bytes)
    requires i == base + |written| < dAtA.Length == |before| && dAtA[..] == Splice(before, base, written)
    modifies dAtA
    ensures dAtA[..] == Splice(before, base, written + [b])
  {
    dAtA[i] := b;
    SpliceNext(before, base, written, b);
  }

  lemma SpliceNext(s: bytes, at: nat, b: bytes, x: byte)
    requires at + |b| < |s|
    ensures Splice(s, at, b)[at + |b| := x] == Splice(s, at, b + [x])
  {
  }

  /** Go's copy into dAtA from index at on. */
  method CopyInto(dAtA: array<byte>, at: nat, src: bytes)
    requires at + |src| <= dAtA.Length
    modifies dAtA
    ensures dAtA[..] == Splice(old(dAtA[..]), at, src)
  {
    forall k | 0 <= k < |src| {
      dAtA[at + k] := src[k];
    }
  }

  /** Writes a tag and a varint so that they end right before offset; the index of the tag. */
  method PutHeader(dAtA: array<byte>, offset: nat, tag: byte, v: uint64) returns (i: nat)
    requires 1 + Sov(v) <= offset <= dAtA.Length
    modifies dAtA
    ensures i + |ScalarField(tag, v)| == offset
    ensures Filled(old(dAtA[..]), dAtA[..], offset, ScalarField(tag, v))
  {
    ghost var before := dAtA[..];
    SovIsEncodedLength(v);
    i := EncodeVarintAt(dAtA, offset, v);
    ghost var middle := dAtA[..];
    i := i - 1;
    dAtA[i] := tag;
    assert dAtA[..] == Splice(middle, i, [tag]);
    FilledBefore(before, middle, dAtA[..], offset, EncodeVarint(v), [tag]);
  }

  /** Puts tag and length in front of a payload just written; the length of the whole field. */
  method PutLength(dAtA: array<byte>, end: nat, tag: byte, size: nat, ghost before: bytes, ghost payload: bytes)
    returns (n: nat)
    requires |payload| == size && |PayloadField(tag, payload)| <= end <= dAtA.Length < TWO_63
    requires Filled(before, dAtA[..], end, payload)
    modifies dAtA
    ensures n == |PayloadField(tag, payload)| && Filled(before, dAtA[..], end, PayloadField(tag, payload))
  {
    ghost var middle := dAtA[..];
    SovIsEncodedLength(size);
    var i := PutHeader(dAtA, end - size, tag, size);
    FilledBefore(before, middle, dAtA[..], end, payload, ScalarField(tag, size));
    n := end - i;
  }

  /** Writes a length-delimited field so that it ends right before end; its length. */
  method PutPayload(dAtA: array<byte>, end: nat, tag: byte, payload: bytes) returns (n: nat)
    requires |PayloadField(tag, payload)| <= end <= dAtA.Length < TWO_63
    modifies dAtA
    ensures n == |PayloadField(tag, payload)|
    ensures Filled(old(dAtA[..]), dAtA[..], end, PayloadField(tag, payload))
  {
    ghost var before := dAtA[..];
    CopyInto(dAtA, end - |payload|, payload);
    n := PutLength(dAtA, end, tag, |payload|, before, payload);
  }
}
