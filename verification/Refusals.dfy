/**
  Which error an input that is not accepted meets, and what had been done by then.
 */
module Refusals {
  import opened Basics
  import opened Wire
  import opened Skip
  import opened Fields
  import opened Entries

  /** The wire type a listed field needs. */
  function WireTypeOf(kind: Kind): int {
    match kind case ScalarKind => 0 case PayloadKind => 2
  }

  /** A tag is refused for a group end, then for its number, then for the wire type of a listed field. */
  lemma TagRefused(schema: Schema, tag: bytes, num: int, wireType: int, rest: bytes, i: nat)
    requires Announces(tag, num, wireType)
    ensures wireType == 4 ==> ReadItem(schema, tag + rest, i) == NoItem(EndGroupForNonGroup, Unknown)
    ensures wireType != 4 && num <= 0 ==> ReadItem(schema, tag + rest, i) == NoItem(IllegalTag, Unknown)
    ensures wireType != 4 && num > 0 && num in schema && wireType != WireTypeOf(schema[num]) ==>
              ReadItem(schema, tag + rest, i) == NoItem(WrongWireType, Unknown)
  {
    ReadVarintThen(tag, rest);
  }

  /** A number that breaks off is left as far as it was read. */
  lemma ScalarRefused(schema: Schema, tag: bytes, num: int, rest: bytes, i: nat, e: Wire.Error, v: uint64)
    requires Announces(tag, num, 0) && num > 0 && num in schema && schema[num] == ScalarKind
    requires ReadVarint(rest) == NoVarint(e, v)
    ensures ReadItem(schema, tag + rest, i) == NoItem(e, Scalar(num, v))
  {
    ReadVarintThen(tag, rest);
  }

  /** A length is refused when it breaks off, is negative as an int, leads past the largest index, or past the input. */
  lemma LengthRefused(schema: Schema, tag: bytes, num: int, length: bytes, rest: bytes, i: nat)
    requires Announces(tag, num, 2) && num > 0 && num in schema && schema[num] == PayloadKind && IsVarint(length)
    ensures var n, r := VarintValue(length), ReadItem(schema, tag + (length + rest), i);
            && (n >= 0x8000_0000_0000_0000 ==> r == NoItem(InvalidLength, Unknown))
            && (n < 0x8000_0000_0000_0000 <= i + |tag| + |length| + n ==> r == NoItem(InvalidLength, Unknown))
            && (i + |tag| + |length| + n < 0x8000_0000_0000_0000 && n > |rest| ==> r == NoItem(UnexpectedEOF, Unknown))
  {
    ReadVarintThen(tag, length + rest);
    ReadVarintThen(length, rest);
  }

  lemma LengthBreaksOff(schema: Schema, tag: bytes, num: int, rest: bytes, i: nat, e: Wire.Error, v: uint64)
    requires Announces(tag, num, 2) && num > 0 && num in schema && schema[num] == PayloadKind
    requires ReadVarint(rest) == NoVarint(e, v)
    ensures ReadItem(schema, tag + rest, i) == NoItem(e, Unknown)
  {
    ReadVarintThen(tag, rest);
  }

  /** An unlisted field that the skipper refuses, or that leads past the input. */
  lemma UnlistedRefused(schema: Schema, t: bytes, i: nat)
    requires i + |t| < TWO_63 && ReadVarint(t).Varint? && ReadVarint(t).value % 8 != 4
    requires ToInt32(ReadVarint(t).value / 8) > 0 && ToInt32(ReadVarint(t).value / 8) !in schema
    ensures SkipField(t).NotSkipped? ==> ReadItem(schema, t, i) == NoItem(SkipField(t).error, Unknown)
    ensures SkipField(t).Skipped? && i + SkipField(t).next >= TWO_63 ==> ReadItem(schema, t, i) == NoItem(InvalidLength, Unknown)
    ensures SkipField(t).Skipped? && |t| < SkipField(t).next && i + SkipField(t).next < TWO_63 ==>
              ReadItem(schema, t, i) == NoItem(UnexpectedEOF, Unknown)
  {
  }

  // ----- the skipper's errors

  /** Wire types 6 and 7 do not exist, and a length must not be negative as an int. */
  lemma TokenRefused(tag: bytes, rest: bytes)
    requires IsVarint(tag)
    ensures VarintValue(tag) % 8 >= 6 ==> ReadToken(tag + rest) == NoToken(IllegalWireType)
    ensures VarintValue(tag) % 8 in {0, 2} && ReadVarint(rest).NoVarint? ==> ReadToken(tag + rest) == NoToken(ReadVarint(rest).error)
    ensures VarintValue(tag) % 8 == 2 && ReadVarint(rest).Varint? && ReadVarint(rest).value >= 0x8000_0000_0000_0000 ==>
              ReadToken(tag + rest) == NoToken(InvalidLength)
  {
    ReadVarintThen(tag, rest);
  }

  /** How the skipper ends on t when it is at index i and depth `depth`. */
  lemma {:induction false} LoopRefused(read: Reader, t: bytes, i: nat, depth: nat)
    ensures t == [] ==> SkipFrom(read, t, i, depth) == NotSkipped(UnexpectedEOF)
    ensures t != [] && read(t).NoToken? ==> SkipFrom(read, t, i, depth) == NotSkipped(read(t).error)
    ensures t != [] && read(t).TokenRead? && depth == 0 && read(t).delta == -1 ==>
              SkipFrom(read, t, i, depth) == NotSkipped(UnexpectedEndOfGroup)
    ensures t != [] && read(t).TokenRead? && depth + read(t).delta >= 0 && i + read(t).len >= TWO_63 ==>
              SkipFrom(read, t, i, depth) == NotSkipped(InvalidLength)
    ensures t != [] && read(t).TokenRead? && depth + read(t).delta > 0 && |t| < read(t).len < TWO_63 - i ==>
              SkipFrom(read, t, i, depth) == NotSkipped(UnexpectedEOF)
  {
  }

  lemma {:induction false} OpenGroup(read: Reader, token: Tokens, start: bytes, body: Skip.Fields, t: bytes)
    requires TakesTokens(Skipper(read), read, token) && token(start, 1) && FieldsOver(token, body)
    requires |start| + |PrintAll(body)| + |t| < TWO_63
    ensures SkipFrom(read, start + (PrintAll(body) + t), 0, 0) == SkipFrom(read, t, |start| + |PrintAll(body)|, 1)
  {
    assert Turn(Skipper(read), start, 1, PrintAll(body) + t, 0, 0);
    SkipManyFields(Skipper(read), read, token, body, t, |start|, 1);
  }

  /** Inside an open group the skipper passes over whole fields and then ends as it does on the rest. */
  lemma GroupRefused(start: bytes, body: Skip.Fields, t: bytes)
    requires IsToken(start, 1) && FieldsOver(IsToken, body) && |start| + |PrintAll(body)| + |t| < TWO_63
    ensures SkipField(start + (PrintAll(body) + t)) == SkipFrom(ReadToken, t, |start| + |PrintAll(body)|, 1)
  {
    SkipperTakesTokens();
    OpenGroup(ReadToken, IsToken, start, body, t);
  }

  // ----- whole inputs

  /** After fields that decode, the first that is refused decides: its error, and the message with what its case had set. */
  lemma FirstRefusal<M>(d: Message<M>, m: M, a: bytes, t: bytes, e: Wire.Error, partial: Item)
    requires Local(d.read) && |a + t| < TWO_63 && Unmarshal(d, m, a).Ok?
    requires t != [] && d.read(t, |a|) == NoItem(e, partial)
    ensures Unmarshal(d, m, a + t) == Err(e, LeftBy(d.apply(Unmarshal(d, m, a).value, partial)))
  {
    DecodeConcat(d, m, a, t, 0);
    RefusedAt(d, Unmarshal(d, m, a).value, t, |a|, e, partial);
  }

  lemma {:induction false} RefusedAt<M>(d: Message<M>, m: M, t: bytes, i: nat, e: Wire.Error, partial: Item)
    requires t != [] && d.read(t, i) == NoItem(e, partial)
    ensures Decode(d, m, t, i) == Err(e, LeftBy(d.apply(m, partial)))
  {
  }
}
