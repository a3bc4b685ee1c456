/**
  Which inputs an Unmarshal accepts: exactly the concatenations of fields that are listed and
  have the wire type their case asks for, or are unlisted and well formed. And which errors
  other inputs meet.
 */
module Entries {
  import opened Basics
  import opened Wire
  import opened Skip
  import opened Fields

  // ----- the fields of a message

  /** tag announces field num with a wire type. */
  predicate Announces(tag: bytes, num: int, wireType: int) {
    IsVarint(tag) && VarintValue(tag) % 8 == wireType && ToInt32(VarintValue(tag) / 8) == num
  }

  predicate IsScalarField(a: bytes, tag: bytes, number: bytes, num: int, value: uint64) {
    a == tag + number && Announces(tag, num, 0) && IsVarint(number) && VarintValue(number) == value
  }

  predicate IsPayloadField(a: bytes, tag: bytes, length: bytes, num: int, content: bytes) {
    a == tag + (length + content) && Announces(tag, num, 2) && IsVarint(length) && VarintValue(length) == |content|
  }

  /** The bytes a are one field, read as item. */
  ghost predicate IsField(schema: Schema, a: bytes, item: Item) {
    match item
    case Scalar(num, value) =>
      num > 0 && num in schema && schema[num] == ScalarKind && exists tag, number :: IsScalarField(a, tag, number, num, value)
    case Payload(num, content) =>
      num > 0 && num in schema && schema[num] == PayloadKind && exists tag, length :: IsPayloadField(a, tag, length, num, content)
    case Unknown => exists f :: WellFormed(f) && Unlisted(schema, f) && Print(f) == a
  }

  lemma ScalarReads(schema: Schema, a: bytes, tag: bytes, number: bytes, num: int, value: uint64)
    requires num > 0 && num in schema && schema[num] == ScalarKind && IsScalarField(a, tag, number, num, value)
    ensures a != [] && ReadItem(schema, a, 0) == ItemRead(Scalar(num, value), |a|)
  {
    ReadVarintThen(tag, number);
    ReadVarintThen(number, []);
    assert number + [] == number;
  }

  lemma PayloadReads(schema: Schema, a: bytes, tag: bytes, length: bytes, num: int, content: bytes)
    requires num > 0 && num in schema && schema[num] == PayloadKind && IsPayloadField(a, tag, length, num, content)
    requires |a| < TWO_63
    ensures a != [] && ReadItem(schema, a, 0) == ItemRead(Payload(num, content), |a|)
  {
    ReadVarintThen(tag, length + content);
    ReadVarintThen(length, content);
    TwoParts(length, content, |content|);
  }

  lemma TwoParts(a: bytes, b: bytes, n: nat)
    requires n <= |b|
    ensures (a + b)[|a|..|a| + n] == b[..n] && b[..|b|] == b
  {
  }

  lemma FieldReads(schema: Schema, a: bytes, item: Item)
    requires IsField(schema, a, item) && |a| < TWO_63
    ensures a != [] && ReadItem(schema, a, 0) == ItemRead(item, |a|)
  {
    match item
    case Scalar(num, value) =>
      var tag, number :| IsScalarField(a, tag, number, num, value);
      ScalarReads(schema, a, tag, number, num, value);
    case Payload(num, content) =>
      var tag, length :| IsPayloadField(a, tag, length, num, content);
      PayloadReads(schema, a, tag, length, num, content);
    case Unknown =>
      var f :| WellFormed(f) && Unlisted(schema, f) && Print(f) == a;
      assert Print(f) + [] == Print(f);
      ReadsAsUnknownIff(schema, f, []);
  }

  /** What reading a scalar field took from the input. */
  lemma ScalarShape(schema: Schema, t: bytes, tag: bytes, rest: bytes)
    requires |tag| <= |t| && t[|tag|..] == rest && ReadVarint(t) == Varint(VarintValue(tag), |tag|)
    requires ReadItem(schema, t, 0).ItemRead? && ReadItem(schema, t, 0).item.Scalar?
    ensures var r, v := ReadItem(schema, t, 0), ReadVarint(rest);
            && v.Varint? && v.len <= |rest| && v.value == r.item.value && r.len == |tag| + v.len
            && VarintValue(tag) % 8 == 0 && r.item.num == ToInt32(VarintValue(tag) / 8)
            && r.item.num > 0 && r.item.num in schema && schema[r.item.num] == ScalarKind
  {
  }

  lemma ScalarAt(schema: Schema, t: bytes, tag: bytes, rest: bytes, num: int)
    requires t == tag + rest && Announces(tag, num, 0) && num > 0 && num in schema && schema[num] == ScalarKind
    requires ReadVarint(rest).Varint?
    ensures |tag| + ReadVarint(rest).len <= |t|
    ensures IsField(schema, t[..|tag| + ReadVarint(rest).len], Scalar(num, ReadVarint(rest).value))
  {
    var number, after := VarintPart(rest);
    assert t[..|tag| + |number|] == tag + number;
    assert IsScalarField(tag + number, tag, number, num, ReadVarint(rest).value);
  }

  /** What reading a payload field took from the input. */
  lemma PayloadShape(schema: Schema, t: bytes, tag: bytes, rest: bytes)
    requires |tag| <= |t| && t[|tag|..] == rest && ReadVarint(t) == Varint(VarintValue(tag), |tag|)
    requires ReadItem(schema, t, 0).ItemRead? && ReadItem(schema, t, 0).item.Payload?
    ensures var r, v := ReadItem(schema, t, 0), ReadVarint(rest);
            && v.Varint? && v.len + |r.item.bytes| <= |rest| && v.value == |r.item.bytes|
            && r.item.bytes == rest[v.len..v.len + |r.item.bytes|] && r.len == |tag| + v.len + |r.item.bytes|
            && VarintValue(tag) % 8 == 2 && r.item.num == ToInt32(VarintValue(tag) / 8)
            && r.item.num > 0 && r.item.num in schema && schema[r.item.num] == PayloadKind
  {
  }

  lemma PrefixParts(t: bytes, tag: bytes, length: bytes, after: bytes, n: nat)
    requires t == tag + (length + after) && n <= |after|
    ensures t[..|tag| + |length| + n] == tag + (length + after[..n])
    ensures (length + after)[|length|..|length| + n] == after[..n]
  {
  }

  lemma PayloadAt(schema: Schema, t: bytes, tag: bytes, length: bytes, after: bytes, num: int, content: bytes)
    requires t == tag + (length + after) && |content| <= |after|
    requires content == (length + after)[|length|..|length| + |content|]
    requires Announces(tag, num, 2) && num > 0 && num in schema && schema[num] == PayloadKind
    requires IsVarint(length) && VarintValue(length) == |content|
    ensures |tag| + |length| + |content| <= |t|
    ensures IsField(schema, t[..|tag| + |length| + |content|], Payload(num, content))
  {
    PrefixParts(t, tag, length, after, |content|);
    PayloadIsField(schema, tag + (length + content), tag, length, num, content);
  }

  lemma PayloadIsField(schema: Schema, a: bytes, tag: bytes, length: bytes, num: int, content: bytes)
    requires num > 0 && num in schema && schema[num] == PayloadKind && IsPayloadField(a, tag, length, num, content)
    ensures IsField(schema, a, Payload(num, content))
  {
  }

  lemma ReadsUnknown(schema: Schema, t: bytes)
    requires |t| < TWO_63 && ReadItem(schema, t, 0).ItemRead? && ReadItem(schema, t, 0).item == Unknown
    ensures ReadItem(schema, t, 0).len <= |t| && IsField(schema, t[..ReadItem(schema, t, 0).len], Unknown)
  {
    var n := ReadItem(schema, t, 0).len;
    var f := SkipSound(t);
    assert t == Print(f) + t[n..];
    ReadsAsUnknownIff(schema, f, t[n..]);
  }

  lemma ReadsScalar(schema: Schema, t: bytes)
    requires ReadItem(schema, t, 0).ItemRead? && ReadItem(schema, t, 0).item.Scalar?
    ensures ReadItem(schema, t, 0).len <= |t| && IsField(schema, t[..ReadItem(schema, t, 0).len], ReadItem(schema, t, 0).item)
  {
    var tag, rest := VarintPart(t);
    ScalarShape(schema, t, tag, rest);
    ScalarAt(schema, t, tag, rest, ReadItem(schema, t, 0).item.num);
  }

  lemma ReadsPayload(schema: Schema, t: bytes)
    requires ReadItem(schema, t, 0).ItemRead? && ReadItem(schema, t, 0).item.Payload?
    ensures ReadItem(schema, t, 0).len <= |t| && IsField(schema, t[..ReadItem(schema, t, 0).len], ReadItem(schema, t, 0).item)
  {
    var item := ReadItem(schema, t, 0).item;
    var tag, rest := VarintPart(t);
    PayloadShape(schema, t, tag, rest);
    var length, after := VarintPart(rest);
    PayloadAt(schema, t, tag, length, after, item.num, item.bytes);
  }

  lemma ReadsField(schema: Schema, t: bytes)
    requires |t| < TWO_63 && ReadItem(schema, t, 0).ItemRead?
    ensures ReadItem(schema, t, 0).len <= |t| && IsField(schema, t[..ReadItem(schema, t, 0).len], ReadItem(schema, t, 0).item)
  {
    match ReadItem(schema, t, 0).item
    case Scalar(_, _) => ReadsScalar(schema, t);
    case Payload(_, _) => ReadsPayload(schema, t);
    case Unknown => ReadsUnknown(schema, t);
  }

  // ----- whole inputs

  datatype Chunk = Chunk(bytes: bytes, item: Item)

  type Grammar = (bytes, Item) -> bool

  function Joined(cs: seq<Chunk>): bytes {
    if cs == [] then [] else cs[0].bytes + Joined(cs[1..])
  }

  /** The cases of the fields, one after another. */
  function Applied<M>(d: Message<M>, m: M, cs: seq<Chunk>): Option<M>
    decreases |cs|
  {
    if cs == [] then Some(m)
    else
      match d.apply(m, cs[0].item)
      case Err(_, _) => None
      case Ok(m') => Applied(d, m', cs[1..])
  }

  ghost predicate AllIn(grammar: Grammar, cs: seq<Chunk>) {
    forall i | 0 <= i < |cs| :: grammar(cs[i].bytes, cs[i].item)
  }

  /** What is in the grammar is read. */
  ghost predicate ReadsIt(read: (bytes, nat) -> ItemResult, grammar: Grammar, a: bytes, item: Item) {
    grammar(a, item) && |a| < TWO_63 ==> a != [] && read(a, 0) == ItemRead(item, |a|)
  }

  /** What is read is in the grammar. */
  ghost predicate OnlyReads(read: (bytes, nat) -> ItemResult, grammar: Grammar, t: bytes) {
    |t| < TWO_63 && read(t, 0).ItemRead? ==> read(t, 0).len <= |t| && grammar(t[..read(t, 0).len], read(t, 0).item)
  }

  ghost predicate ReadsGrammar(read: (bytes, nat) -> ItemResult, grammar: Grammar) {
    (forall a, item :: ReadsIt(read, grammar, a, item)) && (forall t :: OnlyReads(read, grammar, t))
  }

  ghost function MessageGrammar(schema: Schema): Grammar {
    (a: bytes, item: Item) => IsField(schema, a, item)
  }

  lemma ReaderReadsGrammar(schema: Schema)
    ensures ReadsGrammar(ItemReader(schema), MessageGrammar(schema))
  {
    var read, grammar := ItemReader(schema), MessageGrammar(schema);
    forall a, item ensures ReadsIt(read, grammar, a, item) {
      if IsField(schema, a, item) && |a| < TWO_63 {
        FieldReads(schema, a, item);
      }
    }
    forall t ensures OnlyReads(read, grammar, t) {
      if |t| < TWO_63 && ReadItem(schema, t, 0).ItemRead? {
        ReadsField(schema, t);
      }
    }
  }

  lemma {:induction false} ChunksDecode<M>(d: Message<M>, grammar: Grammar, m: M, cs: seq<Chunk>, i: nat)
    requires ReadsGrammar(d.read, grammar) && Local(d.read) && AllIn(grammar, cs) && i + |Joined(cs)| < TWO_63
    requires Applied(d, m, cs).Some?
    ensures Decode(d, m, Joined(cs), i) == Ok(Applied(d, m, cs).value)
    decreases |cs|
  {
    if cs != [] {
      var a, b := cs[0].bytes, Joined(cs[1..]);
      var m' := d.apply(m, cs[0].item).value;
      assert ReadsIt(d.read, grammar, a, cs[0].item);
      assert LocalAt(d.read, a, b, 0, i);
      ChunksDecode(d, grammar, m', cs[1..], i + |a|);
      DecodeAcross(d, m, m', a, b, i, cs[0].item);
    }
  }

  lemma {:induction false} DecodeAcross<M>(d: Message<M>, m: M, m': M, a: bytes, b: bytes, i: nat, item: Item)
    requires a != [] && d.read(a + b, i) == ItemRead(item, |a|) && d.apply(m, item) == Ok(m')
    ensures Decode(d, m, a + b, i) == Decode(d, m', b, i + |a|)
  {
    assert (a + b)[|a|..] == b;
  }

  lemma {:induction false} DecodedChunks<M>(d: Message<M>, grammar: Grammar, m: M, t: bytes, i: nat) returns (cs: seq<Chunk>)
    requires ReadsGrammar(d.read, grammar) && Local(d.read) && i + |t| < TWO_63 && Decode(d, m, t, i).Ok?
    ensures AllIn(grammar, cs) && Joined(cs) == t && Applied(d, m, cs) == Some(Decode(d, m, t, i).value)
    decreases |t|
  {
    cs := [];
    if t != [] {
      var r := d.read(t, i);
      assert t + [] == t;
      assert LocalAt(d.read, t, [], i, 0) && OnlyReads(d.read, grammar, t);
      var rest := DecodedChunks(d, grammar, d.apply(m, r.item).value, t[r.len..], i + r.len);
      cs := [Chunk(t[..r.len], r.item)] + rest;
      assert cs[1..] == rest;
    }
  }

  /** cs is a way to read s as fields whose cases turn m into m'. */
  ghost predicate Reading<M(!new)>(schema: Schema, d: Message<M>, m: M, s: bytes, m': M, cs: seq<Chunk>) {
    && (forall i | 0 <= i < |cs| :: IsField(schema, cs[i].bytes, cs[i].item))
    && Joined(cs) == s && Applied(d, m, cs) == Some(m')
  }

  /** An Unmarshal succeeds with m' exactly when its input is a concatenation of fields whose cases, in order, turn m into m'. */
  lemma UnmarshalIff<M(!new)>(schema: Schema, d: Message<M>, m: M, s: bytes, m': M)
    requires d.read == ItemReader(schema) && |s| < TWO_63
    ensures Unmarshal(d, m, s) == Ok(m') <==> exists cs :: Reading(schema, d, m, s, m', cs)
  {
    ItemReaderLocal(schema);
    ReaderReadsGrammar(schema);
    if Unmarshal(d, m, s) == Ok(m') {
      var cs := DecodedChunks(d, MessageGrammar(schema), m, s, 0);
      assert Reading(schema, d, m, s, m', cs);
    }
    if cs :| Reading(schema, d, m, s, m', cs) {
      ChunksDecode(d, MessageGrammar(schema), m, cs, 0);
    }
  }
}
