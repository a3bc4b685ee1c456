/**
  Decoding a message field by field.

  Every generated Unmarshal is the same loop around a different switch: read a tag, hand a
  listed field to its case, skip an unlisted one. The loop is modelled once, over the table of
  listed fields and the effect of each case. The laws of the encoding proved here hold for
  every such message.
 */
module Fields {
  import opened Basics
  import opened Wire
  import opened Skip

  /** What the case of a listed field expects after the tag. */
  datatype Kind = ScalarKind | PayloadKind

  type Schema = map<int, Kind>

  datatype Item = Scalar(num: int, value: uint64) | Payload(num: int, bytes: bytes) | Unknown

  /** A field, or an error and what its case had set by then: a scalar is or-ed together in place. */
  datatype ItemResult = ItemRead(item: Item, len: pos) | NoItem(error: Error, partial: Item)

  /** Reads one field at the start of t, where t begins at index i of the message. */
  function ReadItem(schema: Schema, t: bytes, i: nat): ItemResult {
    match ReadVarint(t)
    case NoVarint(e, _) => NoItem(e, Unknown)
    case Varint(tag, n) =>
      var num := ToInt32(tag / 8);
      if tag % 8 == 4 then NoItem(EndGroupForNonGroup, Unknown)
      else if num <= 0 then NoItem(IllegalTag, Unknown)
      else if num !in schema then ReadUnknown(t, i)
      else if schema[num].ScalarKind? then
        if tag % 8 != 0 then NoItem(WrongWireType, Unknown) else ReadScalar(num, t[n..], n)
      else
        if tag % 8 != 2 then NoItem(WrongWireType, Unknown) else ReadPayload(num, t[n..], i, n)
  }

  function ReadScalar(num: int, t: bytes, n: nat): ItemResult {
    match ReadVarint(t)
    case NoVarint(e, partial) => NoItem(e, Scalar(num, partial))
    case Varint(value, m) => ItemRead(Scalar(num, value), n + m)
  }

  /** An end index of TWO_63 or more is one that wrapped around to a negative number. */
  function ReadPayload(num: int, t: bytes, i: nat, n: nat): ItemResult {
    match ReadVarint(t)
    case NoVarint(e, _) => NoItem(e, Unknown)
    case Varint(value, m) =>
      var length := ToInt64(value);
      if length < 0 then NoItem(InvalidLength, Unknown)
      else if i + n + m + length >= TWO_63 then NoItem(InvalidLength, Unknown)
      else if m + length > |t| then NoItem(UnexpectedEOF, Unknown)
      else ItemRead(Payload(num, t[m..m + length]), n + m + length)
  }

  function ReadUnknown(t: bytes, i: nat): ItemResult {
    match SkipField(t)
    case NotSkipped(e) => NoItem(e, Unknown)
    case Skipped(n) =>
      if i + n >= TWO_63 then NoItem(InvalidLength, Unknown)
      else if n > |t| then NoItem(UnexpectedEOF, Unknown)
      else ItemRead(Unknown, n)
  }

  /** The message after an Unmarshal, or an error and the message as it was left. */
  datatype Result<+T> = Ok(value: T) | Err(error: Error, left: T)

  function LeftBy<T>(r: Result<T>): T {
    if r.Ok? then r.value else r.left
  }

  /** A message type: how its fields are read, and what its switch does with one. */
  datatype Message<!M> = Message(read: (bytes, nat) -> ItemResult, apply: (M, Item) -> Result<M>)

  function ItemReader(schema: Schema): (bytes, nat) -> ItemResult {
    (t: bytes, i: nat) => ReadItem(schema, t, i)
  }

  /** The Unmarshal loop from index i, with t left to read, over the message m so far. */
  function Decode<M>(d: Message<M>, m: M, t: bytes, i: nat): Result<M>
    decreases |t|
  {
    if t == [] then Ok(m)
    else
      match d.read(t, i)
      case NoItem(e, partial) => Err(e, LeftBy(d.apply(m, partial)))
      case ItemRead(item, n) =>
        match d.apply(m, item)
        case Err(e, left) => Err(e, left)
        case Ok(m') => if n > |t| then Err(UnexpectedEOF, m') else Decode(d, m', t[n..], i + n)
  }

  function Unmarshal<M>(d: Message<M>, m: M, s: bytes): Result<M> {
    Decode(d, m, s, 0)
  }

  /** Both fail or both succeed, and leave the same message; which error is reported may depend on the index. */
  predicate SameOutcome<M(==)>(r: Result<M>, r': Result<M>) {
    r.Ok? == r'.Ok? && LeftBy(r) == LeftBy(r')
  }

  /** How the loop goes on at index i of s when reading a field there gives r. */
  ghost predicate Continues<M>(d: Message<M>, m: M, s: bytes, i: nat, r: ItemResult) {
    && i < |s|
    && (r.ItemRead? ==> i + r.len <= |s|)
    && match r
       case NoItem(e, partial) => Decode(d, m, s[i..], i) == Err(e, LeftBy(d.apply(m, partial)))
       case ItemRead(item, n) =>
         match d.apply(m, item)
         case Err(e, left) => Decode(d, m, s[i..], i) == Err(e, left)
         case Ok(m') => Decode(d, m, s[i..], i) == Decode(d, m', s[i + n..], i + n)
  }

  lemma DecodeTurn<M>(d: Message<M>, m: M, s: bytes, i: nat, r: ItemResult)
    requires i < |s| && r == d.read(s[i..], i) && (r.ItemRead? ==> i + r.len <= |s|)
    ensures Continues(d, m, s, i, r)
  {
  }

  // ----- reading a field does not depend on where it stands or on what follows

  ghost predicate InRange(t: bytes, i: nat) {
    i + |t| < TWO_63
  }

  /** What is read at the start of a is read there as well when b follows and a stands elsewhere. */
  ghost predicate LocalAt(read: (bytes, nat) -> ItemResult, a: bytes, b: bytes, i: nat, j: nat) {
    InRange(a, i) && InRange(a + b, j) && read(a, i).ItemRead?
    ==> read(a, i).len <= |a| && read(a + b, j) == read(a, i)
  }

  ghost predicate SamePartial(read: (bytes, nat) -> ItemResult, t: bytes, i: nat, j: nat) {
    read(t, i).NoItem? && read(t, j).NoItem? ==> read(t, i).partial == read(t, j).partial
  }

  ghost predicate Local(read: (bytes, nat) -> ItemResult) {
    && (forall a, b, i: nat, j: nat :: LocalAt(read, a, b, i, j))
    && (forall t, i: nat, j: nat :: SamePartial(read, t, i, j))
  }

  lemma SkipFieldLocal(a: bytes, b: bytes)
    requires |a + b| < TWO_63 && SkipField(a).Skipped? && SkipField(a).next <= |a|
    ensures SkipField(a + b) == SkipField(a)
  {
    var n := SkipField(a).next;
    var f := SkipSound(a);
    assert (a + b)[..n] == a[..n];
    SkipPrefix(a + b, n, f);
  }

  lemma ReadPayloadLocal(num: int, a: bytes, b: bytes, i: nat, j: nat, n: nat)
    requires ReadPayload(num, a, i, n).ItemRead? && j + n + |a| < TWO_63
    ensures ReadPayload(num, a + b, j, n) == ReadPayload(num, a, i, n)
    ensures ReadPayload(num, a, i, n).len <= n + |a|
  {
    ReadVarintExtend(a, b);
    var v := ReadVarint(a);
    assert (a + b)[v.len..v.len + ToInt64(v.value)] == a[v.len..v.len + ToInt64(v.value)];
  }

  lemma ReadScalarLocal(num: int, a: bytes, b: bytes, n: nat)
    requires ReadScalar(num, a, n).ItemRead?
    ensures ReadScalar(num, a + b, n) == ReadScalar(num, a, n) && ReadScalar(num, a, n).len <= n + |a|
  {
    ReadVarintExtend(a, b);
  }

  lemma ReadItemLocal(schema: Schema, a: bytes, b: bytes, i: nat, j: nat)
    requires InRange(a, i) && InRange(a + b, j) && ReadItem(schema, a, i).ItemRead?
    ensures ReadItem(schema, a, i).len <= |a| && ReadItem(schema, a + b, j) == ReadItem(schema, a, i)
  {
    ReadVarintExtend(a, b);
    var n := ReadVarint(a).len;
    var num := ToInt32(ReadVarint(a).value / 8);
    assert (a + b)[n..] == a[n..] + b;
    if num !in schema {
      SkipFieldLocal(a, b);
    } else if schema[num].ScalarKind? {
      ReadScalarLocal(num, a[n..], b, n);
    } else {
      ReadPayloadLocal(num, a[n..], b, i, j, n);
    }
  }

  lemma ItemReaderLocal(schema: Schema)
    ensures Local(ItemReader(schema))
  {
    var read := ItemReader(schema);
    forall a, b, i: nat, j: nat ensures LocalAt(read, a, b, i, j) {
      if InRange(a, i) && InRange(a + b, j) && read(a, i).ItemRead? {
        ReadItemLocal(schema, a, b, i, j);
      }
    }
    forall t, i: nat, j: nat ensures SamePartial(read, t, i, j) {
      if read(t, i).NoItem? && read(t, j).NoItem? {
        ReadItemPartial(schema, t, i, j);
      }
    }
  }

  lemma ReadItemPartial(schema: Schema, t: bytes, i: nat, j: nat)
    requires ReadItem(schema, t, i).NoItem? && ReadItem(schema, t, j).NoItem?
    ensures ReadItem(schema, t, i).partial == ReadItem(schema, t, j).partial
  {
  }

  // ----- concatenation is merging

  lemma {:induction false} DecodeShift<M>(d: Message<M>, m: M, t: bytes, i: nat, j: nat)
    requires Local(d.read) && InRange(t, i) && InRange(t, j)
    ensures SameOutcome(Decode(d, m, t, i), Decode(d, m, t, j))
    decreases |t|
  {
    if t != [] {
      assert t + [] == t;
      assert LocalAt(d.read, t, [], i, j) && LocalAt(d.read, t, [], j, i) && SamePartial(d.read, t, i, j);
      if d.read(t, i).ItemRead? {
        var n := d.read(t, i).len;
        var r := d.apply(m, d.read(t, i).item);
        if r.Ok? {
          DecodeShift(d, r.value, t[n..], i + n, j + n);
        }
      }
    }
  }

  lemma {:induction false} DecodeConcat<M>(d: Message<M>, m: M, a: bytes, b: bytes, i: nat)
    requires Local(d.read) && InRange(a + b, i) && Decode(d, m, a, i).Ok?
    ensures Decode(d, m, a + b, i) == Decode(d, Decode(d, m, a, i).value, b, i + |a|)
    decreases |a|
  {
    if a == [] {
      assert a + b == b;
    } else {
      var r := d.read(a, i);
      var m', tail := d.apply(m, r.item).value, a[r.len..];
      assert LocalAt(d.read, a, b, i, i);
      FirstField(d, m, m', a, b, i, r.item, r.len);
      DecodeConcat(d, m', tail, b, i + r.len);
      assert i + r.len + |tail| == i + |a|;
    }
  }

  /** Both a and a followed by b start with the same field. */
  lemma {:induction false} FirstField<M>(d: Message<M>, m: M, m': M, a: bytes, b: bytes, i: nat, item: Item, n: pos)
    requires n <= |a| && d.read(a, i) == d.read(a + b, i) == ItemRead(item, n) && d.apply(m, item) == Ok(m')
    ensures Decode(d, m, a, i) == Decode(d, m', a[n..], i + n)
    ensures Decode(d, m, a + b, i) == Decode(d, m', a[n..] + b, i + n)
  {
    assert (a + b)[n..] == a[n..] + b;
  }

  /**
    Last One Wins: after an encoding that decodes, the rest of the input is decoded into the
    message obtained so far, exactly as if it were given to a second call.
   */
  lemma MergeLaw<M>(d: Message<M>, m: M, a: bytes, b: bytes)
    requires Local(d.read) && |a + b| < TWO_63 && Unmarshal(d, m, a).Ok?
    ensures SameOutcome(Unmarshal(d, m, a + b), Unmarshal(d, Unmarshal(d, m, a).value, b))
  {
    DecodeConcat(d, m, a, b, 0);
    DecodeShift(d, Unmarshal(d, m, a).value, b, |a|, 0);
  }

  /** How decoding goes on after one field: the field's case decides, and what follows is decoded into its result. */
  ghost predicate DecodesAfter<M>(d: Message<M>, m: M, item: Item, whole: bytes, rest: bytes) {
    match d.apply(m, item)
    case Err(e, left) => Unmarshal(d, m, whole) == Err(e, left)
    case Ok(m') => SameOutcome(Unmarshal(d, m, whole), Unmarshal(d, m', rest))
  }

  lemma DecodeOne<M>(d: Message<M>, m: M, a: bytes, b: bytes, item: Item)
    requires Local(d.read) && |a + b| < TWO_63 && a != []
    requires d.read(a, 0) == ItemRead(item, |a|)
    ensures Unmarshal(d, m, a) == d.apply(m, item)
    ensures DecodesAfter(d, m, item, a + b, b)
  {
    assert LocalAt(d.read, a, b, 0, 0);
    var r := d.apply(m, item);
    if r.Ok? {
      assert a[|a|..] == [];
      assert Decode(d, r.value, a[|a|..], |a|) == Ok(r.value);
      MergeLaw(d, m, a, b);
    }
  }

  // ----- unknown fields are transparent

  /** The bytes of a field up to and including its tag's token. */
  function Lead(f: Field): bytes {
    if f.Single? then f.token else f.start
  }

  /** The tag a field starts with, as a number. */
  function TagOf(f: Field): uint64 {
    match ReadVarint(Lead(f))
    case Varint(tag, _) => tag
    case NoVarint(_, _) => 0
  }

  /** The number the source computes from a tag. */
  function FieldNumber(f: Field): int {
    ToInt32(TagOf(f) / 8)
  }

  predicate Unlisted(schema: Schema, f: Field) {
    FieldNumber(f) > 0 && FieldNumber(f) !in schema
  }

  lemma TokenTag(k: bytes, d: Delta)
    requires IsToken(k, d)
    ensures k != [] && ReadVarint(k).Varint? && TagDelta(ReadVarint(k).value % 8) == d
  {
    var tag: bytes, length: bytes, payload: bytes :| TokenOf(k, d, tag, length, payload);
    ReadVarintThen(tag, length + payload);
  }

  lemma FieldTag(f: Field, rest: bytes)
    requires WellFormed(f)
    ensures Print(f) != [] && TagOf(f) % 8 != 4
    ensures ReadVarint(Print(f) + rest).Varint? && ReadVarint(Print(f) + rest).value == TagOf(f)
  {
    var k := Lead(f);
    TokenTag(k, if f.Single? then 0 else 1);
    var after := if f.Single? then rest else PrintAll(f.body) + f.end + rest;
    assert Print(f) + rest == k + after;
    ReadVarintExtend(k, after);
  }

  /** A well-formed field is read as unknown exactly when the number computed from its tag is positive and unlisted. */
  lemma ReadsAsUnknownIff(schema: Schema, f: Field, rest: bytes)
    requires WellFormed(f) && |Print(f) + rest| < TWO_63
    ensures ReadItem(schema, Print(f) + rest, 0).ItemRead? && ReadItem(schema, Print(f) + rest, 0).item == Unknown
       <==> Unlisted(schema, f)
    ensures Unlisted(schema, f) ==> Print(f) != [] && ReadItem(schema, Print(f) + rest, 0) == ItemRead(Unknown, |Print(f)|)
  {
    FieldTag(f, rest);
    SkipComplete(f, rest);
    ReadItemUnknown(schema, Print(f) + rest, TagOf(f), |Print(f)|);
  }

  lemma ReadItemUnknown(schema: Schema, t: bytes, tag: uint64, n: pos)
    requires n <= |t| < TWO_63 && SkipField(t) == Skipped(n)
    requires ReadVarint(t).Varint? && ReadVarint(t).value == tag && tag % 8 != 4
    ensures var num := ToInt32(tag / 8);
            if num > 0 && num !in schema then ReadItem(schema, t, 0) == ItemRead(Unknown, n)
            else ReadItem(schema, t, 0).ItemRead? ==> ReadItem(schema, t, 0).item != Unknown
  {
  }

  /**
    Inserting a well-formed unlisted field between two fields changes nothing: what follows
    decodes the same, or fails the same.
   */
  lemma UnknownFieldIgnored<M>(schema: Schema, d: Message<M>, m: M, a: bytes, f: Field, b: bytes)
    requires d.read == ItemReader(schema) && (forall m :: d.apply(m, Unknown) == Ok(m))
    requires WellFormed(f) && Unlisted(schema, f)
    requires |a + (Print(f) + b)| < TWO_63 && Unmarshal(d, m, a).Ok?
    ensures SameOutcome(Unmarshal(d, m, a + (Print(f) + b)), Unmarshal(d, m, a + b))
  {
    var m' := Unmarshal(d, m, a).value;
    ItemReaderLocal(schema);
    MergeLaw(d, m, a, Print(f) + b);
    MergeLaw(d, m, a, b);
    assert Print(f) + [] == Print(f);
    FieldTag(f, []);
    ReadsAsUnknownIff(schema, f, []);
    DecodeOne(d, m', Print(f), b, Unknown);
  }

  // ----- how the encoder's fields read back

  function ScalarField(tag: byte, value: nat): bytes {
    [tag] + EncodeVarint(value)
  }

  function PayloadField(tag: byte, payload: bytes): bytes {
    [tag] + EncodeVarint(|payload|) + payload
  }

  lemma ReadTagByte(tag: byte, rest: bytes)
    requires tag < 128
    ensures ReadVarint([tag] + rest) == Varint(tag as int, 1) && ([tag] + rest)[1..] == rest
  {
    assert [tag] + rest == [tag] + rest;
    assert Base128([tag]) == tag as int;
    ReadVarintThen([tag], rest);
  }

  lemma ScalarFieldReads(schema: Schema, tag: byte, value: uint64)
    requires 8 <= tag < 128 && tag % 8 == 0
    requires tag as int / 8 in schema && schema[tag as int / 8].ScalarKind?
    ensures ReadItem(schema, ScalarField(tag, value), 0)
         == ItemRead(Scalar(tag as int / 8, value), |ScalarField(tag, value)|)
  {
    ReadTagByte(tag, EncodeVarint(value));
    VarintRoundTrip(value, []);
    assert EncodeVarint(value) + [] == EncodeVarint(value);
  }

  lemma ReadPayloadComplete(num: int, payload: bytes)
    requires |EncodeVarint(|payload|)| + |payload| + 1 < TWO_63
    ensures ReadPayload(num, EncodeVarint(|payload|) + payload, 0, 1)
         == ItemRead(Payload(num, payload), 1 + |EncodeVarint(|payload|)| + |payload|)
  {
    var prefix := EncodeVarint(|payload|);
    VarintRoundTrip(|payload|, payload);
    assert (prefix + payload)[|prefix|..|prefix| + |payload|] == payload;
  }

  lemma PayloadFieldReads(schema: Schema, tag: byte, payload: bytes)
    requires 8 <= tag < 128 && tag % 8 == 2 && |PayloadField(tag, payload)| < TWO_63
    requires tag as int / 8 in schema && schema[tag as int / 8].PayloadKind?
    ensures ReadItem(schema, PayloadField(tag, payload), 0)
         == ItemRead(Payload(tag as int / 8, payload), |PayloadField(tag, payload)|)
  {
    var rest := EncodeVarint(|payload|) + payload;
    assert PayloadField(tag, payload) == [tag] + rest;
    ReadTagByte(tag, rest);
    ReadPayloadComplete(tag as int / 8, payload);
  }

  lemma DecodeScalarField<M>(schema: Schema, d: Message<M>, m: M, tag: byte, value: uint64, rest: bytes)
    requires d.read == ItemReader(schema)
    requires 8 <= tag < 128 && tag % 8 == 0
    requires tag as int / 8 in schema && schema[tag as int / 8].ScalarKind?
    requires |ScalarField(tag, value) + rest| < TWO_63
    ensures Unmarshal(d, m, ScalarField(tag, value)) == d.apply(m, Scalar(tag as int / 8, value))
    ensures DecodesAfter(d, m, Scalar(tag as int / 8, value), ScalarField(tag, value) + rest, rest)
  {
    ItemReaderLocal(schema);
    ScalarFieldReads(schema, tag, value);
    DecodeOne(d, m, ScalarField(tag, value), rest, Scalar(tag as int / 8, value));
  }

  lemma DecodePayloadField<M>(schema: Schema, d: Message<M>, m: M, tag: byte, payload: bytes, rest: bytes)
    requires d.read == ItemReader(schema)
    requires 8 <= tag < 128 && tag % 8 == 2
    requires tag as int / 8 in schema && schema[tag as int / 8].PayloadKind?
    requires |PayloadField(tag, payload) + rest| < TWO_63
    ensures Unmarshal(d, m, PayloadField(tag, payload)) == d.apply(m, Payload(tag as int / 8, payload))
    ensures DecodesAfter(d, m, Payload(tag as int / 8, payload), PayloadField(tag, payload) + rest, rest)
  {
    ItemReaderLocal(schema);
    PayloadFieldReads(schema, tag, payload);
    DecodeOne(d, m, PayloadField(tag, payload), rest, Payload(tag as int / 8, payload));
  }
}
