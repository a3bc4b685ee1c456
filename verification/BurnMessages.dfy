/**
  The genesis messages of the burn module as values: their encodings, sizes and decoders, and
  the laws that connect them.
 */
module BurnMessages {
  import opened Basics
  import opened Wire
  import opened Skip
  import opened Fields

  /**
    The codec of a custom leaf type, whose code is outside the repository: the bytes that
    Marshal gives (Size is their number), what Unmarshal makes of the old value, and what it
    leaves there when it fails.
   */
  datatype Leaf = Leaf(encode: Number -> bytes, decode: (Number, bytes) -> Option<Number>, spoil: (Number, bytes) -> Number)

  datatype Leaves = Leaves(amount: Leaf, dec: Leaf)

  /** Unmarshal inverts Marshal at v, whatever was there before. The leaf types promise this for non-nil v. */
  ghost predicate Inverts(leaf: Leaf, v: Number) {
    forall prior :: leaf.decode(prior, leaf.encode(v)) == Some(v)
  }

  datatype ParamsValue = ParamsValue(feeBurnPercent: Number)
  datatype RecordValue = RecordValue(address: bytes, total: Number)
  datatype GenesisValue =
    GenesisValue(params: ParamsValue, count: uint64, total: Number, accountTotals: seq<RecordValue>)

  const FRESH_PARAMS := ParamsValue(Nil)
  const FRESH_RECORD := RecordValue([], Nil)
  const FRESH_GENESIS := GenesisValue(FRESH_PARAMS, 0, Nil, [])

  // ----- the tables and switches of the three Unmarshal functions

  const PARAMS_SCHEMA: Schema := map[1 := PayloadKind]
  const RECORD_SCHEMA: Schema := map[1 := PayloadKind, 2 := PayloadKind]
  const GENESIS_SCHEMA: Schema := map[1 := PayloadKind, 2 := ScalarKind, 3 := PayloadKind, 4 := PayloadKind]

  function DecodeLeaf(leaf: Leaf, prior: Number, payload: bytes): Result<Number> {
    match leaf.decode(prior, payload)
    case Some(v) => Ok(v)
    case None => Err(LeafRejected, leaf.spoil(prior, payload))
  }

  function ApplyParams(l: Leaves, m: ParamsValue, item: Item): Result<ParamsValue> {
    match item
    case Payload(_, payload) => (
      match DecodeLeaf(l.dec, m.feeBurnPercent, payload)
      case Ok(v) => Ok(ParamsValue(v))
      case Err(e, v) => Err(e, ParamsValue(v)))
    case _ => Ok(m)
  }

  function ParamsFields(l: Leaves): Message<ParamsValue> {
    Message(ItemReader(PARAMS_SCHEMA), (m, item) => ApplyParams(l, m, item))
  }

  function ApplyRecord(l: Leaves, m: RecordValue, item: Item): Result<RecordValue> {
    match item
    case Payload(num, payload) =>
      if num == 1 then Ok(m.(address := payload))
      else (
        match DecodeLeaf(l.amount, m.total, payload)
        case Ok(v) => Ok(m.(total := v))
        case Err(e, v) => Err(e, m.(total := v)))
    case _ => Ok(m)
  }

  function RecordFields(l: Leaves): Message<RecordValue> {
    Message(ItemReader(RECORD_SCHEMA), (m, item) => ApplyRecord(l, m, item))
  }

  function ApplyGenesis(l: Leaves, m: GenesisValue, item: Item): Result<GenesisValue> {
    match item
    case Unknown => Ok(m)
    case Scalar(_, value) => Ok(m.(count := value))
    case Payload(num, payload) =>
      if num == 1 then (
        match Unmarshal(ParamsFields(l), m.params, payload)
        case Ok(p) => Ok(m.(params := p))
        case Err(e, p) => Err(e, m.(params := p)))
      else if num == 3 then (
        match DecodeLeaf(l.amount, m.total, payload)
        case Ok(v) => Ok(m.(total := v))
        case Err(e, v) => Err(e, m.(total := v)))
      else (
        match Unmarshal(RecordFields(l), FRESH_RECORD, payload)
        case Ok(r) => Ok(m.(accountTotals := m.accountTotals + [r]))
        case Err(e, r) => Err(e, m.(accountTotals := m.accountTotals + [r])))
  }

  function GenesisFields(l: Leaves): Message<GenesisValue> {
    Message(ItemReader(GENESIS_SCHEMA), (m, item) => ApplyGenesis(l, m, item))
  }

  // ----- encodings, first field first

  function EncodeParams(l: Leaves, p: ParamsValue): bytes {
    PayloadField(0x0a, l.dec.encode(p.feeBurnPercent))
  }

  function EncodeRecord(l: Leaves, r: RecordValue): bytes {
    (if r.address == [] then [] else PayloadField(0x0a, r.address))
    + PayloadField(0x12, l.amount.encode(r.total))
  }

  function EncodeRecords(l: Leaves, rs: seq<RecordValue>): bytes {
    if rs == [] then [] else PayloadField(0x22, EncodeRecord(l, rs[0])) + EncodeRecords(l, rs[1..])
  }

  /** The encoding from field 3 on. */
  function EncodeTotals(l: Leaves, total: Number, rs: seq<RecordValue>): bytes {
    PayloadField(0x1a, l.amount.encode(total)) + EncodeRecords(l, rs)
  }

  /** The encoding from field 2 on; a zero count is left out. */
  function EncodeFromCount(l: Leaves, count: uint64, total: Number, rs: seq<RecordValue>): bytes {
    (if count == 0 then [] else ScalarField(0x10, count)) + EncodeTotals(l, total, rs)
  }

  function EncodeGenesis(l: Leaves, g: GenesisValue): bytes {
    PayloadField(0x0a, EncodeParams(l, g.params)) + EncodeFromCount(l, g.count, g.total, g.accountTotals)
  }

  // ----- sizes, in closed form

  function SizeField(n: nat): nat {
    1 + n + Sov(n)
  }

  function SizeParams(l: Leaves, p: ParamsValue): nat {
    SizeField(|l.dec.encode(p.feeBurnPercent)|)
  }

  function SizeRecord(l: Leaves, r: RecordValue): nat {
    (if |r.address| > 0 then SizeField(|r.address|) else 0) + SizeField(|l.amount.encode(r.total)|)
  }

  function SizeRecords(l: Leaves, rs: seq<RecordValue>): nat {
    if rs == [] then 0 else SizeField(SizeRecord(l, rs[0])) + SizeRecords(l, rs[1..])
  }

  function SizeGenesis(l: Leaves, g: GenesisValue): nat {
    SizeField(SizeParams(l, g.params)) + (if g.count != 0 then 1 + Sov(g.count) else 0)
    + SizeField(|l.amount.encode(g.total)|) + SizeRecords(l, g.accountTotals)
  }

  lemma FieldSizes(tag: byte, payload: bytes, v: nat)
    ensures |PayloadField(tag, payload)| == SizeField(|payload|)
    ensures |ScalarField(tag, v)| == 1 + Sov(v)
  {
    SovIsEncodedLength(|payload|);
    SovIsEncodedLength(v);
  }

  lemma RecordSize(l: Leaves, r: RecordValue)
    ensures SizeRecord(l, r) == |EncodeRecord(l, r)|
  {
    FieldSizes(0x0a, r.address, 0);
    FieldSizes(0x12, l.amount.encode(r.total), 0);
  }

  lemma ParamsSize(l: Leaves, p: ParamsValue)
    ensures SizeParams(l, p) == |EncodeParams(l, p)|
  {
    FieldSizes(0x0a, l.dec.encode(p.feeBurnPercent), 0);
  }

  lemma {:induction false} RecordsSize(l: Leaves, rs: seq<RecordValue>)
    ensures SizeRecords(l, rs) == |EncodeRecords(l, rs)|
  {
    if rs != [] {
      RecordSize(l, rs[0]);
      FieldSizes(0x22, EncodeRecord(l, rs[0]), 0);
      RecordsSize(l, rs[1..]);
    }
  }

  /** The computed size is the length of the encoding. */
  lemma GenesisSize(l: Leaves, g: GenesisValue)
    ensures SizeGenesis(l, g) == |EncodeGenesis(l, g)|
  {
    ParamsSize(l, g.params);
    FieldSizes(0x0a, EncodeParams(l, g.params), g.count);
    FieldSizes(0x1a, l.amount.encode(g.total), 0);
    RecordsSize(l, g.accountTotals);
  }

  // ----- round trips

  lemma ParamsDecodeInto(l: Leaves, m: ParamsValue, p: ParamsValue)
    requires Inverts(l.dec, p.feeBurnPercent) && |EncodeParams(l, p)| < TWO_63
    ensures Unmarshal(ParamsFields(l), m, EncodeParams(l, p)) == Ok(p)
  {
    var payload := l.dec.encode(p.feeBurnPercent);
    assert PayloadField(0x0a, payload) + [] == PayloadField(0x0a, payload);
    DecodePayloadField(PARAMS_SCHEMA, ParamsFields(l), m, 0x0a, payload, []);
  }

  lemma RecordDecodes(l: Leaves, r: RecordValue)
    requires Inverts(l.amount, r.total) && |EncodeRecord(l, r)| < TWO_63
    ensures Unmarshal(RecordFields(l), FRESH_RECORD, EncodeRecord(l, r)) == Ok(r)
  {
    var payload := l.amount.encode(r.total);
    var last := PayloadField(0x12, payload);
    var m := RecordValue(r.address, Nil);
    assert last + [] == last;
    DecodePayloadField(RECORD_SCHEMA, RecordFields(l), m, 0x12, payload, []);
    if r.address == [] {
      assert EncodeRecord(l, r) == last;
    } else {
      DecodePayloadField(RECORD_SCHEMA, RecordFields(l), FRESH_RECORD, 0x0a, r.address, last);
    }
  }

  ghost predicate RecordsInvert(l: Leaves, rs: seq<RecordValue>) {
    forall i | 0 <= i < |rs| :: Inverts(l.amount, rs[i].total)
  }

  lemma RecordDecodesInto(l: Leaves, m: GenesisValue, r: RecordValue, rest: bytes)
    requires Inverts(l.amount, r.total) && |PayloadField(0x22, EncodeRecord(l, r)) + rest| < TWO_63
    ensures SameOutcome(Unmarshal(GenesisFields(l), m, PayloadField(0x22, EncodeRecord(l, r)) + rest),
                        Unmarshal(GenesisFields(l), Append(m, [r]), rest))
  {
    RecordDecodes(l, r);
    DecodePayloadField(GENESIS_SCHEMA, GenesisFields(l), m, 0x22, EncodeRecord(l, r), rest);
  }

  function Append(m: GenesisValue, rs: seq<RecordValue>): GenesisValue {
    m.(accountTotals := m.accountTotals + rs)
  }

  lemma {:induction false} RecordsDecodeInto(l: Leaves, m: GenesisValue, rs: seq<RecordValue>)
    requires RecordsInvert(l, rs) && |EncodeRecords(l, rs)| < TWO_63
    ensures Unmarshal(GenesisFields(l), m, EncodeRecords(l, rs)) == Ok(Append(m, rs))
    decreases |rs|
  {
    if rs == [] {
      assert m.accountTotals + rs == m.accountTotals;
    } else {
      RecordDecodesInto(l, m, rs[0], EncodeRecords(l, rs[1..]));
      RecordsDecodeInto(l, Append(m, [rs[0]]), rs[1..]);
      AppendAppend(m, rs);
    }
  }

  lemma AppendAppend(m: GenesisValue, rs: seq<RecordValue>)
    requires rs != []
    ensures Append(Append(m, [rs[0]]), rs[1..]) == Append(m, rs)
  {
  }

  /** What decoding g's encoding into m gives: scalars and submessages overwritten, records appended, a zero count absent. */
  function Merged(m: GenesisValue, g: GenesisValue): GenesisValue {
    GenesisValue(g.params, if g.count == 0 then m.count else g.count, g.total, m.accountTotals + g.accountTotals)
  }

  ghost predicate GenesisInverts(l: Leaves, g: GenesisValue) {
    Inverts(l.dec, g.params.feeBurnPercent) && Inverts(l.amount, g.total) && RecordsInvert(l, g.accountTotals)
  }

  lemma TotalsDecodeInto(l: Leaves, m: GenesisValue, total: Number, rs: seq<RecordValue>)
    requires Inverts(l.amount, total) && RecordsInvert(l, rs) && |EncodeTotals(l, total, rs)| < TWO_63
    ensures Unmarshal(GenesisFields(l), m, EncodeTotals(l, total, rs)) == Ok(Append(m.(total := total), rs))
  {
    DecodePayloadField(GENESIS_SCHEMA, GenesisFields(l), m, 0x1a, l.amount.encode(total), EncodeRecords(l, rs));
    RecordsDecodeInto(l, m.(total := total), rs);
  }

  lemma FromCountDecodesInto(l: Leaves, m: GenesisValue, count: uint64, total: Number, rs: seq<RecordValue>)
    requires Inverts(l.amount, total) && RecordsInvert(l, rs) && |EncodeFromCount(l, count, total, rs)| < TWO_63
    ensures Unmarshal(GenesisFields(l), m, EncodeFromCount(l, count, total, rs))
         == Ok(Append(m.(count := if count == 0 then m.count else count, total := total), rs))
  {
    var tail := EncodeTotals(l, total, rs);
    if count == 0 {
      assert EncodeFromCount(l, count, total, rs) == tail;
      TotalsDecodeInto(l, m, total, rs);
    } else {
      DecodeScalarField(GENESIS_SCHEMA, GenesisFields(l), m, 0x10, count, tail);
      TotalsDecodeInto(l, m.(count := count), total, rs);
    }
  }

  lemma GenesisDecodesInto(l: Leaves, m: GenesisValue, g: GenesisValue)
    requires GenesisInverts(l, g) && |EncodeGenesis(l, g)| < TWO_63
    ensures Unmarshal(GenesisFields(l), m, EncodeGenesis(l, g)) == Ok(Merged(m, g))
  {
    var tail := EncodeFromCount(l, g.count, g.total, g.accountTotals);
    ParamsDecodeInto(l, m.params, g.params);
    DecodePayloadField(GENESIS_SCHEMA, GenesisFields(l), m, 0x0a, EncodeParams(l, g.params), tail);
    FromCountDecodesInto(l, m.(params := g.params), g.count, g.total, g.accountTotals);
  }

  /** Unmarshal of Marshal into a fresh message gives the message back, record order included. */
  lemma GenesisRoundTrip(l: Leaves, g: GenesisValue)
    requires GenesisInverts(l, g) && |EncodeGenesis(l, g)| < TWO_63
    ensures Unmarshal(GenesisFields(l), FRESH_GENESIS, EncodeGenesis(l, g)) == Ok(g)
  {
    GenesisDecodesInto(l, FRESH_GENESIS, g);
    assert [] + g.accountTotals == g.accountTotals;
  }

  /** The bytes determine the message. */
  lemma GenesisEncodingInjective(l: Leaves, g: GenesisValue, h: GenesisValue)
    requires GenesisInverts(l, g) && GenesisInverts(l, h) && |EncodeGenesis(l, g)| < TWO_63
    requires EncodeGenesis(l, g) == EncodeGenesis(l, h)
    ensures g == h
  {
    GenesisRoundTrip(l, g);
    GenesisRoundTrip(l, h);
  }

  /** Concatenated encodings decode to the merged message. */
  lemma ConcatenationMerges(l: Leaves, g: GenesisValue, h: GenesisValue)
    requires GenesisInverts(l, g) && GenesisInverts(l, h)
    requires |EncodeGenesis(l, g) + EncodeGenesis(l, h)| < TWO_63
    ensures Unmarshal(GenesisFields(l), FRESH_GENESIS, EncodeGenesis(l, g) + EncodeGenesis(l, h)) == Ok(Merged(g, h))
  {
    GenesisRoundTrip(l, g);
    GenesisDecodesInto(l, g, h);
    ItemReaderLocal(GENESIS_SCHEMA);
    MergeLaw(GenesisFields(l), FRESH_GENESIS, EncodeGenesis(l, g), EncodeGenesis(l, h));
  }

  // ----- unknown fields

  /** An unlisted field between two fields of a genesis message changes nothing. */
  lemma UnknownFieldInGenesis(l: Leaves, m: GenesisValue, a: bytes, f: Field, b: bytes)
    requires WellFormed(f) && Unlisted(GENESIS_SCHEMA, f)
    requires |a + (Print(f) + b)| < TWO_63 && Unmarshal(GenesisFields(l), m, a).Ok?
    ensures SameOutcome(Unmarshal(GenesisFields(l), m, a + (Print(f) + b)), Unmarshal(GenesisFields(l), m, a + b))
  {
    UnknownFieldIgnored(GENESIS_SCHEMA, GenesisFields(l), m, a, f, b);
  }

  /** Record payloads that decode alike are interchangeable inside a genesis message. */
  lemma RecordPayloadsInterchange(l: Leaves, m: GenesisValue, x: bytes, p: bytes, q: bytes, y: bytes)
    requires |x| + |PayloadField(0x22, p)| + |y| < TWO_63 && |x| + |PayloadField(0x22, q)| + |y| < TWO_63
    requires Unmarshal(GenesisFields(l), m, x).Ok?
    requires SameOutcome(Unmarshal(RecordFields(l), FRESH_RECORD, p), Unmarshal(RecordFields(l), FRESH_RECORD, q))
    ensures SameOutcome(Unmarshal(GenesisFields(l), m, x + (PayloadField(0x22, p) + y)),
                        Unmarshal(GenesisFields(l), m, x + (PayloadField(0x22, q) + y)))
  {
    var d, m' := GenesisFields(l), Unmarshal(GenesisFields(l), m, x).value;
    ItemReaderLocal(GENESIS_SCHEMA);
    MergeLaw(d, m, x, PayloadField(0x22, p) + y);
    MergeLaw(d, m, x, PayloadField(0x22, q) + y);
    DecodePayloadField(GENESIS_SCHEMA, d, m', 0x22, p, y);
    DecodePayloadField(GENESIS_SCHEMA, d, m', 0x22, q, y);
  }

  /** Nor does one between two fields of a nested record whose length prefix is written anew. */
  lemma UnknownFieldInRecord(l: Leaves, m: GenesisValue, x: bytes, a: bytes, f: Field, b: bytes, y: bytes)
    requires WellFormed(f) && Unlisted(RECORD_SCHEMA, f)
    requires |x| + |PayloadField(0x22, a + (Print(f) + b))| + |y| < TWO_63
    requires |x| + |PayloadField(0x22, a + b)| + |y| < TWO_63
    requires Unmarshal(GenesisFields(l), m, x).Ok? && Unmarshal(RecordFields(l), FRESH_RECORD, a).Ok?
    ensures SameOutcome(Unmarshal(GenesisFields(l), m, x + (PayloadField(0x22, a + (Print(f) + b)) + y)),
                        Unmarshal(GenesisFields(l), m, x + (PayloadField(0x22, a + b) + y)))
  {
    UnknownFieldIgnored(RECORD_SCHEMA, RecordFields(l), FRESH_RECORD, a, f, b);
    RecordPayloadsInterchange(l, m, x, a + (Print(f) + b), a + b, y);
  }

  /**
    The source truncates field numbers to 32 bits: a field numbered 2^32 + 2, which no message
    lists, is taken for the count. Transparency needs the number to fit.
   */
  lemma WideFieldNumberIsTruncated(l: Leaves)
    ensures Unmarshal(GenesisFields(l), FRESH_GENESIS, EncodeVarint((TWO_32 + 2) * 8) + [5])
         == Ok(FRESH_GENESIS.(count := 5))
  {
    var tag := (TWO_32 + 2) * 8;
    var s := EncodeVarint(tag) + [5];
    VarintRoundTrip(tag, [5]);
    assert s[|EncodeVarint(tag)|..] == [5];
    VarintRoundTrip(5, []);
    assert EncodeVarint(5) + [] == [5];
    assert ToInt32(tag / 8) == 2;
    var d := GenesisFields(l);
    assert d.read(s, 0) == ItemRead(Scalar(2, 5), |s|);
    assert s[|s|..] == [];
    assert Decode(d, FRESH_GENESIS.(count := 5), s[|s|..], |s|) == Ok(FRESH_GENESIS.(count := 5));
  }
}
