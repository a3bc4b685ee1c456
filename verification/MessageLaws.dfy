/**
  What each field of the genesis messages does to the message it is decoded into, whatever its
  payload; how embedded messages merge; and sample bytes of the encoding.
 */
module MessageLaws {
  import opened Basics
  import opened Wire
  import opened Skip
  import opened Fields
  import opened BurnMessages
  import opened Entries
  import opened Refusals

  // ----- single fields

  /** The percentage is decoded over the present one; a failure leaves what the leaf type leaves. */
  lemma PercentField(l: Leaves, m: ParamsValue, p: bytes)
    requires |PayloadField(0x0a, p)| < TWO_63
    ensures Unmarshal(ParamsFields(l), m, PayloadField(0x0a, p))
         == match l.dec.decode(m.feeBurnPercent, p)
            case Some(v) => Ok(ParamsValue(v))
            case None => Err(LeafRejected, ParamsValue(l.dec.spoil(m.feeBurnPercent, p)))
  {
    DecodePayloadField(PARAMS_SCHEMA, ParamsFields(l), m, 0x0a, p, []);
    assert PayloadField(0x0a, p) + [] == PayloadField(0x0a, p);
  }

  /** An address replaces the present one, also an empty one. */
  lemma AddressField(l: Leaves, m: RecordValue, p: bytes)
    requires |PayloadField(0x0a, p)| < TWO_63
    ensures Unmarshal(RecordFields(l), m, PayloadField(0x0a, p)) == Ok(RecordValue(p, m.total))
  {
    DecodePayloadField(RECORD_SCHEMA, RecordFields(l), m, 0x0a, p, []);
    assert PayloadField(0x0a, p) + [] == PayloadField(0x0a, p);
  }

  lemma RecordTotalField(l: Leaves, m: RecordValue, p: bytes)
    requires |PayloadField(0x12, p)| < TWO_63
    ensures Unmarshal(RecordFields(l), m, PayloadField(0x12, p))
         == match l.amount.decode(m.total, p)
            case Some(v) => Ok(RecordValue(m.address, v))
            case None => Err(LeafRejected, RecordValue(m.address, l.amount.spoil(m.total, p)))
  {
    DecodePayloadField(RECORD_SCHEMA, RecordFields(l), m, 0x12, p, []);
    assert PayloadField(0x12, p) + [] == PayloadField(0x12, p);
  }

  /** Parameters are decoded into the present ones, on failure as far as it got. */
  lemma ParamsField(l: Leaves, m: GenesisValue, p: bytes)
    requires |PayloadField(0x0a, p)| < TWO_63
    ensures Unmarshal(GenesisFields(l), m, PayloadField(0x0a, p))
         == match Unmarshal(ParamsFields(l), m.params, p)
            case Ok(v) => Ok(GenesisValue(v, m.count, m.total, m.accountTotals))
            case Err(e, v) => Err(e, GenesisValue(v, m.count, m.total, m.accountTotals))
  {
    DecodePayloadField(GENESIS_SCHEMA, GenesisFields(l), m, 0x0a, p, []);
    assert PayloadField(0x0a, p) + [] == PayloadField(0x0a, p);
  }

  /** A count replaces the present one, also a zero that no encoder writes. */
  lemma CountField(l: Leaves, m: GenesisValue, v: uint64)
    requires |ScalarField(0x10, v)| < TWO_63
    ensures Unmarshal(GenesisFields(l), m, ScalarField(0x10, v)) == Ok(GenesisValue(m.params, v, m.total, m.accountTotals))
  {
    DecodeScalarField(GENESIS_SCHEMA, GenesisFields(l), m, 0x10, v, []);
    assert ScalarField(0x10, v) + [] == ScalarField(0x10, v);
  }

  lemma TotalField(l: Leaves, m: GenesisValue, p: bytes)
    requires |PayloadField(0x1a, p)| < TWO_63
    ensures Unmarshal(GenesisFields(l), m, PayloadField(0x1a, p))
         == match l.amount.decode(m.total, p)
            case Some(v) => Ok(GenesisValue(m.params, m.count, v, m.accountTotals))
            case None => Err(LeafRejected, GenesisValue(m.params, m.count, l.amount.spoil(m.total, p), m.accountTotals))
  {
    DecodePayloadField(GENESIS_SCHEMA, GenesisFields(l), m, 0x1a, p, []);
    assert PayloadField(0x1a, p) + [] == PayloadField(0x1a, p);
  }

  /** A record is decoded into an empty one behind the present ones; a failed one stays. */
  lemma RecordField(l: Leaves, m: GenesisValue, p: bytes)
    requires |PayloadField(0x22, p)| < TWO_63
    ensures Unmarshal(GenesisFields(l), m, PayloadField(0x22, p))
         == match Unmarshal(RecordFields(l), RecordValue([], Nil), p)
            case Ok(r) => Ok(GenesisValue(m.params, m.count, m.total, m.accountTotals + [r]))
            case Err(e, r) => Err(e, GenesisValue(m.params, m.count, m.total, m.accountTotals + [r]))
  {
    DecodePayloadField(GENESIS_SCHEMA, GenesisFields(l), m, 0x22, p, []);
    assert PayloadField(0x22, p) + [] == PayloadField(0x22, p);
  }

  /** A count that breaks off is left as far as it was read. */
  lemma CountBreaksOff(l: Leaves, m: GenesisValue, t: bytes, e: Wire.Error, v: uint64)
    requires ReadVarint(t) == NoVarint(e, v)
    ensures Unmarshal(GenesisFields(l), m, [0x10] + t) == Err(e, GenesisValue(m.params, v, m.total, m.accountTotals))
  {
    assert Announces([0x10], 2, 0) by { ReadTagByte(0x10, []); }
    ScalarRefused(GENESIS_SCHEMA, [0x10], 2, t, 0, e, v);
    RefusedAt(GenesisFields(l), m, [0x10] + t, 0, e, Scalar(2, v));
  }

  /** The field numbers that are not listed. */
  lemma UnlistedNumbers(f: Field)
    ensures Unlisted(PARAMS_SCHEMA, f) <==> FieldNumber(f) > 1
    ensures Unlisted(RECORD_SCHEMA, f) <==> FieldNumber(f) > 2
    ensures Unlisted(GENESIS_SCHEMA, f) <==> FieldNumber(f) > 4
  {
  }

  /** A field number whose low 32 bits are zero, or negative as an int32, is refused. */
  lemma HugeFieldNumberIsIllegal(l: Leaves, m: GenesisValue, tag: bytes, rest: bytes, low: int)
    requires IsVarint(tag) && VarintValue(tag) % 8 != 4
    requires low == VarintValue(tag) / 8 % 0x1_0000_0000 && (low == 0 || low >= 0x8000_0000)
    ensures Unmarshal(GenesisFields(l), m, tag + rest) == Err(IllegalTag, m)
  {
    TagRefused(GENESIS_SCHEMA, tag, ToInt32(VarintValue(tag) / 8), VarintValue(tag) % 8, rest, 0);
    RefusedAt(GenesisFields(l), m, tag + rest, 0, IllegalTag, Unknown);
  }

  // ----- embedded messages

  /** Last One Wins for the embedded parameters: two payloads in two fields are their concatenation in one. */
  lemma EmbeddedParamsMerge(l: Leaves, m: GenesisValue, p: bytes, q: bytes)
    requires Unmarshal(ParamsFields(l), m.params, p).Ok?
    requires |PayloadField(0x0a, p) + PayloadField(0x0a, q)| < TWO_63 && |PayloadField(0x0a, p + q)| < TWO_63
    ensures SameOutcome(Unmarshal(GenesisFields(l), m, PayloadField(0x0a, p) + PayloadField(0x0a, q)),
                        Unmarshal(GenesisFields(l), m, PayloadField(0x0a, p + q)))
  {
    var m' := m.(params := Unmarshal(ParamsFields(l), m.params, p).value);
    ParamsField(l, m, p);
    ParamsField(l, m', q);
    ParamsField(l, m, p + q);
    ItemReaderLocal(GENESIS_SCHEMA);
    ItemReaderLocal(PARAMS_SCHEMA);
    MergeLaw(GenesisFields(l), m, PayloadField(0x0a, p), PayloadField(0x0a, q));
    MergeLaw(ParamsFields(l), m.params, p, q);
  }

  /** An embedded message with no field set, or only unlisted ones, keeps the present one. */
  lemma EmbeddedUnknownKeepsParams(l: Leaves, m: GenesisValue, f: Field)
    requires WellFormed(f) && Unlisted(PARAMS_SCHEMA, f) && |PayloadField(0x0a, Print(f))| < TWO_63
    ensures Unmarshal(GenesisFields(l), m, PayloadField(0x0a, [])) == Ok(m)
    ensures Unmarshal(GenesisFields(l), m, PayloadField(0x0a, Print(f))) == Ok(m)
  {
    ParamsField(l, m, []);
    ParamsField(l, m, Print(f));
    UnknownFieldIgnored(PARAMS_SCHEMA, ParamsFields(l), m.params, [], f, []);
    assert [] + (Print(f) + []) == Print(f);
  }

  /** Records do not merge: each field is a record of its own, decoded alone. */
  lemma RecordsStaySeparate(l: Leaves, m: GenesisValue, p: bytes, q: bytes)
    requires Unmarshal(RecordFields(l), FRESH_RECORD, p).Ok? && Unmarshal(RecordFields(l), FRESH_RECORD, q).Ok?
    requires |PayloadField(0x22, p) + PayloadField(0x22, q)| < TWO_63
    ensures Unmarshal(GenesisFields(l), m, PayloadField(0x22, p) + PayloadField(0x22, q))
         == Ok(m.(accountTotals := m.accountTotals
                    + [Unmarshal(RecordFields(l), FRESH_RECORD, p).value, Unmarshal(RecordFields(l), FRESH_RECORD, q).value]))
  {
    var r, r' := Unmarshal(RecordFields(l), FRESH_RECORD, p).value, Unmarshal(RecordFields(l), FRESH_RECORD, q).value;
    RecordField(l, m, p);
    RecordField(l, Append(m, [r]), q);
    ItemReaderLocal(GENESIS_SCHEMA);
    MergeLaw(GenesisFields(l), m, PayloadField(0x22, p), PayloadField(0x22, q));
    assert m.accountTotals + [r] + [r'] == m.accountTotals + [r, r'];
  }

  // ----- sample bytes

  lemma ShortPayload(tag: byte, payload: bytes)
    requires |payload| < 128
    ensures PayloadField(tag, payload) == [tag, |payload| as byte] + payload
  {
  }

  /** A record leaves out an empty address. */
  lemma AnonymousRecordSample(l: Leaves)
    requires l.amount.encode(Num(7)) == [0x37]
    ensures EncodeRecord(l, RecordValue([], Num(7))) == [0x12, 1, 0x37]
  {
    ShortPayload(0x12, [0x37]);
  }

  lemma RecordSample(l: Leaves)
    requires l.amount.encode(Num(7)) == [0x37]
    ensures EncodeRecords(l, [RecordValue([0x61, 0x62], Num(7))]) == [0x22, 7, 0x0a, 2, 0x61, 0x62, 0x12, 1, 0x37]
  {
    var r := RecordValue([0x61, 0x62], Num(7));
    ShortPayload(0x0a, r.address);
    ShortPayload(0x12, [0x37]);
    assert EncodeRecord(l, r) == [0x0a, 2, 0x61, 0x62, 0x12, 1, 0x37];
    ShortPayload(0x22, EncodeRecord(l, r));
    assert [r][1..] == [];
  }

  lemma CountSample()
    ensures ScalarField(0x10, 300) == [0x10, 0xac, 2]
  {
    assert EncodeVarint(2) == [2] && EncodeVarint(300) == [0xac, 2];
  }

  lemma TotalsSample(l: Leaves, rs: seq<RecordValue>)
    requires l.amount.encode(Num(7)) == [0x37]
    ensures EncodeFromCount(l, 300, Num(7), rs) == [0x10, 0xac, 2] + ([0x1a, 1, 0x37] + EncodeRecords(l, rs))
  {
    CountSample();
    ShortPayload(0x1a, [0x37]);
  }

  lemma ParamsSample(l: Leaves)
    requires l.dec.encode(Num(0)) == [0x30]
    ensures PayloadField(0x0a, EncodeParams(l, ParamsValue(Num(0)))) == [0x0a, 3, 0x0a, 1, 0x30]
  {
    ShortPayload(0x0a, [0x30]);
    ShortPayload(0x0a, [0x0a, 1, 0x30]);
  }

  lemma SampleParts(params: bytes, count: bytes, total: bytes, records: bytes)
    requires params == [0x0a, 3, 0x0a, 1, 0x30] && count == [0x10, 0xac, 2] && total == [0x1a, 1, 0x37]
    requires records == [0x22, 7, 0x0a, 2, 0x61, 0x62, 0x12, 1, 0x37]
    ensures params + (count + (total + records))
         == [0x0a, 3, 0x0a, 1, 0x30, 0x10, 0xac, 2, 0x1a, 1, 0x37, 0x22, 7, 0x0a, 2, 0x61, 0x62, 0x12, 1, 0x37]
  {
  }

  /** A genesis with share 0, count 300, total 7 and one record of account "ab", when the leaf types print digits. */
  lemma GenesisSample(l: Leaves, rs: seq<RecordValue>)
    requires l.dec.encode(Num(0)) == [0x30] && l.amount.encode(Num(7)) == [0x37]
    requires rs == [RecordValue([0x61, 0x62], Num(7))]
    ensures EncodeGenesis(l, GenesisValue(ParamsValue(Num(0)), 300, Num(7), rs))
         == [0x0a, 3, 0x0a, 1, 0x30, 0x10, 0xac, 2, 0x1a, 1, 0x37, 0x22, 7, 0x0a, 2, 0x61, 0x62, 0x12, 1, 0x37]
  {
    ParamsSample(l);
    TotalsSample(l, rs);
    RecordSample(l);
    SampleParts([0x0a, 3, 0x0a, 1, 0x30], [0x10, 0xac, 2], [0x1a, 1, 0x37], EncodeRecords(l, rs));
  }
}
