/**
  The genesis messages as the objects the generated code works on: Unmarshal assigns their
  fields, MarshalToSizedBuffer fills a buffer from the back. Each method is proved against the
  value-level functions of BurnMessages.
 */
module GenesisCodec {
  import opened Basics
  import opened Wire
  import opened Fields
  import opened BurnMessages
  import opened Codec

  class Params {
    var feeBurnPercent: Number

    ghost function Value(): ParamsValue
      reads this
    {
      ParamsValue(feeBurnPercent)
    }

    constructor (v: ParamsValue)
      ensures Value() == v
    {
      feeBurnPercent := v.feeBurnPercent;
    }

    /** The body of the switch. */
    method Apply(l: Leaves, item: Item) returns (err: Option<Error>)
      modifies this
      ensures match ApplyParams(l, old(Value()), item)
              case Ok(p) => err == None && Value() == p
              case Err(e, left) => err == Some(e) && Value() == left
    {
      err := None;
      match item
      case Payload(_, payload) =>
        var v := l.dec.decode(feeBurnPercent, payload);
        feeBurnPercent := if v.Some? then v.value else l.dec.spoil(feeBurnPercent, payload);
        err := if v.Some? then None else Some(LeafRejected);
      case _ =>
    }

    /** One turn of the loop once the field at iNdEx is read. */
    method Turn(ghost d: Message<ParamsValue>, l: Leaves, dAtA: bytes, iNdEx: nat, field: ItemResult)
      returns (next: nat, err: Option<Error>)
      requires Continues(d, Value(), dAtA, iNdEx, field) && Bounded(field)
      requires forall m, item :: d.apply(m, item) == ApplyParams(l, m, item)
      modifies this
      ensures err.Some? ==> Decode(d, old(Value()), dAtA[iNdEx..], iNdEx) == Err(err.value, Value())
      ensures err.None? ==> iNdEx < next <= |dAtA|
      ensures err.None? ==> Decode(d, old(Value()), dAtA[iNdEx..], iNdEx) == Decode(d, Value(), dAtA[next..], next)
    {
      next := iNdEx;
      if field.NoItem? {
        err := Apply(l, field.partial);
        return next, Some(field.error);
      }
      err := Apply(l, field.item);
      next := iNdEx + field.len;
    }

    method Unmarshal(l: Leaves, dAtA: bytes) returns (err: Option<Error>)
      requires |dAtA| < TWO_63
      modifies this
      ensures match Fields.Unmarshal(ParamsFields(l), old(Value()), dAtA)
              case Ok(m) => err == None && Value() == m
              case Err(e, left) => err == Some(e) && Value() == left
    {
      err := None;
      var iNdEx := 0;
      while iNdEx < |dAtA|
        invariant 0 <= iNdEx <= |dAtA| && err == None
        invariant Decode(ParamsFields(l), Value(), dAtA[iNdEx..], iNdEx)
               == Fields.Unmarshal(ParamsFields(l), old(Value()), dAtA)
        decreases |dAtA| - iNdEx
      {
        var field := TakeField(ParamsFields(l), Value(), PARAMS_SCHEMA, dAtA, iNdEx);
        iNdEx, err := Turn(ParamsFields(l), l, dAtA, iNdEx, field);
        if err.Some? {
          return;
        }
      }
    }

    /** Fills the buffer up to index `end` from the back; the number of bytes written. */
    method MarshalToSizedBuffer(l: Leaves, dAtA: array<byte>, end: nat) returns (n: nat)
      requires SizeParams(l, Value()) <= end <= dAtA.Length < TWO_63
      modifies dAtA
      ensures n == SizeParams(l, Value()) == |EncodeParams(l, Value())|
      ensures Filled(old(dAtA[..]), dAtA[..], end, EncodeParams(l, Value()))
    {
      ParamsSize(l, Value());
      n := PutPayload(dAtA, end, 0x0a, l.dec.encode(feeBurnPercent));
    }
  }

  class AccountBurnRecord {
    var address: bytes
    var total: Number

    ghost function Value(): RecordValue
      reads this
    {
      RecordValue(address, total)
    }

    constructor (v: RecordValue)
      ensures Value() == v
    {
      address, total := v.address, v.total;
    }

    method Apply(l: Leaves, item: Item) returns (err: Option<Error>)
      modifies this
      ensures match ApplyRecord(l, old(Value()), item)
              case Ok(r) => err == None && Value() == r
              case Err(e, left) => err == Some(e) && Value() == left
    {
      err := None;
      match item
      case Payload(num, payload) =>
        if num == 1 {
          address := payload;
        } else {
          var v := l.amount.decode(total, payload);
          total := if v.Some? then v.value else l.amount.spoil(total, payload);
          err := if v.Some? then None else Some(LeafRejected);
        }
      case _ =>
    }

    /** One turn of the loop once the field at iNdEx is read. */
    method Turn(ghost d: Message<RecordValue>, l: Leaves, dAtA: bytes, iNdEx: nat, field: ItemResult)
      returns (next: nat, err: Option<Error>)
      requires Continues(d, Value(), dAtA, iNdEx, field) && Bounded(field)
      requires forall m, item :: d.apply(m, item) == ApplyRecord(l, m, item)
      modifies this
      ensures err.Some? ==> Decode(d, old(Value()), dAtA[iNdEx..], iNdEx) == Err(err.value, Value())
      ensures err.None? ==> iNdEx < next <= |dAtA|
      ensures err.None? ==> Decode(d, old(Value()), dAtA[iNdEx..], iNdEx) == Decode(d, Value(), dAtA[next..], next)
    {
      next := iNdEx;
      if field.NoItem? {
        err := Apply(l, field.partial);
        return next, Some(field.error);
      }
      err := Apply(l, field.item);
      next := iNdEx + field.len;
    }

    method Unmarshal(l: Leaves, dAtA: bytes) returns (err: Option<Error>)
      requires |dAtA| < TWO_63
      modifies this
      ensures match Fields.Unmarshal(RecordFields(l), old(Value()), dAtA)
              case Ok(m) => err == None && Value() == m
              case Err(e, left) => err == Some(e) && Value() == left
    {
      err := None;
      var iNdEx := 0;
      while iNdEx < |dAtA|
        invariant 0 <= iNdEx <= |dAtA| && err == None
        invariant Decode(RecordFields(l), Value(), dAtA[iNdEx..], iNdEx)
               == Fields.Unmarshal(RecordFields(l), old(Value()), dAtA)
        decreases |dAtA| - iNdEx
      {
        var field := TakeField(RecordFields(l), Value(), RECORD_SCHEMA, dAtA, iNdEx);
        iNdEx, err := Turn(RecordFields(l), l, dAtA, iNdEx, field);
        if err.Some? {
          return;
        }
      }
    }

    method MarshalToSizedBuffer(l: Leaves, dAtA: array<byte>, end: nat) returns (n: nat)
      requires SizeRecord(l, Value()) <= end <= dAtA.Length < TWO_63
      modifies dAtA
      ensures n == SizeRecord(l, Value()) == |EncodeRecord(l, Value())|
      ensures Filled(old(dAtA[..]), dAtA[..], end, EncodeRecord(l, Value()))
    {
      ghost var before := dAtA[..];
      ghost var last := PayloadField(0x12, l.amount.encode(total));
      RecordSize(l, Value());
      n := PutPayload(dAtA, end, 0x12, l.amount.encode(total));
      if |address| > 0 {
        ghost var middle := dAtA[..];
        var m := PutPayload(dAtA, end - n, 0x0a, address);
        FilledBefore(before, middle, dAtA[..], end, last, PayloadField(0x0a, address));
        n := n + m;
      } else {
        assert EncodeRecord(l, Value()) == last;
      }
    }
  }

  class GenesisState {
    var params: ParamsValue
    var count: uint64
    var total: Number
    var accountTotals: seq<RecordValue>

    ghost function Value(): GenesisValue
      reads this
    {
      GenesisValue(params, count, total, accountTotals)
    }

    constructor (v: GenesisValue)
      ensures Value() == v
    {
      params, count, total, accountTotals := v.params, v.count, v.total, v.accountTotals;
    }

    method Apply(l: Leaves, item: Item) returns (err: Option<Error>)
      requires Bounded(ItemRead(item, 1))
      modifies this
      ensures match ApplyGenesis(l, old(Value()), item)
              case Ok(g) => err == None && Value() == g
              case Err(e, left) => err == Some(e) && Value() == left
    {
      err := None;
      match item
      case Unknown =>
      case Scalar(_, value) =>
        count := value;
      case Payload(num, payload) =>
        if num == 1 {
          var p := new Params(params);
          err := p.Unmarshal(l, payload);
          params := ParamsValue(p.feeBurnPercent);
        } else if num == 3 {
          var v := l.amount.decode(total, payload);
          total := if v.Some? then v.value else l.amount.spoil(total, payload);
          err := if v.Some? then None else Some(LeafRejected);
        } else {
          var r := new AccountBurnRecord(FRESH_RECORD);
          err := r.Unmarshal(l, payload);
          accountTotals := accountTotals + [RecordValue(r.address, r.total)];
        }
    }

    /** One turn of the loop once the field at iNdEx is read. */
    method Turn(ghost d: Message<GenesisValue>, l: Leaves, dAtA: bytes, iNdEx: nat, field: ItemResult)
      returns (next: nat, err: Option<Error>)
      requires Continues(d, Value(), dAtA, iNdEx, field) && Bounded(field)
      requires forall m, item :: d.apply(m, item) == ApplyGenesis(l, m, item)
      modifies this
      ensures err.Some? ==> Decode(d, old(Value()), dAtA[iNdEx..], iNdEx) == Err(err.value, Value())
      ensures err.None? ==> iNdEx < next <= |dAtA|
      ensures err.None? ==> Decode(d, old(Value()), dAtA[iNdEx..], iNdEx) == Decode(d, Value(), dAtA[next..], next)
    {
      next := iNdEx;
      if field.NoItem? {
        err := Apply(l, field.partial);
        return next, Some(field.error);
      }
      err := Apply(l, field.item);
      next := iNdEx + field.len;
    }

    method Unmarshal(l: Leaves, dAtA: bytes) returns (err: Option<Error>)
      requires |dAtA| < TWO_63
      modifies this
      ensures match Fields.Unmarshal(GenesisFields(l), old(Value()), dAtA)
              case Ok(m) => err == None && Value() == m
              case Err(e, left) => err == Some(e) && Value() == left
    {
      err := None;
      var iNdEx := 0;
      while iNdEx < |dAtA|
        invariant 0 <= iNdEx <= |dAtA| && err == None
        invariant Decode(GenesisFields(l), Value(), dAtA[iNdEx..], iNdEx)
               == Fields.Unmarshal(GenesisFields(l), old(Value()), dAtA)
        decreases |dAtA| - iNdEx
      {
        var field := TakeField(GenesisFields(l), Value(), GENESIS_SCHEMA, dAtA, iNdEx);
        iNdEx, err := Turn(GenesisFields(l), l, dAtA, iNdEx, field);
        if err.Some? {
          return;
        }
      }
    }

    method MarshalToSizedBuffer(l: Leaves, dAtA: array<byte>, end: nat) returns (n: nat)
      requires SizeGenesis(l, Value()) <= end <= dAtA.Length < TWO_63
      modifies dAtA
      ensures n == SizeGenesis(l, Value()) == |EncodeGenesis(l, Value())|
      ensures Filled(old(dAtA[..]), dAtA[..], end, EncodeGenesis(l, Value()))
    {
      ghost var before := dAtA[..];
      GenesisSize(l, Value());
      n := PutFromCount(l, count, total, accountTotals, dAtA, end);
      ghost var middle := dAtA[..];
      var m := PutParams(l, params, dAtA, end - n);
      FilledBefore(before, middle, dAtA[..], end, EncodeFromCount(l, count, total, accountTotals),
                   PayloadField(0x0a, EncodeParams(l, params)));
      n := n + m;
    }

    /** Marshal returns a buffer that is filled completely. */
    method Marshal(l: Leaves) returns (dAtA: array<byte>)
      requires SizeGenesis(l, Value()) < TWO_63
      ensures fresh(dAtA) && dAtA[..] == EncodeGenesis(l, Value())
    {
      dAtA := new byte[SizeGenesis(l, GenesisValue(params, count, total, accountTotals))];
      var n := MarshalToSizedBuffer(l, dAtA, dAtA.Length);
    }
  }

  /** Fields 3 and 4. */
  method PutTotals(l: Leaves, total: Number, rs: seq<RecordValue>, dAtA: array<byte>, end: nat) returns (n: nat)
    requires |EncodeTotals(l, total, rs)| <= end <= dAtA.Length < TWO_63
    modifies dAtA
    ensures n == |EncodeTotals(l, total, rs)|
    ensures Filled(old(dAtA[..]), dAtA[..], end, EncodeTotals(l, total, rs))
  {
    ghost var before := dAtA[..];
    n := PutRecords(l, rs, dAtA, end);
    ghost var middle := dAtA[..];
    var m := PutPayload(dAtA, end - n, 0x1a, l.amount.encode(total));
    FilledBefore(before, middle, dAtA[..], end, EncodeRecords(l, rs), PayloadField(0x1a, l.amount.encode(total)));
    n := n + m;
  }

  /** Fields 2 to 4; a zero count is left out. */
  method PutFromCount(l: Leaves, count: uint64, total: Number, rs: seq<RecordValue>, dAtA: array<byte>, end: nat)
    returns (n: nat)
    requires |EncodeFromCount(l, count, total, rs)| <= end <= dAtA.Length < TWO_63
    modifies dAtA
    ensures n == |EncodeFromCount(l, count, total, rs)|
    ensures Filled(old(dAtA[..]), dAtA[..], end, EncodeFromCount(l, count, total, rs))
  {
    ghost var before, written := dAtA[..], EncodeTotals(l, total, rs);
    n := PutTotals(l, total, rs, dAtA, end);
    if count != 0 {
      ghost var middle := dAtA[..];
      SovIsEncodedLength(count);
      var i := PutHeader(dAtA, end - n, 0x10, count);
      FilledBefore(before, middle, dAtA[..], end, written, ScalarField(0x10, count));
      n := end - i;
    } else {
      assert EncodeFromCount(l, count, total, rs) == written;
    }
  }

  /** The records as fields 4, last record first. */
  method PutRecords(l: Leaves, rs: seq<RecordValue>, dAtA: array<byte>, end: nat) returns (n: nat)
    requires |EncodeRecords(l, rs)| <= end <= dAtA.Length < TWO_63
    modifies dAtA
    ensures n == |EncodeRecords(l, rs)|
    ensures Filled(old(dAtA[..]), dAtA[..], end, EncodeRecords(l, rs))
  {
    ghost var before := dAtA[..];
    n := 0;
    var iNdEx := |rs|;
    assert rs[iNdEx..] == [];
    while iNdEx > 0
      invariant 0 <= iNdEx <= |rs|
      invariant n == |EncodeRecords(l, rs[iNdEx..])|
      invariant Filled(before, dAtA[..], end, EncodeRecords(l, rs[iNdEx..]))
    {
      iNdEx := iNdEx - 1;
      RecordsSuffix(l, rs, iNdEx);
      n := PutNextRecord(l, rs, iNdEx, dAtA, end, n, before);
    }
    assert rs[0..] == rs;
  }

  /** Puts record k in front of those after it; the length of them all. */
  method PutNextRecord(l: Leaves, rs: seq<RecordValue>, k: nat, dAtA: array<byte>, end: nat, size: nat, ghost before: bytes)
    returns (n: nat)
    requires k < |rs| && |EncodeRecords(l, rs[k..])| <= end <= dAtA.Length < TWO_63
    requires size == |EncodeRecords(l, rs[k + 1..])| && Filled(before, dAtA[..], end, EncodeRecords(l, rs[k + 1..]))
    modifies dAtA
    ensures n == |EncodeRecords(l, rs[k..])| && Filled(before, dAtA[..], end, EncodeRecords(l, rs[k..]))
  {
    ghost var middle := dAtA[..];
    assert rs[k..][1..] == rs[k + 1..];
    var m := PutRecord(l, rs[k], dAtA, end - size);
    FilledBefore(before, middle, dAtA[..], end, EncodeRecords(l, rs[k + 1..]), PayloadField(0x22, EncodeRecord(l, rs[k])));
    n := size + m;
  }

  /** The records from index k on take no more room than all of them. */
  lemma {:induction false} RecordsSuffix(l: Leaves, rs: seq<RecordValue>, k: nat)
    requires k <= |rs|
    ensures |EncodeRecords(l, rs[k..])| <= |EncodeRecords(l, rs)|
  {
    if k > 0 {
      RecordsSuffix(l, rs[1..], k - 1);
      assert rs[1..][k - 1..] == rs[k..];
    } else {
      assert rs[0..] == rs;
    }
  }

  method PutRecord(l: Leaves, r: RecordValue, dAtA: array<byte>, end: nat) returns (n: nat)
    requires |PayloadField(0x22, EncodeRecord(l, r))| <= end <= dAtA.Length < TWO_63
    modifies dAtA
    ensures n == |PayloadField(0x22, EncodeRecord(l, r))|
    ensures Filled(old(dAtA[..]), dAtA[..], end, PayloadField(0x22, EncodeRecord(l, r)))
  {
    ghost var before := dAtA[..];
    RecordSize(l, r);
    var record := new AccountBurnRecord(r);
    var size := record.MarshalToSizedBuffer(l, dAtA, end);
    n := PutLength(dAtA, end, 0x22, size, before, EncodeRecord(l, r));
  }

  method PutParams(l: Leaves, p: ParamsValue, dAtA: array<byte>, end: nat) returns (n: nat)
    requires |PayloadField(0x0a, EncodeParams(l, p))| <= end <= dAtA.Length < TWO_63
    modifies dAtA
    ensures n == |PayloadField(0x0a, EncodeParams(l, p))|
    ensures Filled(old(dAtA[..]), dAtA[..], end, PayloadField(0x0a, EncodeParams(l, p)))
  {
    ghost var before := dAtA[..];
    ParamsSize(l, p);
    var params := new Params(p);
    var size := params.MarshalToSizedBuffer(l, dAtA, end);
    n := PutLength(dAtA, end, 0x0a, size, before, EncodeParams(l, p));
  }
}
