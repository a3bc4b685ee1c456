/**
  The query messages of the burn module, whose zero and empty fields are left out.

  QueryAccountBurnsRequest (its Address) and QueryAccountBurnsResponse (its Amount) have the
  same generated code, a single string as field 1; AccountBurns stands for both.
 */
module QueryCodec {
  import opened Basics
  import opened Wire
  import opened Fields
  import opened Codec

  datatype BurnStatsValue = BurnStatsValue(totalBurns: uint64, totalBurned: bytes)

  const FRESH_STATS := BurnStatsValue(0, [])
  const STATS_SCHEMA: Schema := map[1 := ScalarKind, 2 := PayloadKind]
  const ACCOUNT_SCHEMA: Schema := map[1 := PayloadKind]

  function ApplyStats(m: BurnStatsValue, item: Item): Result<BurnStatsValue> {
    match item
    case Scalar(_, value) => Ok(m.(totalBurns := value))
    case Payload(_, payload) => Ok(m.(totalBurned := payload))
    case Unknown => Ok(m)
  }

  function StatsFields(): Message<BurnStatsValue> {
    Message(ItemReader(STATS_SCHEMA), (m, item) => ApplyStats(m, item))
  }

  function ApplyAccount(m: bytes, item: Item): Result<bytes> {
    if item.Payload? then Ok(item.bytes) else Ok(m)
  }

  function AccountFields(): Message<bytes> {
    Message(ItemReader(ACCOUNT_SCHEMA), (m, item) => ApplyAccount(m, item))
  }

  /** A string field that is left out when empty. */
  function EncodeString(tag: byte, s: bytes): bytes {
    if s == [] then [] else PayloadField(tag, s)
  }

  function EncodeStats(v: BurnStatsValue): bytes {
    (if v.totalBurns == 0 then [] else ScalarField(0x08, v.totalBurns)) + EncodeString(0x12, v.totalBurned)
  }

  function EncodeAccount(s: bytes): bytes {
    EncodeString(0x0a, s)
  }

  function SizeString(s: bytes): nat {
    if |s| > 0 then 1 + |s| + Sov(|s|) else 0
  }

  function SizeStats(v: BurnStatsValue): nat {
    (if v.totalBurns != 0 then 1 + Sov(v.totalBurns) else 0) + SizeString(v.totalBurned)
  }

  lemma StringSize(tag: byte, s: bytes)
    ensures SizeString(s) == |EncodeString(tag, s)|
  {
    SovIsEncodedLength(|s|);
  }

  /** The size agrees with the encoding on every combination of present and absent fields. */
  lemma StatsSize(v: BurnStatsValue)
    ensures SizeStats(v) == |EncodeStats(v)|
  {
    StringSize(0x12, v.totalBurned);
    SovIsEncodedLength(v.totalBurns);
  }

  lemma StringDecodesInto(m: BurnStatsValue, s: bytes)
    requires |EncodeString(0x12, s)| < TWO_63
    ensures Unmarshal(StatsFields(), m, EncodeString(0x12, s))
         == Ok(if s == [] then m else m.(totalBurned := s))
  {
    if s != [] {
      DecodePayloadField(STATS_SCHEMA, StatsFields(), m, 0x12, s, []);
    }
  }

  /** Decoding into m keeps m's value of every field left out. */
  lemma StatsDecodeInto(m: BurnStatsValue, v: BurnStatsValue)
    requires |EncodeStats(v)| < TWO_63
    ensures Unmarshal(StatsFields(), m, EncodeStats(v))
         == Ok(BurnStatsValue(if v.totalBurns == 0 then m.totalBurns else v.totalBurns,
                              if v.totalBurned == [] then m.totalBurned else v.totalBurned))
  {
    var tail := EncodeString(0x12, v.totalBurned);
    if v.totalBurns == 0 {
      assert EncodeStats(v) == tail;
      StringDecodesInto(m, v.totalBurned);
    } else {
      DecodeScalarField(STATS_SCHEMA, StatsFields(), m, 0x08, v.totalBurns, tail);
      StringDecodesInto(m.(totalBurns := v.totalBurns), v.totalBurned);
    }
  }

  /** Leaving out zero and empty fields loses nothing for a fresh receiver. */
  lemma StatsRoundTrip(v: BurnStatsValue)
    requires |EncodeStats(v)| < TWO_63
    ensures Unmarshal(StatsFields(), FRESH_STATS, EncodeStats(v)) == Ok(v)
  {
    StatsDecodeInto(FRESH_STATS, v);
  }

  lemma AccountRoundTrip(s: bytes)
    requires |EncodeAccount(s)| < TWO_63
    ensures Unmarshal(AccountFields(), [], EncodeAccount(s)) == Ok(s)
  {
    if s != [] {
      DecodePayloadField(ACCOUNT_SCHEMA, AccountFields(), [], 0x0a, s, []);
    }
  }

  // ----- single fields, and sample bytes

  /** A number replaces the present one, also a zero that no encoder writes. */
  lemma TotalBurnsField(m: BurnStatsValue, v: uint64)
    requires |ScalarField(0x08, v)| < TWO_63
    ensures Unmarshal(StatsFields(), m, ScalarField(0x08, v)) == Ok(BurnStatsValue(v, m.totalBurned))
  {
    DecodeScalarField(STATS_SCHEMA, StatsFields(), m, 0x08, v, []);
  }

  /** A string replaces the present one, also an empty one. */
  lemma TotalBurnedField(m: BurnStatsValue, s: bytes)
    requires |PayloadField(0x12, s)| < TWO_63
    ensures Unmarshal(StatsFields(), m, PayloadField(0x12, s)) == Ok(BurnStatsValue(m.totalBurns, s))
  {
    DecodePayloadField(STATS_SCHEMA, StatsFields(), m, 0x12, s, []);
  }

  lemma AccountField(m: bytes, s: bytes)
    requires |PayloadField(0x0a, s)| < TWO_63
    ensures Unmarshal(AccountFields(), m, PayloadField(0x0a, s)) == Ok(s)
  {
    DecodePayloadField(ACCOUNT_SCHEMA, AccountFields(), m, 0x0a, s, []);
  }

  /** 150 burns of "x" in all; the account "x"; and nothing for nothing. */
  lemma QuerySamples()
    ensures EncodeStats(BurnStatsValue(150, [0x78])) == [0x08, 0x96, 1, 0x12, 1, 0x78]
    ensures EncodeAccount([0x78]) == [0x0a, 1, 0x78]
    ensures EncodeStats(BurnStatsValue(0, [])) == [] && EncodeAccount([]) == []
  {
    assert EncodeVarint(1) == [1] && EncodeVarint(150) == [0x96, 1];
  }

  /** Writes a string field, or nothing when it is empty. */
  method PutString(dAtA: array<byte>, end: nat, tag: byte, s: bytes) returns (n: nat)
    requires |EncodeString(tag, s)| <= end <= dAtA.Length < TWO_63
    modifies dAtA
    ensures n == |EncodeString(tag, s)| && Filled(old(dAtA[..]), dAtA[..], end, EncodeString(tag, s))
  {
    n := 0;
    if |s| > 0 {
      n := PutPayload(dAtA, end, tag, s);
    }
  }

  class QueryBurnStatsResponse {
    var totalBurns: uint64
    var totalBurned: bytes

    ghost function Value(): BurnStatsValue
      reads this
    {
      BurnStatsValue(totalBurns, totalBurned)
    }

    constructor ()
      ensures Value() == FRESH_STATS
    {
      totalBurns, totalBurned := 0, [];
    }

    /** The body of the switch. */
    method Apply(item: Item)
      modifies this
      ensures ApplyStats(old(Value()), item) == Ok(Value())
    {
      match item
      case Scalar(_, value) => totalBurns := value;
      case Payload(_, payload) => totalBurned := payload;
      case Unknown =>
    }

    /** One turn of the loop once the field at iNdEx is read. */
    method Turn(ghost d: Message<BurnStatsValue>, dAtA: bytes, iNdEx: nat, field: ItemResult)
      returns (next: nat, err: Option<Error>)
      requires Continues(d, Value(), dAtA, iNdEx, field)
      requires forall m, item :: d.apply(m, item) == ApplyStats(m, item)
      modifies this
      ensures err.Some? ==> Decode(d, old(Value()), dAtA[iNdEx..], iNdEx) == Err(err.value, Value())
      ensures err.None? ==> iNdEx < next <= |dAtA|
      ensures err.None? ==> Decode(d, old(Value()), dAtA[iNdEx..], iNdEx) == Decode(d, Value(), dAtA[next..], next)
    {
      if field.NoItem? {
        Apply(field.partial);
        return iNdEx, Some(field.error);
      }
      Apply(field.item);
      return iNdEx + field.len, None;
    }

    method Unmarshal(dAtA: bytes) returns (err: Option<Error>)
      requires |dAtA| < TWO_63
      modifies this
      ensures match Fields.Unmarshal(StatsFields(), old(Value()), dAtA)
              case Ok(m) => err == None && Value() == m
              case Err(e, left) => err == Some(e) && Value() == left
    {
      err := None;
      var iNdEx := 0;
      while iNdEx < |dAtA|
        invariant 0 <= iNdEx <= |dAtA| && err == None
        invariant Decode(StatsFields(), Value(), dAtA[iNdEx..], iNdEx)
               == Fields.Unmarshal(StatsFields(), old(Value()), dAtA)
        decreases |dAtA| - iNdEx
      {
        var field := TakeField(StatsFields(), Value(), STATS_SCHEMA, dAtA, iNdEx);
        iNdEx, err := Turn(StatsFields(), dAtA, iNdEx, field);
        if err.Some? {
          return;
        }
      }
    }

    method MarshalToSizedBuffer(dAtA: array<byte>, end: nat) returns (n: nat)
      requires SizeStats(Value()) <= end <= dAtA.Length < TWO_63
      modifies dAtA
      ensures n == SizeStats(Value()) == |EncodeStats(Value())|
      ensures Filled(old(dAtA[..]), dAtA[..], end, EncodeStats(Value()))
    {
      ghost var before := dAtA[..];
      StatsSize(Value());
      n := PutString(dAtA, end, 0x12, totalBurned);
      if totalBurns != 0 {
        ghost var middle := dAtA[..];
        SovIsEncodedLength(totalBurns);
        var i := PutHeader(dAtA, end - n, 0x08, totalBurns);
        FilledBefore(before, middle, dAtA[..], end, EncodeString(0x12, totalBurned), ScalarField(0x08, totalBurns));
        n := end - i;
      } else {
        assert EncodeStats(Value()) == EncodeString(0x12, totalBurned);
      }
    }
  }

  class AccountBurns {
    var text: bytes

    constructor ()
      ensures text == []
    {
      text := [];
    }

    method Apply(item: Item)
      modifies this
      ensures ApplyAccount(old(text), item) == Ok(text)
    {
      if item.Payload? {
        text := item.bytes;
      }
    }

    method Turn(ghost d: Message<bytes>, dAtA: bytes, iNdEx: nat, field: ItemResult)
      returns (next: nat, err: Option<Error>)
      requires Continues(d, text, dAtA, iNdEx, field)
      requires forall m, item :: d.apply(m, item) == ApplyAccount(m, item)
      modifies this
      ensures err.Some? ==> Decode(d, old(text), dAtA[iNdEx..], iNdEx) == Err(err.value, text)
      ensures err.None? ==> iNdEx < next <= |dAtA|
      ensures err.None? ==> Decode(d, old(text), dAtA[iNdEx..], iNdEx) == Decode(d, text, dAtA[next..], next)
    {
      if field.NoItem? {
        Apply(field.partial);
        return iNdEx, Some(field.error);
      }
      Apply(field.item);
      return iNdEx + field.len, None;
    }

    method Unmarshal(dAtA: bytes) returns (err: Option<Error>)
      requires |dAtA| < TWO_63
      modifies this
      ensures match Fields.Unmarshal(AccountFields(), old(text), dAtA)
              case Ok(m) => err == None && text == m
              case Err(e, left) => err == Some(e) && text == left
    {
      err := None;
      var iNdEx := 0;
      while iNdEx < |dAtA|
        invariant 0 <= iNdEx <= |dAtA| && err == None
        invariant Decode(AccountFields(), text, dAtA[iNdEx..], iNdEx)
               == Fields.Unmarshal(AccountFields(), old(text), dAtA)
        decreases |dAtA| - iNdEx
      {
        var field := TakeField(AccountFields(), text, ACCOUNT_SCHEMA, dAtA, iNdEx);
        iNdEx, err := Turn(AccountFields(), dAtA, iNdEx, field);
        if err.Some? {
          return;
        }
      }
    }

    method MarshalToSizedBuffer(dAtA: array<byte>, end: nat) returns (n: nat)
      requires SizeString(text) <= end <= dAtA.Length < TWO_63
      modifies dAtA
      ensures n == SizeString(text) == |EncodeAccount(text)|
      ensures Filled(old(dAtA[..]), dAtA[..], end, EncodeAccount(text))
    {
      StringSize(0x0a, text);
      n := PutString(dAtA, end, 0x0a, text);
    }
  }
}
