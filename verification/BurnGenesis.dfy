/**
  Genesis of the burn module: what validation accepts, what an import stores, what an export
  lists, and that import and export undo each other.
 */
module BurnGenesis {
  import opened Basics
  import opened Bank
  import opened Chain
  import opened BurnMessages
  import opened ByteOrder

  // ----- validation

  predicate ValidRecord(codec: AddressCodec, r: RecordValue) {
    codec.toBytes(r.address).Some? && r.total.Num? && r.total.value >= 0
  }

  predicate ValidGenesis(codec: AddressCodec, g: GenesisValue) {
    && ValidPercent(g.params.feeBurnPercent)
    && (g.total.Num? ==> g.total.value >= 0)
    && (forall i | 0 <= i < |g.accountTotals| :: ValidRecord(codec, g.accountTotals[i]))
  }

  /** The first invalid record has an address without bytes, or only a total that is nil or negative. */
  predicate FirstFault(codec: AddressCodec, g: GenesisValue, badAddress: bool) {
    && (g.total.Num? ==> g.total.value >= 0)
    && exists i | 0 <= i < |g.accountTotals| ::
         && !ValidRecord(codec, g.accountTotals[i])
         && badAddress == codec.toBytes(g.accountTotals[i].address).None?
         && forall j | 0 <= j < i :: ValidRecord(codec, g.accountTotals[j])
  }

  /** The error is about the first thing wrong: the parameters, the total, then the records in their order. */
  method Validate(codec: AddressCodec, g: GenesisValue) returns (err: Option<Error>)
    ensures err == None <==> ValidGenesis(codec, g)
    ensures err == None <==>
              && g.params.feeBurnPercent.Num? && 0 <= g.params.feeBurnPercent.value <= 1_000_000_000_000_000_000
              && (g.total == Nil || g.total.value >= 0)
              && forall i | 0 <= i < |g.accountTotals| ::
                   var r := g.accountTotals[i];
                   codec.toBytes(r.address) != None && r.total != Nil && r.total.value >= 0
    ensures err == Some(ErrInvalidFeeBurnPercent) <==> !ValidPercent(g.params.feeBurnPercent)
    ensures err == Some(ErrInvalidAddress) ==> FirstFault(codec, g, true)
    ensures err == Some(ErrInvalidBurnTotal) ==> (g.total.Num? && g.total.value < 0) || FirstFault(codec, g, false)
    ensures err.Some? ==> err.value in {ErrInvalidFeeBurnPercent, ErrInvalidBurnTotal, ErrInvalidAddress}
  {
    if !ValidPercent(g.params.feeBurnPercent) {
      return Some(ErrInvalidFeeBurnPercent);
    }
    if g.total.Num? && g.total.value < 0 {
      return Some(ErrInvalidBurnTotal);
    }
    for i := 0 to |g.accountTotals|
      invariant forall j | 0 <= j < i :: ValidRecord(codec, g.accountTotals[j])
    {
      var r := g.accountTotals[i];
      if codec.toBytes(r.address).None? {
        return Some(ErrInvalidAddress);
      }
      if r.total.Nil? || r.total.value < 0 {
        return Some(ErrInvalidBurnTotal);
      }
    }
    return None;
  }

  // ----- import

  /** The store's value codecs write a nil number as zero. */
  function Stored(n: Number): int {
    match n case Nil => 0 case Num(v) => v
  }

  predicate Importable(codec: AddressCodec, rs: seq<RecordValue>) {
    forall i | 0 <= i < |rs| :: codec.toBytes(rs[i].address).Some?
  }

  /** The account map after some records were stored over it, one after another. */
  function RecordsStored(codec: AddressCodec, accounts: map<Addr, int>, rs: seq<RecordValue>): map<Addr, int>
    requires Importable(codec, rs)
  {
    if rs == [] then accounts
    else
      var last := rs[|rs| - 1];
      RecordsStored(codec, accounts, rs[..|rs| - 1])[codec.toBytes(last.address).value := Stored(last.total)]
  }

  /** The store after the import of g, of whose records the first n were reached. */
  function Imported(codec: AddressCodec, b: BurnStore, g: GenesisValue, n: nat): BurnStore
    requires n <= |g.accountTotals| && Importable(codec, g.accountTotals[..n])
  {
    BurnStore(
      Some(Num(Stored(g.params.feeBurnPercent))),
      Some(g.count),
      if g.total.Num? then Some(g.total.value) else b.total,
      RecordsStored(codec, b.accounts, g.accountTotals[..n]))
  }

  /** Stops at the first address without bytes, with everything before it stored. */
  method InitGenesis(codec: AddressCodec, ctx: Context, g: GenesisValue) returns (err: Option<Error>)
    modifies ctx
    ensures err == if Importable(codec, g.accountTotals) then None else Some(ErrInvalidAddress)
    ensures err.None? ==>
              ctx.Snapshot() == old(ctx.Snapshot()).(burn := Imported(codec, old(ctx.burn), g, |g.accountTotals|))
    ensures err.Some? ==>
              exists n | 0 <= n < |g.accountTotals| ::
                && codec.toBytes(g.accountTotals[n].address).None?
                && Importable(codec, g.accountTotals[..n])
                && ctx.Snapshot() == old(ctx.Snapshot()).(burn := Imported(codec, old(ctx.burn), g, n))
  {
    ghost var before := ctx.Snapshot();
    ctx.burn := ctx.burn.(feeBurnPercent := Some(Num(Stored(g.params.feeBurnPercent))));
    ctx.burn := ctx.burn.(count := Some(g.count));
    if g.total.Num? {
      ctx.burn := ctx.burn.(total := Some(g.total.value));
    }
    for i := 0 to |g.accountTotals|
      invariant Importable(codec, g.accountTotals[..i])
      invariant ctx.Snapshot() == before.(burn := Imported(codec, before.burn, g, i))
    {
      var r := g.accountTotals[i];
      var addr := codec.toBytes(r.address);
      if addr.None? {
        return Some(ErrInvalidAddress);
      }
      ctx.burn := ctx.burn.(accounts := ctx.burn.accounts[addr.value := Stored(r.total)]);
      assert g.accountTotals[..i + 1][..i] == g.accountTotals[..i];
    }
    assert g.accountTotals[..|g.accountTotals|] == g.accountTotals;
    return None;
  }

  // ----- export

  datatype ExportResult = Exported(genesis: GenesisValue) | NotExported(error: Error)

  predicate Exportable(codec: AddressCodec, accounts: map<Addr, int>) {
    forall a | a in accounts :: codec.toText(a).Some?
  }

  function RecordOf(codec: AddressCodec, accounts: map<Addr, int>, a: Addr): RecordValue
    requires a in accounts && codec.toText(a).Some?
  {
    RecordValue(codec.toText(a).value, Num(accounts[a]))
  }

  /** rs lists the accounts in ascending order of their bytes, each once, by its text. */
  ghost predicate ListsAccounts(codec: AddressCodec, accounts: map<Addr, int>, rs: seq<RecordValue>)
    requires Exportable(codec, accounts)
  {
    exists keys :: ListedBy(codec, accounts, keys, rs)
  }

  ghost predicate ListedBy(codec: AddressCodec, accounts: map<Addr, int>, keys: seq<Addr>, rs: seq<RecordValue>)
    requires Exportable(codec, accounts)
  {
    && Lists(keys, accounts.Keys) && |rs| == |keys|
    && forall i | 0 <= i < |keys| :: rs[i] == RecordOf(codec, accounts, keys[i])
  }

  /** g is what an export of b gives. */
  ghost predicate IsExport(codec: AddressCodec, b: BurnStore, g: GenesisValue) {
    && b.feeBurnPercent == Some(g.params.feeBurnPercent)
    && g.count == CountOf(b) && g.total == Num(TotalOf(b))
    && Exportable(codec, b.accounts) && ListsAccounts(codec, b.accounts, g.accountTotals)
  }

  method ExportGenesis(codec: AddressCodec, b: BurnStore) returns (r: ExportResult)
    ensures match r
            case Exported(g) => IsExport(codec, b, g)
            case NotExported(e) =>
              e == if b.feeBurnPercent.None? then ErrNotFound else ErrInvalidAddress
    ensures r.Exported? <==> b.feeBurnPercent.Some? && Exportable(codec, b.accounts)
  {
    if b.feeBurnPercent.None? {
      return NotExported(ErrNotFound);
    }
    var keys := Walk(b.accounts.Keys);
    var records: seq<RecordValue> := [];
    for i := 0 to |keys|
      invariant |records| == i
      invariant forall j | 0 <= j < i :: codec.toText(keys[j]).Some?
      invariant forall j | 0 <= j < i :: keys[j] in b.accounts && records[j] == RecordOf(codec, b.accounts, keys[j])
    {
      assert keys[i] in b.accounts;
      var text := codec.toText(keys[i]);
      if text.None? {
        return NotExported(ErrInvalidAddress);
      }
      records := records + [RecordValue(text.value, Num(b.accounts[keys[i]]))];
    }
    assert ListedBy(codec, b.accounts, keys, records);
    return Exported(GenesisValue(ParamsValue(b.feeBurnPercent.value), CountOf(b), Num(TotalOf(b)), records));
  }

  // ----- import, then export

  const EMPTY_STORE := BurnStore(None, None, None, map[])

  /** The store that genesis g makes. */
  function FromGenesis(codec: AddressCodec, g: GenesisValue): BurnStore
    requires Importable(codec, g.accountTotals)
  {
    assert g.accountTotals[..|g.accountTotals|] == g.accountTotals;
    Imported(codec, EMPTY_STORE, g, |g.accountTotals|)
  }

  /** The record at i is the last one for account a. */
  predicate LastFor(codec: AddressCodec, rs: seq<RecordValue>, i: nat, a: Addr) {
    && i < |rs| && codec.toBytes(rs[i].address) == Some(a)
    && forall j | i < j < |rs| :: codec.toBytes(rs[j].address) != Some(a)
  }

  /**
    An account has a total after the import exactly when it had one or a record names it. The
    last record that names it tells the total; without one it is the old total.
   */
  lemma {:induction false} LastRecordWins(codec: AddressCodec, accounts: map<Addr, int>, rs: seq<RecordValue>, a: Addr)
    requires Importable(codec, rs)
    ensures var m := RecordsStored(codec, accounts, rs);
            && (a in m <==> a in accounts || exists i: nat :: LastFor(codec, rs, i, a))
            && (forall i: nat | LastFor(codec, rs, i, a) :: m[a] == Stored(rs[i].total))
            && ((forall i: nat :: !LastFor(codec, rs, i, a)) && a in accounts ==> m[a] == accounts[a])
  {
    if rs != [] {
      var n := |rs| - 1;
      LastRecordWins(codec, accounts, rs[..n], a);
      if codec.toBytes(rs[n].address) == Some(a) {
        assert LastFor(codec, rs, n, a);
      } else {
        forall i: nat ensures LastFor(codec, rs, i, a) <==> LastFor(codec, rs[..n], i, a) {
        }
      }
    }
  }

  /** An import sets share and count, keeps the total when the genesis has none, and reads nil as zero. */
  lemma ImportOver(codec: AddressCodec, b: BurnStore, g: GenesisValue)
    requires Importable(codec, g.accountTotals)
    ensures g.accountTotals[..|g.accountTotals|] == g.accountTotals
    ensures var b' := Imported(codec, b, g, |g.accountTotals|);
            && b'.count == Some(g.count)
            && b'.feeBurnPercent == Some(if g.params.feeBurnPercent.Nil? then Num(0) else g.params.feeBurnPercent)
            && (g.total.Nil? ==> b'.total == b.total) && (g.total.Num? ==> b'.total == Some(g.total.value))
            && b'.accounts == RecordsStored(codec, b.accounts, g.accountTotals)
  {
    assert g.accountTotals[..|g.accountTotals|] == g.accountTotals;
  }

  /** What an export of a store that came from g looks like, told from g alone. */
  ghost predicate Normalizes(codec: AddressCodec, g: GenesisValue, g': GenesisValue) {
    && g'.params.feeBurnPercent == Num(Stored(g.params.feeBurnPercent))
    && g'.count == g.count && g'.total == Num(Stored(g.total))
    && SortedByBytes(codec, g'.accountTotals)
    && (forall i | 0 <= i < |g'.accountTotals| :: LastTotalIn(codec, g.accountTotals, g'.accountTotals[i]))
    && (forall i | 0 <= i < |g.accountTotals| :: NamedIn(codec, g.accountTotals[i].address, g'.accountTotals))
  }

  /** The addresses are the texts the codec gives for their bytes, which strictly ascend: no account twice. */
  predicate SortedByBytes(codec: AddressCodec, rs: seq<RecordValue>) {
    && (forall i | 0 <= i < |rs| :: CanonicalAddress(codec, rs[i].address))
    && (forall i, j | 0 <= i < j < |rs| :: Less(codec.toBytes(rs[i].address).value, codec.toBytes(rs[j].address).value))
  }

  predicate CanonicalAddress(codec: AddressCodec, t: Text) {
    codec.toBytes(t).Some? && codec.toText(codec.toBytes(t).value) == Some(t)
  }

  /** r carries the total of the last record in rs for its account. */
  ghost predicate LastTotalIn(codec: AddressCodec, rs: seq<RecordValue>, r: RecordValue) {
    && codec.toBytes(r.address).Some?
    && exists i: nat :: LastFor(codec, rs, i, codec.toBytes(r.address).value) && r.total == Num(Stored(rs[i].total))
  }

  predicate NamedIn(codec: AddressCodec, t: Text, rs: seq<RecordValue>) {
    exists i | 0 <= i < |rs| :: codec.toBytes(rs[i].address) == codec.toBytes(t)
  }

  /** A listing's record at i stands for the key at i. */
  lemma RecordBytes(codec: AddressCodec, accounts: map<Addr, int>, keys: seq<Addr>, rs: seq<RecordValue>, i: nat)
    requires ValidCodec(codec) && Exportable(codec, accounts) && ListedBy(codec, accounts, keys, rs) && i < |rs|
    requires forall a | a in accounts :: Decodable(codec, a)
    ensures codec.toBytes(rs[i].address) == Some(keys[i]) && CanonicalAddress(codec, rs[i].address)
  {
  }

  /** Every imported account came from a text. */
  lemma ImportedDecodable(codec: AddressCodec, rs: seq<RecordValue>, a: Addr)
    requires Importable(codec, rs) && a in RecordsStored(codec, map[], rs)
    ensures Decodable(codec, a)
  {
  }

  /**
    Exporting an imported genesis always succeeds, and gives its records once each, sorted by
    address bytes, with the last record of an account winning and nil totals read as zero.
   */
  lemma ImportThenExport(codec: AddressCodec, g: GenesisValue, g': GenesisValue)
    requires ValidCodec(codec) && Importable(codec, g.accountTotals)
    ensures Exportable(codec, FromGenesis(codec, g).accounts)
    ensures IsExport(codec, FromGenesis(codec, g), g') ==> Normalizes(codec, g, g')
  {
    var rs, m := g.accountTotals, FromGenesis(codec, g).accounts;
    assert rs[..|rs|] == rs;
    forall a | a in m ensures Decodable(codec, a) {
      ImportedDecodable(codec, rs, a);
    }
    if IsExport(codec, FromGenesis(codec, g), g') {
      ListingNormalizes(codec, rs, g'.accountTotals);
    }
  }

  lemma ListingNormalizes(codec: AddressCodec, rs: seq<RecordValue>, rs': seq<RecordValue>)
    requires ValidCodec(codec) && Importable(codec, rs)
    requires Exportable(codec, RecordsStored(codec, map[], rs))
    requires ListsAccounts(codec, RecordsStored(codec, map[], rs), rs')
    ensures SortedByBytes(codec, rs')
    ensures forall i | 0 <= i < |rs'| :: LastTotalIn(codec, rs, rs'[i])
    ensures forall i | 0 <= i < |rs| :: NamedIn(codec, rs[i].address, rs')
  {
    var m := RecordsStored(codec, map[], rs);
    var keys :| ListedBy(codec, m, keys, rs');
    forall a | a in m ensures Decodable(codec, a) {
      ImportedDecodable(codec, rs, a);
    }
    forall i | 0 <= i < |rs'|
      ensures codec.toBytes(rs'[i].address) == Some(keys[i]) && CanonicalAddress(codec, rs'[i].address)
      ensures LastTotalIn(codec, rs, rs'[i])
    {
      RecordBytes(codec, m, keys, rs', i);
      LastRecordWins(codec, map[], rs, keys[i]);
    }
    forall i | 0 <= i < |rs| ensures NamedIn(codec, rs[i].address, rs') {
      var a := codec.toBytes(rs[i].address).value;
      LastIndex(codec, rs, i, a);
      LastRecordWins(codec, map[], rs, a);
      assert a in keys;
    }
  }

  /** An account that is named has a last record. */
  lemma {:induction false} LastIndex(codec: AddressCodec, rs: seq<RecordValue>, i: nat, a: Addr)
    requires i < |rs| && codec.toBytes(rs[i].address) == Some(a)
    ensures exists k: nat :: LastFor(codec, rs, k, a)
    decreases |rs| - i
  {
    if j :| i < j < |rs| && codec.toBytes(rs[j].address) == Some(a) {
      LastIndex(codec, rs, j, a);
    } else {
      assert LastFor(codec, rs, i, a);
    }
  }

  /** Validity survives import and export. */
  lemma ValidAfterImport(codec: AddressCodec, g: GenesisValue, g': GenesisValue)
    requires ValidCodec(codec) && ValidGenesis(codec, g)
    requires IsExport(codec, FromGenesis(codec, g), g')
    ensures ValidGenesis(codec, g')
  {
    ImportThenExport(codec, g, g');
    NormalizedValid(codec, g, g');
  }

  lemma NormalizedValid(codec: AddressCodec, g: GenesisValue, g': GenesisValue)
    requires ValidGenesis(codec, g) && Normalizes(codec, g, g')
    ensures ValidGenesis(codec, g')
  {
  }

  // ----- export, then import

  /** Two stores that no query and no later burn can tell apart: an absent count or total reads as zero. */
  predicate Alike(b: BurnStore, b': BurnStore) {
    && b.feeBurnPercent == b'.feeBurnPercent && b.accounts == b'.accounts
    && CountOf(b) == CountOf(b') && TotalOf(b) == TotalOf(b')
  }

  lemma {:induction false} ListedStored(codec: AddressCodec, accounts: map<Addr, int>, keys: seq<Addr>, rs: seq<RecordValue>)
    requires |rs| == |keys|
    requires forall i | 0 <= i < |keys| ::
               keys[i] in accounts && codec.toBytes(rs[i].address) == Some(keys[i]) && rs[i].total == Num(accounts[keys[i]])
    ensures Importable(codec, rs)
    ensures RecordsStored(codec, map[], rs) == map a | a in accounts && a in keys :: accounts[a]
    decreases |keys|
  {
    if keys != [] {
      var n := |keys| - 1;
      ListedStored(codec, accounts, keys[..n], rs[..n]);
      assert keys == keys[..n] + [keys[n]];
    }
  }

  lemma WholeListing(m: map<Addr, int>, keys: seq<Addr>)
    requires Lists(keys, m.Keys)
    ensures (map a | a in m && a in keys :: m[a]) == m
  {
  }

  lemma ListingStored(codec: AddressCodec, m: map<Addr, int>, rs: seq<RecordValue>)
    requires ValidCodec(codec) && (forall a | a in m :: Decodable(codec, a))
    requires Exportable(codec, m) && ListsAccounts(codec, m, rs)
    ensures Importable(codec, rs) && RecordsStored(codec, map[], rs) == m
  {
    var keys :| ListedBy(codec, m, keys, rs);
    forall i | 0 <= i < |keys| ensures keys[i] in m && codec.toBytes(rs[i].address) == Some(keys[i]) {
      RecordBytes(codec, m, keys, rs, i);
    }
    ListedStored(codec, m, keys, rs);
    WholeListing(m, keys);
  }

  /** Importing an export into an empty store gives back what was exported. */
  lemma ExportThenImport(codec: AddressCodec, b: BurnStore, g: GenesisValue)
    requires ValidCodec(codec) && (forall a | a in b.accounts :: Decodable(codec, a))
    requires b.feeBurnPercent.Some? && b.feeBurnPercent.value.Num? && IsExport(codec, b, g)
    ensures Importable(codec, g.accountTotals) && Alike(b, FromGenesis(codec, g))
  {
    ListingStored(codec, b.accounts, g.accountTotals);
    assert g.accountTotals[..|g.accountTotals|] == g.accountTotals;
  }

  /** Stores that are alike have the same export, and a store has one. */
  lemma OneExport(codec: AddressCodec, b: BurnStore, b': BurnStore, g: GenesisValue, g': GenesisValue)
    requires Alike(b, b') && IsExport(codec, b, g) && IsExport(codec, b', g')
    ensures g == g'
  {
    var keys :| ListedBy(codec, b.accounts, keys, g.accountTotals);
    var keys' :| ListedBy(codec, b.accounts, keys', g'.accountTotals);
    SameListing(codec, b.accounts, keys, keys', g.accountTotals, g'.accountTotals);
  }

  lemma SameListing(codec: AddressCodec, accounts: map<Addr, int>, keys: seq<Addr>, keys': seq<Addr>,
                    rs: seq<RecordValue>, rs': seq<RecordValue>)
    requires Exportable(codec, accounts) && ListedBy(codec, accounts, keys, rs) && ListedBy(codec, accounts, keys', rs')
    ensures rs == rs'
  {
    OneListing(keys, keys', accounts.Keys);
  }

  /** No nil numbers, and records sorted by bytes under the codec's own texts. */
  predicate Normal(codec: AddressCodec, g: GenesisValue) {
    && g.params.feeBurnPercent.Num? && g.total.Num?
    && SortedByBytes(codec, g.accountTotals)
    && forall i | 0 <= i < |g.accountTotals| :: g.accountTotals[i].total.Num?
  }

  /** A genesis comes back from import and export unchanged exactly when it is in normal form. */
  lemma FixpointIffNormal(codec: AddressCodec, g: GenesisValue)
    requires ValidCodec(codec) && Importable(codec, g.accountTotals)
    ensures IsExport(codec, FromGenesis(codec, g), g) <==> Normal(codec, g)
  {
    if IsExport(codec, FromGenesis(codec, g), g) {
      ImportThenExport(codec, g, g);
      NormalizedIsNormal(codec, g, g);
    }
    if Normal(codec, g) {
      ImportThenExport(codec, g, g);
      NormalIsExport(codec, g);
    }
  }

  lemma NormalizedIsNormal(codec: AddressCodec, g: GenesisValue, g': GenesisValue)
    requires Normalizes(codec, g, g')
    ensures Normal(codec, g')
  {
  }

  lemma NormalIsExport(codec: AddressCodec, g: GenesisValue)
    requires Importable(codec, g.accountTotals) && Normal(codec, g)
    requires Exportable(codec, FromGenesis(codec, g).accounts)
    ensures IsExport(codec, FromGenesis(codec, g), g)
  {
    assert g.accountTotals[..|g.accountTotals|] == g.accountTotals;
    NormalIsListing(codec, g.accountTotals);
  }

  lemma NormalIsListing(codec: AddressCodec, rs: seq<RecordValue>)
    requires Importable(codec, rs) && SortedByBytes(codec, rs) && forall i | 0 <= i < |rs| :: rs[i].total.Num?
    requires Exportable(codec, RecordsStored(codec, map[], rs))
    ensures ListsAccounts(codec, RecordsStored(codec, map[], rs), rs)
  {
    var m := RecordsStored(codec, map[], rs);
    var keys := seq(|rs|, i requires 0 <= i < |rs| => codec.toBytes(rs[i].address).value);
    forall i | 0 <= i < |keys| ensures keys[i] in m && rs[i] == RecordOf(codec, m, keys[i]) {
      forall j | i < j < |rs| ensures codec.toBytes(rs[j].address) != Some(keys[i]) {
        LessTotal(keys[i], keys[j]);
      }
      assert LastFor(codec, rs, i, keys[i]);
      LastRecordWins(codec, map[], rs, keys[i]);
    }
    forall a | a in m ensures a in keys {
      LastRecordWins(codec, map[], rs, a);
      var i: nat :| LastFor(codec, rs, i, a);
      assert keys[i] == a;
    }
    assert ListedBy(codec, m, keys, rs);
  }
}
