/**
  The chain state the burn and validator modules work on, as a value and as the context that
  the keepers mutate.
 */
module Chain {
  import opened Basics
  import opened Ledger
  import opened Bank

  const ONE_DEC := 1_000_000_000_000_000_000

  datatype Coin = Coin(denom: string, amount: Number)

  datatype Error =
    | Panic
    | ErrBankSend
    | ErrBankBurn
    | ErrInvalidBurnDenom
    | ErrInvalidFeeBurnPercent
    | ErrInvalidBurnTotal
    | ErrNotFound
    | ErrInvalidAddress
    | ErrInvalidSigner
    | ErrParamsRead
    | ErrRegistrationAddressMismatch
    | ErrBurnDenomMismatch
    | ErrBurnBelowRequired
    | ErrDelegationDenomMismatch
    | ErrMinSelfDelegationBelowRequired
    | ErrInvalidRegistrationBurn
    | ErrInvalidMinSelfDelegation
    | ErrInvalidRegistrationTx
    | ErrStaking
    | ErrCircuitBreaker

  /** A Go string. */
  type Text = bytes

  /** An address codec; several texts may stand for the same bytes. */
  datatype AddressCodec = AddressCodec(toBytes: Text -> Option<Addr>, toText: Addr -> Option<Text>)

  /** An address that some text stands for. */
  ghost predicate Decodable(codec: AddressCodec, a: Addr) {
    exists t :: codec.toBytes(t) == Some(a)
  }

  /** Turning an address that came from a text back into a text succeeds, and that text stands for it. */
  ghost predicate ValidCodec(codec: AddressCodec) {
    forall a | Decodable(codec, a) :: codec.toText(a).Some? && codec.toBytes(codec.toText(a).value) == Some(a)
  }

  /** What `New` wires together, and the facts about the outside that the modules are given. */
  datatype Config = Config(
    burnModule: Addr,
    feeCollector: Addr,
    distribution: Addr,
    stakingPool: Addr,
    authority: Text,
    accounts: AddressCodec,
    operators: AddressCodec,
    validDenom: string -> bool)

  ghost predicate ValidConfig(c: Config) {
    && c.feeCollector != c.distribution && c.feeCollector != c.stakingPool
    && c.validDenom(BOND_DENOM)
    && ValidCodec(c.accounts) && Decodable(c.accounts, c.feeCollector)
  }

  datatype ValidatorParams = ValidatorParams(registrationBurn: Coin, minSelfDelegation: Coin)

  /** The burn module's store; absent totals and counts read as zero. */
  datatype BurnStore = BurnStore(
    feeBurnPercent: Option<Number>,
    count: Option<uint64>,
    total: Option<int>,
    accounts: map<Addr, int>)

  function CountOf(b: BurnStore): uint64 {
    match b.count case Some(n) => n case None => 0
  }

  function TotalOf(b: BurnStore): int {
    match b.total case Some(n) => n case None => 0
  }

  function AccountTotal(b: BurnStore, a: Addr): int {
    Get(b.accounts, a)
  }

  datatype State = State(
    bank: Bank,
    burn: BurnStore,
    validatorParams: Option<ValidatorParams>,
    validators: set<Addr>,
    height: nat)

  /** The store a message handler or block hook reads and writes. */
  class Context {
    var bank: Bank
    var burn: BurnStore
    var validatorParams: Option<ValidatorParams>
    var validators: set<Addr>
    var height: nat

    ghost function Snapshot(): State
      reads this
    {
      State(bank, burn, validatorParams, validators, height)
    }

    constructor (s: State)
      ensures Snapshot() == s
    {
      bank, burn, validatorParams, validators, height := s.bank, s.burn, s.validatorParams, s.validators, s.height;
    }

    /** Back to an earlier state. */
    method Restore(s: State)
      modifies this
      ensures Snapshot() == s
    {
      bank, burn, validatorParams, validators, height := s.bank, s.burn, s.validatorParams, s.validators, s.height;
    }
  }

  // ----- parameters

  predicate ValidPercent(v: Number) {
    v.Num? && 0 <= v.value <= ONE_DEC
  }

  predicate ValidCoin(c: Config, v: Coin) {
    c.validDenom(v.denom) && v.amount.Num? && v.amount.value >= 0
  }

  /** A positive amount must be in the bond denomination; a zero amount may carry any denomination. */
  predicate ValidRequirement(c: Config, v: Coin) {
    ValidCoin(c, v) && (v.amount.value == 0 || v.denom == BOND_DENOM)
  }

  predicate ValidValidatorParams(c: Config, p: ValidatorParams) {
    ValidRequirement(c, p.registrationBurn) && ValidRequirement(c, p.minSelfDelegation)
  }

  /** Every account with a burn total has a text. */
  ghost predicate KeysDecodable(c: Config, b: BurnStore) {
    forall a | a in b.accounts :: Decodable(c.accounts, a)
  }

  /** The state invariant: what genesis validation and the bank's contract establish. */
  ghost predicate ValidState(c: Config, s: State) {
    && KeysDecodable(c, s.burn)
    && ValidBank(s.bank)
    && (s.burn.feeBurnPercent.Some? && ValidPercent(s.burn.feeBurnPercent.value))
    && (s.validatorParams.Some? && ValidValidatorParams(c, s.validatorParams.value))
  }
}
