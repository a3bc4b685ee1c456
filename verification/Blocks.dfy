/**
  The begin-block hooks of the modules, run in an order: any order, and the one the app sets.
 */
module Blocks {
  import opened Basics
  import opened Bank
  import opened Chain
  import opened BurnKeeper
  import opened History
  import opened Dispatch

  /** Hooks of modules that neither burn fees, nor mint inflation, nor distribute are taken together in groups. */
  datatype Hook = FeeBurn | Mint | Distribution | Others(group: nat)

  /** Epochs; burn; mint; authz, IBC and the EVM modules; distribution; the rest. */
  const BEGIN_BLOCKERS: seq<Hook> := [Others(0), FeeBurn, Mint, Others(1), Distribution, Others(2)]

  /** What a block brings: the bank's answer to the fee burn, inflation, what distribution asks for, and what other modules do. */
  datatype BlockInput = BlockInput(says: BankSays, minted: nat, swept: nat, others: map<nat, Nodes>)

  function OthersOf(input: BlockInput, group: nat): Nodes {
    if group in input.others then input.others[group] else Done
  }

  /** Inflation goes to the fee collector. */
  function Inflated(c: Config, s: State, minted: nat): State {
    s.(bank := Minted(s.bank, BOND_DENOM, c.feeCollector, minted))
  }

  /** Distribution takes what it asks for, up to the whole collector. */
  function Swept(c: Config, s: State, swept: nat): State {
    var balance := Collected(c, s);
    var n := if swept < balance then swept else balance;
    if n <= 0 then s else s.(bank := Sent(s.bank, BOND_DENOM, c.feeCollector, c.distribution, n))
  }

  function HookOutcome(c: Config, hook: Hook, s: State, input: BlockInput): Outcome {
    match hook
    case FeeBurn => FeeBurnOutcome(c, s, input.says)
    case Mint => Ok(Inflated(c, s, input.minted))
    case Distribution => Ok(Swept(c, s, input.swept))
    case Others(group) => Ok(ExecTry(c, s, OthersOf(input, group)))
  }

  /** The hooks one after another, up to the first that fails. */
  function HooksOutcome(c: Config, order: seq<Hook>, s: State, input: BlockInput): Outcome {
    if order == [] then Ok(s)
    else
      match HookOutcome(c, order[0], s, input)
      case Err(e) => Err(e)
      case Ok(s') => HooksOutcome(c, order[1..], s', input)
  }

  function Next(s: State): State {
    s.(height := s.height + 1)
  }

  function BlockOutcome(c: Config, s: State, input: BlockInput): Outcome {
    HooksOutcome(c, BEGIN_BLOCKERS, Next(s), input)
  }

  // ----- on the context

  method RunHook(c: Config, hook: Hook, ctx: Context, input: BlockInput) returns (err: Option<Error>)
    requires ValidConfig(c) && ValidState(c, ctx.Snapshot())
    modifies ctx
    ensures match HookOutcome(c, hook, old(ctx.Snapshot()), input)
            case Ok(s) => err == None && ctx.Snapshot() == s
            case Err(e) => err == Some(e)
  {
    err := None;
    match hook
    case FeeBurn =>
      err := ProcessFeeBurn(c, ctx, input.says);
    case Mint =>
      ctx.bank := Minted(ctx.bank, BOND_DENOM, c.feeCollector, input.minted);
    case Distribution =>
      var balance := Balance(ctx.bank, BOND_DENOM, c.feeCollector);
      var n := if input.swept < balance then input.swept else balance;
      if n > 0 {
        ctx.bank := Sent(ctx.bank, BOND_DENOM, c.feeCollector, c.distribution, n);
      }
    case Others(group) =>
      DeliverTry(c, ctx, OthersOf(input, group));
  }

  /** The begin-block hooks in the app's order; an error stops the block, whose writes are dropped. */
  method RunBeginBlock(c: Config, ctx: Context, input: BlockInput) returns (err: Option<Error>)
    requires ValidConfig(c) && ValidState(c, ctx.Snapshot())
    modifies ctx
    ensures match BlockOutcome(c, old(ctx.Snapshot()), input)
            case Ok(s) => err == None && ctx.Snapshot() == s
            case Err(e) => err == Some(e) && ctx.Snapshot() == old(ctx.Snapshot())
  {
    var before := State(ctx.bank, ctx.burn, ctx.validatorParams, ctx.validators, ctx.height);
    ctx.height := ctx.height + 1;
    err := RunHooks(c, BEGIN_BLOCKERS, ctx, input);
    if err.Some? {
      ctx.Restore(before);
    }
  }

  method RunHooks(c: Config, order: seq<Hook>, ctx: Context, input: BlockInput) returns (err: Option<Error>)
    requires ValidConfig(c) && ValidState(c, ctx.Snapshot())
    modifies ctx
    ensures match HooksOutcome(c, order, old(ctx.Snapshot()), input)
            case Ok(s) => err == None && ctx.Snapshot() == s
            case Err(e) => err == Some(e)
  {
    ghost var s := ctx.Snapshot();
    assert order[0..] == order;
    for i := 0 to |order|
      invariant ValidState(c, ctx.Snapshot())
      invariant HooksOutcome(c, order, s, input) == HooksOutcome(c, order[i..], ctx.Snapshot(), input)
    {
      HookKeepsValid(c, order[i], ctx.Snapshot(), input);
      assert order[i..][1..] == order[i + 1..];
      err := RunHook(c, order[i], ctx, input);
      if err.Some? {
        return;
      }
    }
    return None;
  }

  // ----- the fee burn

  /** The fee burn in a state, when the bank goes along. */
  function FeeBurned(c: Config, s: State): int {
    match s.burn.feeBurnPercent
    case Some(Num(p)) =>
      var balance := Collected(c, s);
      if balance < 0 || BurnableAmount(p, balance) <= 0 then 0 else BurnableAmount(p, balance)
    case _ => 0
  }

  lemma FloorMul(p: int, balance: nat)
    requires 0 <= p
    ensures BurnableAmount(p, balance) * ONE_DEC <= p * balance < BurnableAmount(p, balance) * ONE_DEC + ONE_DEC
    ensures BurnableAmount(p, balance) >= 0
    ensures p <= ONE_DEC ==> BurnableAmount(p, balance) <= balance
  {
  }

  /**
    In a valid state the burn is floor(p * balance / 10^18) and fits the collector, and it
    succeeds exactly when there is nothing to burn or the bank goes along.
   */
  lemma FeeBurnSucceedsIff(c: Config, s: State, says: BankSays)
    requires ValidState(c, s)
    ensures 0 <= FeeBurned(c, s) <= Collected(c, s)
    ensures FeeBurned(c, s) == BurnableAmount(s.burn.feeBurnPercent.value.value, Collected(c, s))
    ensures FeeBurnOutcome(c, s, says).Ok? <==> FeeBurned(c, s) == 0 || (says.send && says.burn)
    ensures FeeBurnOutcome(c, s, says).Ok? ==>
              FeeBurnOutcome(c, s, says) == Ok(if FeeBurned(c, s) == 0 then s else BurnEffect(s, c.feeCollector, FeeBurned(c, s)))
  {
    BalanceWithinSupply(s.bank, BOND_DENOM, c.feeCollector);
    FloorMul(s.burn.feeBurnPercent.value.value, Collected(c, s));
  }

  /** Without a share the block fails, with a nil one it panics; a negative share burns nothing. */
  lemma FeeBurnWithoutShare(c: Config, s: State, says: BankSays)
    requires Collected(c, s) >= 0
    ensures s.burn.feeBurnPercent == None ==> FeeBurnOutcome(c, s, says) == Err(ErrNotFound)
    ensures s.burn.feeBurnPercent == Some(Nil) ==> FeeBurnOutcome(c, s, says) == Err(Panic)
    ensures forall p | p < 0 && s.burn.feeBurnPercent == Some(Num(p)) :: FeeBurnOutcome(c, s, says) == Ok(s)
  {
    forall p | p < 0 && s.burn.feeBurnPercent == Some(Num(p)) ensures FeeBurnOutcome(c, s, says) == Ok(s) {
      NegativeShare(p, Collected(c, s));
    }
  }

  lemma NegativeShare(p: int, balance: nat)
    requires p < 0
    ensures BurnableAmount(p, balance) <= 0
  {
    assert -p * balance >= 0;
  }

  /** Distribution leaves the collector what it does not ask for, and never overdraws it. */
  lemma DistributionTakes(c: Config, s: State, swept: nat)
    requires ValidConfig(c) && Collected(c, s) >= 0
    ensures Collected(c, Swept(c, s, swept)) == if swept < Collected(c, s) then Collected(c, s) - swept else 0
  {
    var n := if swept < Collected(c, s) then swept else Collected(c, s);
    SentBalance(s.bank, BOND_DENOM, c.feeCollector, c.distribution, n, c.feeCollector);
  }

  // ----- events

  function HookEvents(c: Config, hook: Hook, s: State, input: BlockInput): seq<Event> {
    match hook
    case FeeBurn => BurnEvents(c.feeCollector, FeeBurned(c, s))
    case Mint => SupplyEvents(c, BOND_DENOM, c.feeCollector, input.minted)
    case Distribution => []
    case Others(group) => EventsTry(c, s, OthersOf(input, group))
  }

  function HooksEvents(c: Config, order: seq<Hook>, s: State, input: BlockInput): seq<Event> {
    if order == [] then []
    else
      match HookOutcome(c, order[0], s, input)
      case Err(_) => []
      case Ok(s') => HookEvents(c, order[0], s, input) + HooksEvents(c, order[1..], s', input)
  }

  lemma FeeBurnExplained(c: Config, s: State, says: BankSays)
    requires ValidConfig(c) && ValidState(c, s) && FeeBurnOutcome(c, s, says).Ok?
    ensures Explains(c, s, FeeBurnOutcome(c, s, says).state, BurnEvents(c.feeCollector, FeeBurned(c, s)), 0)
  {
    FeeBurnSucceedsIff(c, s, says);
    NothingExplains(c, s);
    if FeeBurned(c, s) > 0 {
      BurnEffectExplained(c, s, c.feeCollector, FeeBurned(c, s));
    }
  }

  lemma SweptExplained(c: Config, s: State, swept: nat)
    requires ValidConfig(c) && ValidState(c, s)
    ensures Explains(c, s, Swept(c, s, swept), [], 0)
  {
    NothingExplains(c, s);
    var balance := Collected(c, s);
    var n := if swept < balance then swept else balance;
    if n > 0 {
      MoveExplained(c, s, BOND_DENOM, c.feeCollector, c.distribution, n);
    }
  }

  lemma HookExplained(c: Config, hook: Hook, s: State, input: BlockInput)
    requires ValidConfig(c) && ValidState(c, s) && HookOutcome(c, hook, s, input).Ok?
    ensures Explains(c, s, HookOutcome(c, hook, s, input).state, HookEvents(c, hook, s, input), 0)
  {
    match hook
    case FeeBurn => FeeBurnExplained(c, s, input.says);
    case Mint =>
      MintedValid(s.bank, BOND_DENOM, c.feeCollector, input.minted);
      SupplyExplained(c, s, BOND_DENOM, c.feeCollector, input.minted);
    case Distribution => SweptExplained(c, s, input.swept);
    case Others(group) => ExecTryExplained(c, s, OthersOf(input, group));
  }

  lemma HookKeepsValid(c: Config, hook: Hook, s: State, input: BlockInput)
    requires ValidConfig(c) && ValidState(c, s)
    ensures HookOutcome(c, hook, s, input).Ok? ==> ValidState(c, HookOutcome(c, hook, s, input).state)
  {
    if HookOutcome(c, hook, s, input).Ok? {
      HookExplained(c, hook, s, input);
    }
  }

  lemma {:induction false} HooksExplained(c: Config, order: seq<Hook>, s: State, input: BlockInput)
    requires ValidConfig(c) && ValidState(c, s) && HooksOutcome(c, order, s, input).Ok?
    ensures Explains(c, s, HooksOutcome(c, order, s, input).state, HooksEvents(c, order, s, input), 0)
    decreases |order|
  {
    if order == [] {
      NothingExplains(c, s);
    } else {
      var s' := HookOutcome(c, order[0], s, input).state;
      HookExplained(c, order[0], s, input);
      HooksExplained(c, order[1..], s', input);
      ExplainsChain(c, s, s', HooksOutcome(c, order[1..], s', input).state,
                    HookEvents(c, order[0], s, input), HooksEvents(c, order[1..], s', input), 0, 0);
    }
  }

  // ----- inflation and the order of the hooks

  /** What the fee burns of a block burn, when the hooks run in a given order. */
  function FeesBurnedIn(c: Config, order: seq<Hook>, s: State, input: BlockInput): int {
    if order == [] then 0
    else
      match HookOutcome(c, order[0], s, input)
      case Err(_) => 0
      case Ok(s') => (if order[0] == FeeBurn then FeeBurned(c, s) else 0) + FeesBurnedIn(c, order[1..], s', input)
  }

  predicate BurnBeforeMint(order: seq<Hook>) {
    forall i, j | 0 <= i < j < |order| :: order[i] == Mint ==> order[j] != FeeBurn
  }

  /** Whatever the state and the block, the fees burned are the same for every inflation. */
  ghost predicate InflationFree(c: Config, order: seq<Hook>) {
    forall s, input, minted: nat | ValidState(c, s) ::
      FeesBurnedIn(c, order, s, input) == FeesBurnedIn(c, order, s, input.(minted := minted))
  }

  lemma {:induction false} NoBurnNoFees(c: Config, order: seq<Hook>, s: State, input: BlockInput)
    requires FeeBurn !in order
    ensures FeesBurnedIn(c, order, s, input) == 0
    decreases |order|
  {
    if order != [] && HookOutcome(c, order[0], s, input).Ok? {
      NoBurnNoFees(c, order[1..], HookOutcome(c, order[0], s, input).state, input);
    }
  }

  lemma {:induction false} SameFees(c: Config, order: seq<Hook>, s: State, input: BlockInput, minted: nat)
    requires BurnBeforeMint(order)
    ensures FeesBurnedIn(c, order, s, input) == FeesBurnedIn(c, order, s, input.(minted := minted))
    decreases |order|
  {
    var input' := input.(minted := minted);
    if order != [] {
      if order[0] == Mint {
        assert FeeBurn !in order[1..];
        NoBurnNoFees(c, order[1..], HookOutcome(c, Mint, s, input).state, input);
        NoBurnNoFees(c, order[1..], HookOutcome(c, Mint, s, input').state, input');
      } else {
        assert HookOutcome(c, order[0], s, input') == HookOutcome(c, order[0], s, input);
        if HookOutcome(c, order[0], s, input).Ok? {
          SameFees(c, order[1..], HookOutcome(c, order[0], s, input).state, input, minted);
        }
      }
    }
  }

  const QUIET := BlockInput(BANK_AGREES, 0, 0, map[])

  /** The percentage is one, and the collector holds something, or not. */
  predicate BurnsAll(s: State) {
    s.burn.feeBurnPercent == Some(Num(ONE_DEC))
  }

  lemma MintedIntoCollector(c: Config, s: State, n: nat)
    ensures Collected(c, Inflated(c, s, n)) == Collected(c, s) + n
  {
    BurntBalance(s.bank, BOND_DENOM, c.feeCollector, 0 - n, c.feeCollector);
  }

  lemma {:induction false} NothingToBurn(c: Config, order: seq<Hook>, s: State)
    requires BurnsAll(s) && Collected(c, s) == 0
    ensures FeesBurnedIn(c, order, s, QUIET) == 0
    decreases |order|
  {
    if order != [] {
      MintedIntoCollector(c, s, 0);
      NothingToBurn(c, order[1..], HookOutcome(c, order[0], s, QUIET).state);
    }
  }

  lemma {:induction false} FeesNonNegative(c: Config, order: seq<Hook>, s: State, input: BlockInput)
    ensures FeesBurnedIn(c, order, s, input) >= 0
    decreases |order|
  {
    if order != [] && HookOutcome(c, order[0], s, input).Ok? {
      FeesNonNegative(c, order[1..], HookOutcome(c, order[0], s, input).state, input);
    }
  }

  lemma BurnsWhole(c: Config, s: State, says: BankSays)
    requires BurnsAll(s) && Collected(c, s) > 0 && says == BANK_AGREES
    ensures FeeBurned(c, s) > 0 && FeeBurnOutcome(c, s, says).Ok?
  {
    FloorMul(ONE_DEC, Collected(c, s));
  }

  /** Whatever is collected when a fee burn comes is burned. */
  lemma {:induction false} SomethingToBurn(c: Config, order: seq<Hook>, s: State, j: nat)
    requires BurnsAll(s) && Collected(c, s) >= 0
    requires j < |order| && order[j] == FeeBurn && (Collected(c, s) > 0 || Mint in order[..j])
    ensures FeesBurnedIn(c, order, s, QUIET.(minted := 1)) > 0
    decreases |order|
  {
    var input := QUIET.(minted := 1);
    if order[0] == FeeBurn && Collected(c, s) > 0 {
      BurnsWhole(c, s, BANK_AGREES);
      FeesNonNegative(c, order[1..], HookOutcome(c, FeeBurn, s, input).state, input);
    } else {
      var s' := HookOutcome(c, order[0], s, input).state;
      MintedIntoCollector(c, s, 1);
      assert order[1..][..j - 1] == order[1..j];
      assert order[..j] == [order[0]] + order[1..j];
      SomethingToBurn(c, order[1..], s', j - 1);
    }
  }

  lemma EmptyChainValid(c: Config, s: State)
    requires ValidConfig(c) && s.bank == Bank(map[], map[])
    requires s.burn == BurnStore(Some(Num(ONE_DEC)), None, None, map[])
    requires s.validatorParams == Some(ValidatorParams(Coin(BOND_DENOM, Num(0)), Coin(BOND_DENOM, Num(0))))
    ensures ValidState(c, s) && BurnsAll(s) && Collected(c, s) == 0
  {
  }

  /** The fees burned do not depend on inflation exactly when no fee burn comes after a mint. */
  lemma InflationFreeIff(c: Config, order: seq<Hook>)
    requires ValidConfig(c)
    ensures InflationFree(c, order) <==> BurnBeforeMint(order)
  {
    if BurnBeforeMint(order) {
      forall s, input, minted: nat | ValidState(c, s)
        ensures FeesBurnedIn(c, order, s, input) == FeesBurnedIn(c, order, s, input.(minted := minted))
      {
        SameFees(c, order, s, input, minted);
      }
    } else {
      var i, j :| 0 <= i < j < |order| && order[i] == Mint && order[j] == FeeBurn;
      var zero := Coin(BOND_DENOM, Num(0));
      var s := State(Bank(map[], map[]), BurnStore(Some(Num(ONE_DEC)), None, None, map[]),
                     Some(ValidatorParams(zero, zero)), {}, 0);
      EmptyChainValid(c, s);
      NothingToBurn(c, order, s);
      assert order[..j][i] == Mint;
      SomethingToBurn(c, order, s, j);
    }
  }

  /** In the app's order inflation is not burned. */
  lemma InflationNotBurned(c: Config, s: State, input: BlockInput, minted: nat)
    requires ValidConfig(c) && ValidState(c, s)
    ensures FeesBurnedIn(c, BEGIN_BLOCKERS, s, input) == FeesBurnedIn(c, BEGIN_BLOCKERS, s, input.(minted := minted))
  {
    InflationFreeIff(c, BEGIN_BLOCKERS);
  }
}
