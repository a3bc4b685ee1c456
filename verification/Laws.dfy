/**
  The chain's promises, over every run: the trackers agree with the burn log, supply is
  conserved, validators are paid for, and the fee burn takes its percentage of fees and
  nothing else.
 */
module Laws {
  import opened Basics
  import opened Ledger
  import opened Bank
  import opened Chain
  import opened BurnKeeper
  import opened ValidatorKeeper
  import opened History
  import opened Blocks
  import opened Runs

  // ----- single messages

  /** A committed burn takes the amount from the sender and from the supply, and touches no other balance of any denomination. */
  lemma BurnTouchesOnlySender(s: State, sender: Addr, coin: Coin, says: BankSays, denom: string, a: Addr)
    requires ValidBank(s.bank) && BurnOutcome(s, sender, coin, says).Ok?
    ensures var s', n := BurnOutcome(s, sender, coin, says).state, coin.amount.value;
            && n >= 0 && (n > 0 ==> coin.denom == BOND_DENOM)
            && Balance(s'.bank, denom, a) == Balance(s.bank, denom, a) - (if a == sender && denom == BOND_DENOM then n else 0)
            && Supply(s'.bank, denom) == Supply(s.bank, denom) - (if denom == BOND_DENOM then n else 0)
  {
  }

  /** From s to s' a validator was registered and paid for. */
  ghost predicate Registers(c: Config, s: State, s': State, sender: Text, create: CreateValidator, burn: Coin) {
    && s.validatorParams.Some? && ValidValidatorParams(c, s.validatorParams.value)
    && burn.amount.Num? && create.value.amount.Num? && create.minSelfDelegation.Num?
    && var p := s.validatorParams.value;
       && Supply(s'.bank, BOND_DENOM) == Supply(s.bank, BOND_DENOM) - burn.amount.value
       && burn.amount.value >= p.registrationBurn.amount.value
       && (burn.amount.value > 0 ==> burn.denom == BOND_DENOM)
       && create.value.amount.value >= p.minSelfDelegation.amount.value
       && create.minSelfDelegation.value >= p.minSelfDelegation.amount.value
       && c.accounts.toBytes(sender).Some?
       && c.accounts.toBytes(sender) == c.operators.toBytes(create.operator)
       && c.accounts.toBytes(sender).value !in s.validators
       && s'.validators == s.validators + {c.accounts.toBytes(sender).value}
  }

  /** The parts of a registration that commits. */
  lemma RegistrationParts(c: Config, s: State, sender: Text, create: CreateValidator, burn: Coin, says: BankSays)
    returns (a: Addr, s': State)
    requires s.validatorParams.Some? && RegisterOutcome(c, s, sender, create, burn, says).Ok?
    ensures c.accounts.toBytes(sender) == Some(a) == c.operators.toBytes(create.operator)
    ensures FundsError(burn, create, s.validatorParams.value).None?
    ensures BurnOutcome(s, a, burn, says) == Ok(s')
    ensures RegisterOutcome(c, s, sender, create, burn, says) == StakingOutcome(c, s', create)
  {
    a := c.accounts.toBytes(sender).value;
    s' := BurnOutcome(s, a, burn, says).state;
  }

  lemma FundsMet(c: Config, burn: Coin, create: CreateValidator, p: ValidatorParams)
    requires ValidValidatorParams(c, p) && FundsError(burn, create, p).None?
    ensures burn.amount.Num? && create.value.amount.Num? && create.minSelfDelegation.Num?
    ensures burn.denom == p.registrationBurn.denom && burn.amount.value >= p.registrationBurn.amount.value >= 0
    ensures create.value.amount.value >= p.minSelfDelegation.amount.value
    ensures create.minSelfDelegation.value >= p.minSelfDelegation.amount.value
  {
  }

  /** What a committed registration does in a valid state. */
  lemma RegistrationEffect(c: Config, s: State, sender: Text, create: CreateValidator, burn: Coin, says: BankSays)
    requires ValidConfig(c) && ValidState(c, s) && RegisterOutcome(c, s, sender, create, burn, says).Ok?
    ensures Registers(c, s, RegisterOutcome(c, s, sender, create, burn, says).state, sender, create, burn)
  {
    var a, s' := RegistrationParts(c, s, sender, create, burn, says);
    FundsMet(c, burn, create, s.validatorParams.value);
    BurnTouchesOnlySender(s, a, burn, says, BOND_DENOM, a);
    BurnExplained(c, s, a, burn, says);
    StakingEffect(c, s', create);
    RegistersWhen(c, s, s', StakingOutcome(c, s', create).state, a, sender, create, burn);
  }

  lemma RegistersWhen(c: Config, s: State, s1: State, s2: State, a: Addr, sender: Text, create: CreateValidator, burn: Coin)
    requires s.validatorParams.Some? && ValidValidatorParams(c, s.validatorParams.value)
    requires FundsError(burn, create, s.validatorParams.value).None?
    requires c.accounts.toBytes(sender) == Some(a) == c.operators.toBytes(create.operator)
    requires burn.amount.Num? && (burn.amount.value > 0 ==> burn.denom == BOND_DENOM)
    requires Supply(s1.bank, BOND_DENOM) == Supply(s.bank, BOND_DENOM) - burn.amount.value && s1.validators == s.validators
    requires a !in s1.validators && s2.validators == s1.validators + {a} && s2.bank.supply == s1.bank.supply
    ensures Registers(c, s, s2, sender, create, burn)
  {
    FundsMet(c, burn, create, s.validatorParams.value);
  }

  // ----- whole runs

  /** Count, total and each account's total are the initial ones plus the length, sum and per-sender sum of the burn log. */
  lemma TrackersRefineLog(c: Config, s: State, steps: seq<Step>, a: Addr)
    requires ValidConfig(c) && ValidState(c, s)
    ensures CountOf(Run(c, s, steps).burn) == Counted(s.burn, Log(c, s, steps))
    ensures TotalOf(Run(c, s, steps).burn) == TotalOf(s.burn) + BurnSum(Log(c, s, steps))
    ensures AccountTotal(Run(c, s, steps).burn, a) == AccountTotal(s.burn, a) + BurnSumOf(Log(c, s, steps), a)
  {
    RunExplained(c, s, steps);
  }

  /** Native supply plus the growth of the global burn total is the initial supply plus what other modules made, less what they destroyed. */
  lemma Conservation(c: Config, s: State, steps: seq<Step>)
    requires ValidConfig(c) && ValidState(c, s)
    ensures Supply(Run(c, s, steps).bank, BOND_DENOM) + (TotalOf(Run(c, s, steps).burn) - TotalOf(s.burn))
         == Supply(s.bank, BOND_DENOM) + NetMade(Log(c, s, steps))
  {
    RunExplained(c, s, steps);
  }

  /** The global total minus the sum of the account totals never changes; genesis need not make it zero. */
  lemma DiscrepancyConstant(c: Config, s: State, steps: seq<Step>)
    requires ValidConfig(c) && ValidState(c, s)
    ensures var b := Run(c, s, steps).burn;
            TotalOf(b) - Sum(b.accounts) == TotalOf(s.burn) - Sum(s.burn.accounts)
  {
    RunExplained(c, s, steps);
  }

  // ----- validators, who may leave and come back

  predicate NoneCreated(es: seq<Event>) {
    forall i | 0 <= i < |es| :: !es[i].Created?
  }

  /** v joins by a registration at index i of es, which met the stored minimums and whose burn came right before it. */
  ghost predicate PaysAt(c: Config, es: seq<Event>, i: nat, v: Addr) {
    i < |es| && es[i].Registered? && es[i].operator == v && PaidAt(c, es, i)
  }

  /** The height counts the blocks that began. */
  lemma HeightLaw(c: Config, s: State, steps: seq<Step>)
    requires ValidConfig(c) && ValidState(c, s)
    ensures Run(c, s, steps).height == s.height + BlocksBegun(c, s, steps)
  {
    RunExplained(c, s, steps);
  }

  /**
    Once a block has begun, by how much v's membership and the number of validators change is
    told by registrations and leavings: every time a validator comes, also when it comes back,
    there is a registration of its own, and every registration was paid for.
   */
  lemma ValidatorTurnover(c: Config, s: State, steps: seq<Step>, k: nat, v: Addr)
    requires ValidConfig(c) && ValidState(c, s) && k <= |steps| && BlocksBegun(c, s, steps[..k]) > 0
    ensures var s1, s2, log := Run(c, s, steps[..k]), Run(c, s, steps), Log(c, Run(c, s, steps[..k]), steps[k..]);
            && In(s2, v) + Tally(log, LeaveOf(v)) == In(s1, v) + Tally(log, JoinOf(v))
            && |s2.validators| + Tally(log, IsLeave) == |s1.validators| + Tally(log, IsJoin)
            && NoneCreated(log) && AllPaid(c, log)
  {
    RunSplit(c, s, steps[..k], steps[k..]);
    assert steps[..k] + steps[k..] == steps;
    RunExplained(c, s, steps[..k]);
    LaterTurnover(c, Run(c, s, steps[..k]), steps[k..], v);
  }

  lemma LaterTurnover(c: Config, s: State, steps: seq<Step>, v: Addr)
    requires ValidConfig(c) && ValidState(c, s) && s.height > 0
    ensures var s', log := Run(c, s, steps), Log(c, s, steps);
            && In(s', v) + Tally(log, LeaveOf(v)) == In(s, v) + Tally(log, JoinOf(v))
            && |s'.validators| + Tally(log, IsLeave) == |s.validators| + Tally(log, IsJoin)
            && NoneCreated(log) && AllPaid(c, log)
  {
    RunExplained(c, s, steps);
  }

  lemma EntryPaid(c: Config, s: State, s': State, es: seq<Event>, rise: nat, v: Addr) returns (i: nat)
    requires Explains(c, s, s', es, rise) && s.height > 0
    requires v in s'.validators && v !in s.validators
    ensures PaysAt(c, es, i, v) && LastParams(es[..i], s.validatorParams) == Some(es[i].params)
  {
    LeavingsCount(es, v);
    i := TallyPositive(es, JoinOf(v));
  }

  lemma {:induction false} LeavingsCount(es: seq<Event>, v: Addr)
    ensures Tally(es, LeaveOf(v)) >= 0
  {
    if es != [] {
      LeavingsCount(es[..|es| - 1], v);
    }
  }

  /**
    Whenever v becomes a validator once a block has begun, the step in which it does holds a
    registration of v, paid for by the parameters then in force.
   */
  lemma EveryEntryPaid(c: Config, s: State, steps: seq<Step>, k: nat, v: Addr)
    requires ValidConfig(c) && ValidState(c, s) && k < |steps|
    requires BlocksBegun(c, s, steps[..k]) > 0
    requires v !in Run(c, s, steps[..k]).validators && v in Run(c, s, steps[..k + 1]).validators
    ensures var before := Run(c, s, steps[..k]);
            var es := StepEvents(c, before, steps[k]);
            exists i: nat :: PaysAt(c, es, i, v) && LastParams(es[..i], before.validatorParams) == Some(es[i].params)
  {
    var before := Run(c, s, steps[..k]);
    assert steps[..k + 1][..k] == steps[..k];
    RunExplained(c, s, steps[..k]);
    StepExplained(c, before, steps[k]);
    var i := EntryPaid(c, before, Run(c, s, steps[..k + 1]), StepEvents(c, before, steps[k]), StepRise(c, before, steps[k]), v);
  }

  lemma NewcomerPaid(c: Config, s: State, steps: seq<Step>, v: Addr)
    requires ValidConfig(c) && ValidState(c, s) && s.height > 0
    requires v !in s.validators && v in Run(c, s, steps).validators
    ensures exists i :: PaysAt(c, Log(c, s, steps), i, v)
  {
    RunExplained(c, s, steps);
    var i := EntryPaid(c, s, Run(c, s, steps), Log(c, s, steps), BlocksBegun(c, s, steps), v);
  }

  /** Whoever is a validator but was none at some point after the first block began registered, and paid, after it. */
  lemma EveryValidatorPaid(c: Config, s: State, steps: seq<Step>, k: nat, v: Addr)
    requires ValidConfig(c) && ValidState(c, s) && k <= |steps|
    requires BlocksBegun(c, s, steps[..k]) > 0
    requires v in Run(c, s, steps).validators && v !in Run(c, s, steps[..k]).validators
    ensures exists i :: PaysAt(c, Log(c, Run(c, s, steps[..k]), steps[k..]), i, v)
  {
    RunSplit(c, s, steps[..k], steps[k..]);
    assert steps[..k] + steps[k..] == steps;
    RunExplained(c, s, steps[..k]);
    NewcomerPaid(c, Run(c, s, steps[..k]), steps[k..], v);
  }

  // ----- parameters

  /**
    After every run both parameter sets are those of the last update, or the initial ones;
    every update came from the authority and carried valid parameters.
   */
  lemma ParametersAreTheLastUpdate(c: Config, s: State, steps: seq<Step>)
    requires ValidConfig(c) && ValidState(c, s)
    ensures Run(c, s, steps).burn.feeBurnPercent == LastPercent(Log(c, s, steps), s.burn.feeBurnPercent)
    ensures Run(c, s, steps).validatorParams == LastParams(Log(c, s, steps), s.validatorParams)
    ensures forall i | 0 <= i < |Log(c, s, steps)| :: Authorized(c, Log(c, s, steps)[i])
  {
    RunExplained(c, s, steps);
  }

  /**
    In every reachable state, a committed registration burns exactly the message's amount, which
    meets the stored minimum, also when a zero minimum carries another denomination; both
    self-delegation fields meet theirs; and the sender is the operator, who was no validator
    before. That the stored parameters are valid rests on every update of them.
   */
  lemma RegistrationLaw(c: Config, s: State, steps: seq<Step>, sender: Text, create: CreateValidator, burn: Coin, says: BankSays)
    requires ValidConfig(c) && ValidState(c, s)
    requires RegisterOutcome(c, Run(c, s, steps), sender, create, burn, says).Ok?
    ensures Registers(c, Run(c, s, steps), RegisterOutcome(c, Run(c, s, steps), sender, create, burn, says).state, sender, create, burn)
  {
    RunExplained(c, s, steps);
    RegistrationEffect(c, Run(c, s, steps), sender, create, burn, says);
  }

  /** In every reachable state the fee burn fits the collector, and succeeds exactly when there is nothing to burn or the bank goes along. */
  lemma FeeBurnFailsOnlyIfRefused(c: Config, s: State, steps: seq<Step>, says: BankSays)
    requires ValidConfig(c) && ValidState(c, s)
    ensures var s' := Run(c, s, steps);
            && ValidState(c, s')
            && 0 <= FeeBurned(c, s') <= Collected(c, s')
            && (FeeBurnOutcome(c, s', says).Ok? <==> FeeBurned(c, s') == 0 || (says.send && says.burn))
  {
    RunExplained(c, s, steps);
    FeeBurnSucceedsIff(c, Run(c, s, steps), says);
  }

  // ----- requirements in another denomination

  /** A requirement of nothing, in a denomination other than the native one. */
  predicate ForeignZero(v: Coin) {
    v.amount == Num(0) && v.denom != BOND_DENOM
  }

  /** The documentation asks for the native denomination; this update with another one is accepted. */
  lemma ForeignRequirementAccepted(c: Config, s: State, denom: string)
    requires ValidConfig(c) && c.validDenom(denom) && denom != BOND_DENOM
    ensures var p := ValidatorParams(Coin(denom, Num(0)), Coin(BOND_DENOM, Num(0)));
            RouteOutcome(c, s, MsgValidatorUpdateParams(c.authority, p)) == Ok(s.(validatorParams := Some(p)))
  {
  }

  /** In every reachable state, the stored parameters are native exactly when neither requires zero of another denomination. */
  lemma ParamsNativeIff(c: Config, s: State, steps: seq<Step>)
    requires ValidConfig(c) && ValidState(c, s)
    ensures Run(c, s, steps).validatorParams.Some?
    ensures var p := Run(c, s, steps).validatorParams.value;
            && (p.registrationBurn.denom == p.minSelfDelegation.denom == BOND_DENOM
                <==> !ForeignZero(p.registrationBurn) && !ForeignZero(p.minSelfDelegation))
  {
    RunExplained(c, s, steps);
  }

  /** Under a burn requirement in another denomination, a registration commits only with a zero burn, and burns nothing. */
  lemma ForeignRequirementBurnsNothing(c: Config, s: State, steps: seq<Step>, sender: Text, create: CreateValidator, burn: Coin, says: BankSays)
    requires ValidConfig(c) && ValidState(c, s)
    requires Run(c, s, steps).validatorParams.Some?
    requires Run(c, s, steps).validatorParams.value.registrationBurn.denom != BOND_DENOM
    requires RegisterOutcome(c, Run(c, s, steps), sender, create, burn, says).Ok?
    ensures var now := Run(c, s, steps);
            var s' := RegisterOutcome(c, now, sender, create, burn, says).state;
            && burn.amount == Num(0) && burn.denom == now.validatorParams.value.registrationBurn.denom
            && s'.burn == now.burn && Supply(s'.bank, BOND_DENOM) == Supply(now.bank, BOND_DENOM)
  {
    RegistrationLaw(c, s, steps, sender, create, burn, says);
  }
}
