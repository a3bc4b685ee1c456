/**
  When messages commit and what they then do: for each message of the two modules an exact
  condition that a sender could check beforehand, the whole effect on the state, and the error
  of a refusal.
 */
module Acceptance {
  import opened Basics
  import opened Bank
  import opened Chain
  import opened BurnKeeper
  import opened ValidatorKeeper
  import opened History
  import opened Dispatch
  import opened Runs

  // ----- burns

  /** A burn that the balances and the bank allow; nothing can be burned in any denomination. */
  predicate CanBurn(s: State, a: Addr, coin: Coin, says: BankSays) {
    && coin.amount.Num? && coin.amount.value >= 0
    && says.send && coin.amount.value <= Balance(s.bank, coin.denom, a)
    && (coin.amount.value > 0 ==> coin.denom == "alyth" && says.burn)
  }

  /** Every balance and supply as before, except for n native coins of account a, which are gone. */
  ghost predicate CoinsGone(b: Bank, b': Bank, a: Addr, n: int) {
    && (forall denom, x ::
          Balance(b', denom, x) == Balance(b, denom, x) - (if denom == "alyth" && x == a then n else 0))
    && (forall denom :: Supply(b', denom) == Supply(b, denom) - (if denom == "alyth" then n else 0))
  }

  /** One more burn, of n, by a. */
  ghost predicate Recorded(b: BurnStore, b': BurnStore, a: Addr, n: int) {
    && b'.feeBurnPercent == b.feeBurnPercent
    && CountOf(b') == (CountOf(b) + (if n > 0 then 1 else 0)) % 0x1_0000_0000_0000_0000
    && TotalOf(b') == TotalOf(b) + n
    && forall x :: AccountTotal(b', x) == AccountTotal(b, x) + (if x == a then n else 0)
  }

  ghost predicate Burns(s: State, s': State, a: Addr, n: int) {
    && CoinsGone(s.bank, s'.bank, a, n) && Recorded(s.burn, s'.burn, a, n)
    && s'.validatorParams == s.validatorParams && s'.validators == s.validators && s'.height == s.height
  }

  lemma BurnOutcomeIff(s: State, a: Addr, coin: Coin, says: BankSays)
    requires ValidBank(s.bank)
    ensures BurnOutcome(s, a, coin, says).Ok? <==> CanBurn(s, a, coin, says)
    ensures BurnOutcome(s, a, coin, says).Ok? ==> Burns(s, BurnOutcome(s, a, coin, says).state, a, coin.amount.value)
  {
    if BurnOutcome(s, a, coin, says).Ok? && coin.amount.value > 0 {
      BurnEffectBurns(s, a, coin.amount.value);
    }
  }

  lemma BurnEffectBurns(s: State, a: Addr, n: int)
    requires n > 0
    ensures Burns(s, BurnEffect(s, a, n), a, n)
  {
    var b' := Burnt(s.bank, BOND_DENOM, a, n);
    forall denom, x
      ensures Balance(b', denom, x) == Balance(s.bank, denom, x) - (if denom == "alyth" && x == a then n else 0)
    {
      BurntBalance(s.bank, BOND_DENOM, a, n, x);
    }
  }

  /** A burn message commits exactly when its sender decodes and can burn, and then burns exactly its amount. */
  lemma BurnCommitsIff(c: Config, s: State, from: Text, coin: Coin, says: BankSays)
    requires ValidBank(s.bank)
    ensures var o, a := RouteOutcome(c, s, MsgBurn(from, coin, says)), c.accounts.toBytes(from);
            && (o.Ok? <==> a.Some? && CanBurn(s, a.value, coin, says))
            && (o.Ok? ==> Burns(s, o.state, a.value, coin.amount.value))
  {
    if c.accounts.toBytes(from).Some? {
      BurnOutcomeIff(s, c.accounts.toBytes(from).value, coin, says);
    }
  }

  /** The error of a refused burn: about the amount, the transfer, the denomination, the burn, in this order. */
  lemma BurnRefusals(s: State, a: Addr, coin: Coin, says: BankSays)
    ensures var o, n := BurnOutcome(s, a, coin, says), coin.amount;
            && (n.Nil? || n.value < 0 ==> o == Err(Panic))
            && (n.Num? && n.value >= 0 && (!says.send || Balance(s.bank, coin.denom, a) < n.value) ==> o == Err(ErrBankSend))
            && (n.Num? && n.value > 0 && says.send && Balance(s.bank, coin.denom, a) >= n.value && coin.denom != "alyth"
                ==> o == Err(ErrInvalidBurnDenom))
            && (n.Num? && n.value > 0 && says.send && Balance(s.bank, coin.denom, a) >= n.value && coin.denom == "alyth" && !says.burn
                ==> o == Err(ErrBankBurn))
  {
  }

  // ----- creations by staking

  /** What staking asks for, of an account that has already spent `spent` native coins. */
  predicate CanStake(s: State, op: Addr, create: CreateValidator, spent: int) {
    && create.accepted && op !in s.validators
    && create.value.amount.Num? && create.value.amount.value >= 0
    && create.value.amount.value + (if create.value.denom == "alyth" then spent else 0) <= Balance(s.bank, create.value.denom, op)
  }

  /** The self-delegation went from op to the staking pool, and op is a validator. */
  ghost predicate Stakes(c: Config, s: State, s': State, op: Addr, value: Coin)
    requires value.amount.Num?
  {
    && (forall denom, x ::
          Balance(s'.bank, denom, x) == Balance(s.bank, denom, x)
            - (if denom == value.denom && x == op then value.amount.value else 0)
            + (if denom == value.denom && x == c.stakingPool then value.amount.value else 0))
    && s'.bank.supply == s.bank.supply && s'.validators == s.validators + {op}
    && s'.burn == s.burn && s'.validatorParams == s.validatorParams && s'.height == s.height
  }

  lemma StakingIff(c: Config, s: State, create: CreateValidator)
    ensures var o, op := StakingOutcome(c, s, create), c.operators.toBytes(create.operator);
            && (o.Ok? <==> op.Some? && CanStake(s, op.value, create, 0))
            && (o.Ok? ==> Stakes(c, s, o.state, op.value, create.value))
  {
    var o, op := StakingOutcome(c, s, create), c.operators.toBytes(create.operator);
    if o.Ok? && create.value.amount.value > 0 {
      forall denom, x
        ensures Balance(o.state.bank, denom, x) == Balance(s.bank, denom, x)
                  - (if denom == create.value.denom && x == op.value then create.value.amount.value else 0)
                  + (if denom == create.value.denom && x == c.stakingPool then create.value.amount.value else 0)
      {
        SentBalance(s.bank, create.value.denom, op.value, c.stakingPool, create.value.amount.value, x);
      }
    }
  }

  /** A bare creation commits, through the router and through the precompile, exactly at height 0 and when staking accepts it. */
  lemma DirectCreationIff(c: Config, s: State, create: CreateValidator)
    ensures var op := c.operators.toBytes(create.operator);
            && (Exec(c, s, Precompile(create)).Ok? <==> s.height == 0 && op.Some? && CanStake(s, op.value, create, 0))
            && (Exec(c, s, Routed(MsgCreateValidator(create))).Ok? <==> s.height == 0 && op.Some? && CanStake(s, op.value, create, 0))
            && (Exec(c, s, Precompile(create)).Ok? ==> Stakes(c, s, Exec(c, s, Precompile(create)).state, op.value, create.value))
            && (s.height > 0 ==> Exec(c, s, Precompile(create)) == Err(ErrInvalidRegistrationTx))
            && (s.height > 0 ==> Exec(c, s, Routed(MsgCreateValidator(create))) == Err(ErrCircuitBreaker))
  {
    StakingIff(c, s, create);
  }

  /** The circuit breaker stops one message type, after genesis. */
  lemma BreakerIff(height: nat, typeURL: string)
    ensures IsAllowed(height, typeURL) <==> height == 0 || typeURL != "/cosmos.staking.v1beta1.MsgCreateValidator"
  {
  }

  // ----- registrations

  /** The message against the stored parameters: denominations as stored, amounts set and at least the stored ones. */
  predicate MeetsParams(create: CreateValidator, burn: Coin, p: ValidatorParams) {
    && p.registrationBurn.amount.Num? && p.minSelfDelegation.amount.Num?
    && burn.denom == p.registrationBurn.denom && create.value.denom == p.minSelfDelegation.denom
    && burn.amount.Num? && burn.amount.value >= p.registrationBurn.amount.value
    && create.value.amount.Num? && create.value.amount.value >= p.minSelfDelegation.amount.value
    && create.minSelfDelegation.Num? && create.minSelfDelegation.value >= p.minSelfDelegation.amount.value
  }

  predicate CanRegister(c: Config, s: State, a: Addr, create: CreateValidator, burn: Coin, says: BankSays) {
    && s.validatorParams.Some? && MeetsParams(create, burn, s.validatorParams.value)
    && CanBurn(s, a, burn, says) && CanStake(s, a, create, burn.amount.value)
  }

  /** The sender's and the operator's text stand for a. */
  predicate SameAccount(c: Config, sender: Text, operator: Text, a: Addr) {
    c.accounts.toBytes(sender) == Some(a) && c.operators.toBytes(operator) == Some(a)
  }

  lemma FundsIff(create: CreateValidator, burn: Coin, p: ValidatorParams)
    requires p.registrationBurn.amount.Num? && p.minSelfDelegation.amount.Num?
    ensures FundsError(burn, create, p).None? <==> MeetsParams(create, burn, p)
  {
  }

  /** Staking after a burn of the same account. */
  lemma StakeAfterBurn(s: State, s': State, a: Addr, create: CreateValidator, n: int)
    requires Burns(s, s', a, n)
    ensures CanStake(s', a, create, 0) <==> CanStake(s, a, create, n)
  {
  }

  /** A registration in parts: the burn, then the creation. */
  ghost predicate RegistersBy(c: Config, s: State, s': State, a: Addr, create: CreateValidator, burn: Coin)
    requires burn.amount.Num? && create.value.amount.Num?
  {
    exists mid :: Burns(s, mid, a, burn.amount.value) && Stakes(c, mid, s', a, create.value)
  }

  lemma RegisterOutcomeIff(c: Config, s: State, sender: Text, create: CreateValidator, burn: Coin, says: BankSays)
    requires ValidState(c, s)
    ensures var o := RegisterOutcome(c, s, sender, create, burn, says);
            && (o.Ok? <==> exists a :: SameAccount(c, sender, create.operator, a) && CanRegister(c, s, a, create, burn, says))
            && (o.Ok? ==> RegistersBy(c, s, o.state, c.accounts.toBytes(sender).value, create, burn))
  {
    FundsIff(create, burn, s.validatorParams.value);
    var resolved := ResolveSender(c, sender, create);
    if resolved.Some? {
      var a := resolved.value;
      assert SameAccount(c, sender, create.operator, a);
      BurnOutcomeIff(s, a, burn, says);
      if BurnOutcome(s, a, burn, says).Ok? {
        var mid := BurnOutcome(s, a, burn, says).state;
        StakeAfterBurn(s, mid, a, create, burn.amount.value);
        StakingIff(c, mid, create);
      }
    }
  }

  /**
    A registration commits in s exactly when sender and operator are one account that is no
    validator, the message meets the stored parameters, the account holds the burn and then the
    self-delegation, and bank and staking agree; and then it burns and stakes exactly that.
   */
  ghost predicate RegistersExactlyWhen(c: Config, s: State, sender: Text, create: CreateValidator, burn: Coin, says: BankSays) {
    var o := RouteOutcome(c, s, MsgRegisterValidator(sender, create, burn, says));
    && (o.Ok? <==> exists a :: SameAccount(c, sender, create.operator, a) && CanRegister(c, s, a, create, burn, says))
    && (o.Ok? ==>
          && c.accounts.toBytes(sender).Some? && burn.amount.Num? && create.value.amount.Num?
          && RegistersBy(c, s, o.state, c.accounts.toBytes(sender).value, create, burn))
  }

  lemma RegistrationCommitsIffIn(c: Config, s: State, sender: Text, create: CreateValidator, burn: Coin, says: BankSays)
    requires ValidState(c, s)
    ensures RegistersExactlyWhen(c, s, sender, create, burn, says)
  {
    RegisterOutcomeIff(c, s, sender, create, burn, says);
  }

  /** So it is in every reachable state. */
  lemma RegistrationCommitsIff(c: Config, s: State, steps: seq<Step>, sender: Text, create: CreateValidator, burn: Coin, says: BankSays)
    requires ValidConfig(c) && ValidState(c, s)
    ensures RegistersExactlyWhen(c, Run(c, s, steps), sender, create, burn, says)
  {
    RunExplained(c, s, steps);
    RegistrationCommitsIffIn(c, Run(c, s, steps), sender, create, burn, says);
  }

  /** The error of a registration refused before any coin moves: about the first thing wrong, in this order. */
  lemma RegistrationRefusals(c: Config, s: State, sender: Text, create: CreateValidator, burn: Coin, says: BankSays, p: ValidatorParams)
    requires p.registrationBurn.amount.Num? && p.minSelfDelegation.amount.Num?
    ensures var o, from, op := RegisterOutcome(c, s, sender, create, burn, says), c.accounts.toBytes(sender), c.operators.toBytes(create.operator);
            && (s.validatorParams == None ==> o == Err(ErrParamsRead))
            && (s.validatorParams == Some(p) ==>
                  && (from.None? || op.None? ==> o == Err(ErrInvalidAddress))
                  && (from.Some? && op.Some? && from != op ==> o == Err(ErrRegistrationAddressMismatch))
                  && (from.Some? && from == op ==>
                        && (burn.denom != p.registrationBurn.denom ==> o == Err(ErrBurnDenomMismatch))
                        && (burn.denom == p.registrationBurn.denom ==>
                              && (!AtLeast(burn.amount, p.registrationBurn.amount.value) ==> o == Err(ErrBurnBelowRequired))
                              && (AtLeast(burn.amount, p.registrationBurn.amount.value) ==>
                                    && (create.value.denom != p.minSelfDelegation.denom ==> o == Err(ErrDelegationDenomMismatch))
                                    && (create.value.denom == p.minSelfDelegation.denom
                                        && !(AtLeast(create.value.amount, p.minSelfDelegation.amount.value)
                                             && AtLeast(create.minSelfDelegation, p.minSelfDelegation.amount.value))
                                        ==> o == Err(ErrMinSelfDelegationBelowRequired))))))
  {
  }

  predicate AtLeast(x: Number, n: int) {
    x.Num? && x.value >= n
  }

  // ----- parameter updates

  /** An update of the fee-burn share commits exactly when the authority signed a share between zero and one, and changes nothing else. */
  lemma FeeParamsUpdateIff(c: Config, s: State, signer: Text, percent: Number)
    ensures var o := RouteOutcome(c, s, MsgBurnUpdateParams(signer, percent));
            && (o.Ok? <==> signer == c.authority && percent.Num? && 0 <= percent.value <= 1_000_000_000_000_000_000)
            && (o.Ok? ==> o.state == s.(burn := s.burn.(feeBurnPercent := Some(percent))))
            && (signer != c.authority ==> o == Err(ErrInvalidSigner))
            && (signer == c.authority && !o.Ok? ==> o == Err(ErrInvalidFeeBurnPercent))
  {
  }

  /** The same for the validator module and its two requirements. */
  lemma ValidatorParamsUpdateIff(c: Config, s: State, signer: Text, p: ValidatorParams)
    ensures var o := RouteOutcome(c, s, MsgValidatorUpdateParams(signer, p));
            && (o.Ok? <==> signer == c.authority && Requirement(c, p.registrationBurn) && Requirement(c, p.minSelfDelegation))
            && (o.Ok? ==> o.state == s.(validatorParams := Some(p)))
            && (signer != c.authority ==> o == Err(ErrInvalidSigner))
            && (signer == c.authority && !Requirement(c, p.registrationBurn) ==> o == Err(ErrInvalidRegistrationBurn))
            && (signer == c.authority && Requirement(c, p.registrationBurn) && !o.Ok? ==> o == Err(ErrInvalidMinSelfDelegation))
  {
  }

  // ----- plain transfers

  /** A plain transfer commits exactly when both texts decode, the amount is positive and there, the receiver is no module account that only modules fill, and the bank agrees. */
  lemma SendCommitsIff(c: Config, s: State, from: Text, to: Text, coin: Coin, says: BankSays)
    ensures var o, f, t := RouteOutcome(c, s, MsgSend(from, to, coin, says)), c.accounts.toBytes(from), c.accounts.toBytes(to);
            && (o.Ok? <==>
                  && f.Some? && t.Some? && coin.amount.Num? && says.send
                  && 0 < coin.amount.value <= Balance(s.bank, coin.denom, f.value)
                  && t.value !in {c.feeCollector, c.distribution, c.stakingPool})
            && (o.Ok? ==> o.state == s.(bank := o.state.bank) && o.state.bank.supply == s.bank.supply)
  {
  }

  // ----- all or nothing

  function Append(xs: Nodes, ys: Nodes): Nodes {
    match xs
    case Done => ys
    case Then(head, tail) => Then(head, Append(tail, ys))
  }

  /** A transaction whose messages run up to one that fails, fails with its error and changes nothing. */
  lemma {:induction false} FailureUndoesAll(c: Config, s: State, done: Nodes, bad: Node, rest: Nodes, e: Error)
    requires ExecAll(c, s, done).Ok? && Exec(c, ExecAll(c, s, done).state, bad) == Err(e)
    ensures Exec(c, s, All(Append(done, Then(bad, rest)))) == Err(e)
    ensures Committed(s, Exec(c, s, All(Append(done, Then(bad, rest))))) == s
    decreases done
  {
    if done.Then? {
      FailureUndoesAll(c, Exec(c, s, done.head).state, done.tail, bad, rest, e);
    }
  }
}
