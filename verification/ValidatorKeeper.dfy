/**
  Validator registration, the restricted staking server and the circuit breaker, and the
  message servers in front of the two keepers.
 */
module ValidatorKeeper {
  import opened Basics
  import opened Bank
  import opened Chain
  import opened BurnKeeper

  /** MsgCreateValidator; accepted is the verdict of the staking module's own checks. */
  datatype CreateValidator =
    CreateValidator(operator: Text, value: Coin, minSelfDelegation: Number, accepted: bool)

  datatype Msg =
    | MsgBurn(from: Text, amount: Coin, says: BankSays)
    | MsgRegisterValidator(sender: Text, create: CreateValidator, burn: Coin, says: BankSays)
    | MsgBurnUpdateParams(signer: Text, percent: Number)
    | MsgValidatorUpdateParams(signer: Text, params: ValidatorParams)
    | MsgCreateValidator(create: CreateValidator)
    | MsgSend(from: Text, to: Text, amount: Coin, says: BankSays)

  const CREATE_VALIDATOR_URL := "/cosmos.staking.v1beta1.MsgCreateValidator"

  function TypeURL(msg: Msg): string {
    match msg
    case MsgBurn(_, _, _) => "/monolythium.burn.v1.MsgBurn"
    case MsgRegisterValidator(_, _, _, _) => "/monolythium.validator.v1.MsgRegisterValidator"
    case MsgBurnUpdateParams(_, _) => "/monolythium.burn.v1.MsgUpdateParams"
    case MsgValidatorUpdateParams(_, _) => "/monolythium.validator.v1.MsgUpdateParams"
    case MsgCreateValidator(_) => CREATE_VALIDATOR_URL
    case MsgSend(_, _, _, _) => "/cosmos.bank.v1beta1.MsgSend"
  }

  // ----- specification

  /** Less than a stored minimum; a nil amount counts as less. */
  predicate Below(x: Number, min: Number) {
    x.Nil? || min.Nil? || x.value < min.value
  }

  function ResolveSender(c: Config, sender: Text, create: CreateValidator): Option<Addr> {
    var s, v := c.accounts.toBytes(sender), c.operators.toBytes(create.operator);
    if s.Some? && v.Some? && s == v then s else None
  }

  function FundsError(burn: Coin, create: CreateValidator, p: ValidatorParams): Option<Error> {
    if burn.denom != p.registrationBurn.denom then Some(ErrBurnDenomMismatch)
    else if Below(burn.amount, p.registrationBurn.amount) then Some(ErrBurnBelowRequired)
    else if create.value.denom != p.minSelfDelegation.denom then Some(ErrDelegationDenomMismatch)
    else if Below(create.value.amount, p.minSelfDelegation.amount) || Below(create.minSelfDelegation, p.minSelfDelegation.amount)
    then Some(ErrMinSelfDelegationBelowRequired)
    else None
  }

  /**
    The staking module's CreateValidator, outside the repository: it refuses an operator that
    exists and whatever fails its own checks, moves the self-delegation to the staking pool
    and adds the validator.
   */
  function StakingOutcome(c: Config, s: State, create: CreateValidator): Outcome {
    match c.operators.toBytes(create.operator)
    case None => Err(ErrInvalidAddress)
    case Some(op) =>
      if !create.accepted || op in s.validators then Err(ErrStaking)
      else if create.value.amount.Nil? || create.value.amount.value < 0 then Err(ErrStaking)
      else if Balance(s.bank, create.value.denom, op) < create.value.amount.value then Err(ErrStaking)
      else
        var bank := if create.value.amount.value == 0 then s.bank
                    else Sent(s.bank, create.value.denom, op, c.stakingPool, create.value.amount.value);
        Ok(s.(bank := bank, validators := s.validators + {op}))
  }

  function RegisterOutcome(c: Config, s: State, sender: Text, create: CreateValidator, burn: Coin, says: BankSays): Outcome {
    if s.validatorParams.None? then Err(ErrParamsRead)
    else
      match ResolveSender(c, sender, create)
      case None =>
        if c.accounts.toBytes(sender).None? || c.operators.toBytes(create.operator).None? then Err(ErrInvalidAddress)
        else Err(ErrRegistrationAddressMismatch)
      case Some(a) =>
        var refusal := FundsError(burn, create, s.validatorParams.value);
        if refusal.Some? then Err(refusal.value)
        else
          match BurnOutcome(s, a, burn, says)
          case Err(e) => Err(e)
          case Ok(s') => StakingOutcome(c, s', create)
  }

  /** The staking server that the staking precompile gets. */
  function RestrictedOutcome(c: Config, s: State, create: CreateValidator): Outcome {
    if s.height == 0 then StakingOutcome(c, s, create) else Err(ErrInvalidRegistrationTx)
  }

  predicate IsAllowed(height: nat, typeURL: string) {
    typeURL == CREATE_VALIDATOR_URL ==> height == 0
  }

  /** Module accounts that cannot receive a plain transfer. */
  predicate Blocked(c: Config, a: Addr) {
    a == c.feeCollector || a == c.distribution || a == c.stakingPool
  }

  /** A plain transfer, as the bank module makes it. */
  function SendOutcome(c: Config, s: State, from: Text, to: Text, coin: Coin, says: BankSays): Outcome {
    match (c.accounts.toBytes(from), c.accounts.toBytes(to))
    case (Some(f), Some(t)) =>
      if coin.amount.Nil? || coin.amount.value <= 0 || Blocked(c, t) then Err(ErrBankSend)
      else if !says.send || Balance(s.bank, coin.denom, f) < coin.amount.value then Err(ErrBankSend)
      else Ok(s.(bank := Sent(s.bank, coin.denom, f, t, coin.amount.value)))
    case _ => Err(ErrInvalidAddress)
  }

  // ----- what other modules do

  /** A deed of another module: coins move, appear or disappear, or staking drops a validator that nobody bonds to any more. */
  datatype Deed =
    | Moved(denom: string, from: Addr, to: Addr, n: nat)
    | Made(denom: string, to: Addr, n: nat)
    | Destroyed(denom: string, from: Addr, n: nat)
    | Removed(operator: Addr)

  function DeedOutcome(s: State, deed: Deed): Outcome {
    match deed
    case Moved(denom, from, to, n) =>
      if Balance(s.bank, denom, from) < n then Err(ErrBankSend)
      else Ok(s.(bank := Sent(s.bank, denom, from, to, n)))
    case Made(denom, to, n) => Ok(s.(bank := Minted(s.bank, denom, to, n)))
    case Destroyed(denom, from, n) =>
      if Balance(s.bank, denom, from) < n then Err(ErrBankBurn)
      else Ok(s.(bank := Burnt(s.bank, denom, from, n)))
    case Removed(operator) =>
      if operator !in s.validators then Err(ErrStaking)
      else Ok(s.(validators := s.validators - {operator}))
  }

  /** A message's handler. */
  function HandleOutcome(c: Config, s: State, msg: Msg): Outcome {
    match msg
    case MsgBurn(from, coin, says) => (
      match c.accounts.toBytes(from)
      case None => Err(ErrInvalidAddress)
      case Some(a) => BurnOutcome(s, a, coin, says))
    case MsgRegisterValidator(sender, create, burn, says) => RegisterOutcome(c, s, sender, create, burn, says)
    case MsgBurnUpdateParams(signer, percent) =>
      if signer != c.authority then Err(ErrInvalidSigner)
      else if !ValidPercent(percent) then Err(ErrInvalidFeeBurnPercent)
      else Ok(s.(burn := s.burn.(feeBurnPercent := Some(percent))))
    case MsgValidatorUpdateParams(signer, p) =>
      if signer != c.authority then Err(ErrInvalidSigner)
      else if !ValidRequirement(c, p.registrationBurn) then Err(ErrInvalidRegistrationBurn)
      else if !ValidRequirement(c, p.minSelfDelegation) then Err(ErrInvalidMinSelfDelegation)
      else Ok(s.(validatorParams := Some(p)))
    case MsgCreateValidator(create) => StakingOutcome(c, s, create)
    case MsgSend(from, to, coin, says) => SendOutcome(c, s, from, to, coin, says)
  }

  /** The message router asks the circuit breaker before it calls a handler. */
  function RouteOutcome(c: Config, s: State, msg: Msg): Outcome {
    if IsAllowed(s.height, TypeURL(msg)) then HandleOutcome(c, s, msg) else Err(ErrCircuitBreaker)
  }

  // ----- the keeper and the servers

  method StakingCreateValidator(c: Config, ctx: Context, create: CreateValidator) returns (err: Option<Error>)
    modifies ctx
    ensures match StakingOutcome(c, old(ctx.Snapshot()), create)
            case Ok(s) => err == None && ctx.Snapshot() == s
            case Err(e) => err == Some(e)
    ensures err.Some? ==> ctx.Snapshot() == old(ctx.Snapshot())
  {
    var op := c.operators.toBytes(create.operator);
    if op == None {
      return Some(ErrInvalidAddress);
    }
    if !create.accepted || op.value in ctx.validators || create.value.amount.Nil? || create.value.amount.value < 0 {
      return Some(ErrStaking);
    }
    var failed := SendCoins(ctx, op.value, c.stakingPool, create.value, true);
    if failed.Some? {
      return Some(ErrStaking);
    }
    ctx.validators := ctx.validators + {op.value};
    return None;
  }

  method RestrictedCreateValidator(c: Config, ctx: Context, create: CreateValidator) returns (err: Option<Error>)
    modifies ctx
    ensures match RestrictedOutcome(c, old(ctx.Snapshot()), create)
            case Ok(s) => err == None && ctx.Snapshot() == s
            case Err(e) => err == Some(e)
    ensures err.Some? ==> ctx.Snapshot() == old(ctx.Snapshot())
  {
    if ctx.height == 0 {
      err := StakingCreateValidator(c, ctx, create);
    } else {
      err := Some(ErrInvalidRegistrationTx);
    }
  }

  /** Checks, then the burn, then the creation by the unrestricted staking server; if that refuses, the burn is done. */
  method RegisterValidator(c: Config, ctx: Context, sender: Text, create: CreateValidator, burn: Coin, says: BankSays)
    returns (err: Option<Error>)
    requires ValidBank(ctx.bank)
    modifies ctx
    ensures match RegisterOutcome(c, old(ctx.Snapshot()), sender, create, burn, says)
            case Ok(s) => err == None && ctx.Snapshot() == s
            case Err(e) => err == Some(e)
    ensures err == Some(ErrStaking) ==>
              && c.accounts.toBytes(sender).Some?
              && BurnOutcome(old(ctx.Snapshot()), c.accounts.toBytes(sender).value, burn, says) == Ok(ctx.Snapshot())
  {
    if ctx.validatorParams == None {
      return Some(ErrParamsRead);
    }
    var s := c.accounts.toBytes(sender);
    if s == None {
      return Some(ErrInvalidAddress);
    }
    var v := c.operators.toBytes(create.operator);
    if v == None {
      return Some(ErrInvalidAddress);
    }
    if s.value != v.value {
      return Some(ErrRegistrationAddressMismatch);
    }
    err := FundsError(burn, create, ctx.validatorParams.value);
    if err.Some? {
      return;
    }
    err := BurnFromAccount(c, ctx, s.value, burn, says);
    if err.Some? {
      return;
    }
    err := StakingCreateValidator(c, ctx, create);
  }

  method Do(ctx: Context, deed: Deed) returns (err: Option<Error>)
    modifies ctx
    ensures match DeedOutcome(old(ctx.Snapshot()), deed)
            case Ok(s) => err == None && ctx.Snapshot() == s
            case Err(e) => err == Some(e) && ctx.Snapshot() == old(ctx.Snapshot())
  {
    err := None;
    match deed
    case Moved(denom, from, to, n) =>
      if Balance(ctx.bank, denom, from) < n {
        return Some(ErrBankSend);
      }
      ctx.bank := Sent(ctx.bank, denom, from, to, n);
    case Made(denom, to, n) =>
      ctx.bank := Minted(ctx.bank, denom, to, n);
    case Destroyed(denom, from, n) =>
      if Balance(ctx.bank, denom, from) < n {
        return Some(ErrBankBurn);
      }
      ctx.bank := Burnt(ctx.bank, denom, from, n);
    case Removed(operator) =>
      if operator !in ctx.validators {
        return Some(ErrStaking);
      }
      ctx.validators := ctx.validators - {operator};
  }

  /** A message's handler, which may leave the context half changed when it fails. */
  method Handle(c: Config, ctx: Context, msg: Msg) returns (err: Option<Error>)
    requires ValidBank(ctx.bank)
    modifies ctx
    ensures match HandleOutcome(c, old(ctx.Snapshot()), msg)
            case Ok(s) => err == None && ctx.Snapshot() == s
            case Err(e) => err == Some(e)
  {
    err := None;
    match msg
    case MsgBurn(from, coin, says) =>
      var a := c.accounts.toBytes(from);
      if a == None {
        return Some(ErrInvalidAddress);
      }
      err := BurnFromAccount(c, ctx, a.value, coin, says);
    case MsgRegisterValidator(sender, create, burn, says) =>
      err := RegisterValidator(c, ctx, sender, create, burn, says);
    case MsgBurnUpdateParams(signer, percent) =>
      if signer != c.authority {
        return Some(ErrInvalidSigner);
      }
      if !ValidPercent(percent) {
        return Some(ErrInvalidFeeBurnPercent);
      }
      ctx.burn := ctx.burn.(feeBurnPercent := Some(percent));
    case MsgValidatorUpdateParams(signer, p) =>
      if signer != c.authority {
        return Some(ErrInvalidSigner);
      }
      if !ValidRequirement(c, p.registrationBurn) {
        return Some(ErrInvalidRegistrationBurn);
      }
      if !ValidRequirement(c, p.minSelfDelegation) {
        return Some(ErrInvalidMinSelfDelegation);
      }
      ctx.validatorParams := Some(p);
    case MsgCreateValidator(create) =>
      err := StakingCreateValidator(c, ctx, create);
    case MsgSend(from, to, coin, says) =>
      var f, t := c.accounts.toBytes(from), c.accounts.toBytes(to);
      if f == None || t == None {
        return Some(ErrInvalidAddress);
      }
      if coin.amount.Nil? || coin.amount.value <= 0 || Blocked(c, t.value) {
        return Some(ErrBankSend);
      }
      err := SendCoins(ctx, f.value, t.value, coin, says.send);
  }
}
