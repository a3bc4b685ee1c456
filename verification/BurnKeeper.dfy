/**
  The burn module's keeper: coins go to the module account and are burned there, and three
  trackers are updated. Its methods mutate the context step by step and can fail halfway; on
  success each is a single debit of the sender, which is what the specification says.
 */
module BurnKeeper {
  import opened Basics
  import opened Bank
  import opened Chain

  /** Whether the bank goes along with a send and a burn that the balances allow. */
  datatype BankSays = BankSays(send: bool, burn: bool)

  datatype Outcome = Ok(state: State) | Err(error: Error)

  // ----- specification

  function Tracked(b: BurnStore, a: Addr, n: int): BurnStore {
    b.(count := Some((CountOf(b) + 1) % TWO_64),
       total := Some(TotalOf(b) + n),
       accounts := b.accounts[a := AccountTotal(b, a) + n])
  }

  /** n native coins of account a are burned and recorded. */
  function BurnEffect(s: State, a: Addr, n: int): State {
    s.(bank := Burnt(s.bank, BOND_DENOM, a, n), burn := Tracked(s.burn, a, n))
  }

  function BurnOutcome(s: State, sender: Addr, coin: Coin, says: BankSays): Outcome {
    if coin.amount.Nil? || coin.amount.value < 0 then Err(Panic)
    else if !says.send || Balance(s.bank, coin.denom, sender) < coin.amount.value then Err(ErrBankSend)
    else if coin.amount.value == 0 then Ok(s)
    else if coin.denom != BOND_DENOM then Err(ErrInvalidBurnDenom)
    else if !says.burn then Err(ErrBankBurn)
    else Ok(BurnEffect(s, sender, coin.amount.value))
  }

  /** floor(p * balance / 10^18), for a percentage p scaled by 10^18; Go truncates toward zero. */
  function BurnableAmount(p: int, balance: nat): int {
    if p >= 0 then p * balance / ONE_DEC else -(-p * balance / ONE_DEC)
  }

  const BANK_AGREES := BankSays(true, true)

  function FeeBurnOutcome(c: Config, s: State, says: BankSays): Outcome {
    match s.burn.feeBurnPercent
    case None => Err(ErrNotFound)
    case Some(Nil) => Err(Panic)
    case Some(Num(p)) =>
      var balance := Balance(s.bank, BOND_DENOM, c.feeCollector);
      if balance < 0 then Err(Panic)
      else if BurnableAmount(p, balance) <= 0 then Ok(s)
      else BurnOutcome(s, c.feeCollector, Coin(BOND_DENOM, Num(BurnableAmount(p, balance))), says)
  }

  // ----- the keeper

  /** The bank's send, with empty coins for a zero amount. */
  method SendCoins(ctx: Context, from: Addr, to: Addr, coin: Coin, accepts: bool) returns (err: Option<Error>)
    modifies ctx
    ensures ctx.Snapshot() == old(ctx.Snapshot()).(bank := ctx.bank)
    ensures coin.amount.Nil? || coin.amount.value < 0 ==> err == Some(Panic)
    ensures coin.amount.Num? && coin.amount.value >= 0 ==>
              err == if !accepts || Balance(old(ctx.bank), coin.denom, from) < coin.amount.value then Some(ErrBankSend) else None
    ensures err.Some? ==> ctx.bank == old(ctx.bank)
    ensures err.None? ==>
              ctx.bank == if coin.amount.value == 0 then old(ctx.bank)
                          else Sent(old(ctx.bank), coin.denom, from, to, coin.amount.value)
  {
    if coin.amount.Nil? || coin.amount.value < 0 {
      return Some(Panic);
    }
    if !accepts || Balance(ctx.bank, coin.denom, from) < coin.amount.value {
      return Some(ErrBankSend);
    }
    if coin.amount.value > 0 {
      ctx.bank := Sent(ctx.bank, coin.denom, from, to, coin.amount.value);
    }
    return None;
  }

  /** The bank's burn from a module account. */
  method BurnCoins(ctx: Context, module': Addr, n: nat, accepts: bool) returns (err: Option<Error>)
    modifies ctx
    ensures ctx.Snapshot() == old(ctx.Snapshot()).(bank := ctx.bank)
    ensures err == if !accepts || Balance(old(ctx.bank), BOND_DENOM, module') < n then Some(ErrBankBurn) else None
    ensures ctx.bank == if err.Some? then old(ctx.bank) else Burnt(old(ctx.bank), BOND_DENOM, module', n)
  {
    if !accepts || Balance(ctx.bank, BOND_DENOM, module') < n {
      return Some(ErrBankBurn);
    }
    ctx.bank := Burnt(ctx.bank, BOND_DENOM, module', n);
    return None;
  }

  method UpdateTrackers(ctx: Context, sender: Addr, n: int)
    modifies ctx
    ensures ctx.Snapshot() == old(ctx.Snapshot()).(burn := Tracked(old(ctx.burn), sender, n))
  {
    ctx.burn := ctx.burn.(count := Some((CountOf(ctx.burn) + 1) % TWO_64));
    var globalTotal := TotalOf(ctx.burn);
    ctx.burn := ctx.burn.(total := Some(globalTotal + n));
    var accountTotal := AccountTotal(ctx.burn, sender);
    ctx.burn := ctx.burn.(accounts := ctx.burn.accounts[sender := accountTotal + n]);
  }

  ghost function BurnedInModule(c: Config, s: State, sender: Addr, n: int): State {
    s.(bank := Burnt(s.bank, BOND_DENOM, c.burnModule, n), burn := Tracked(s.burn, sender, n))
  }

  /** The coins are already in the module account. */
  method BurnNative(c: Config, ctx: Context, sender: Addr, coin: Coin, accepts: bool) returns (err: Option<Error>)
    requires coin.amount.Num?
    requires coin.amount.value <= Balance(ctx.bank, coin.denom, c.burnModule) || coin.amount.value <= 0
    modifies ctx
    ensures var n := coin.amount.value;
            if n <= 0 then err == None && ctx.Snapshot() == old(ctx.Snapshot())
            else if coin.denom != BOND_DENOM then err == Some(ErrInvalidBurnDenom) && ctx.Snapshot() == old(ctx.Snapshot())
            else if !accepts then err == Some(ErrBankBurn) && ctx.Snapshot() == old(ctx.Snapshot())
            else err == None && ctx.Snapshot() == BurnedInModule(c, old(ctx.Snapshot()), sender, n)
  {
    if coin.amount.value <= 0 {
      return None;
    }
    if coin.denom != BOND_DENOM {
      return Some(ErrInvalidBurnDenom);
    }
    err := BurnCoins(ctx, c.burnModule, coin.amount.value, accepts);
    if err.Some? {
      return;
    }
    UpdateTrackers(ctx, sender, coin.amount.value);
  }

  /**
    Send to the module account, then burn there. On success the effect is BurnEffect; on
    failure the trackers and the supply are untouched, but after a wrong denomination or a
    refused burn the coins have already moved.
   */
  method BurnFromAccount(c: Config, ctx: Context, sender: Addr, coin: Coin, says: BankSays)
    returns (err: Option<Error>)
    requires ValidBank(ctx.bank)
    modifies ctx
    ensures match BurnOutcome(old(ctx.Snapshot()), sender, coin, says)
            case Ok(s) => err == None && ctx.Snapshot() == s
            case Err(e) => err == Some(e)
    ensures err.Some? ==> ctx.Snapshot() == old(ctx.Snapshot()).(bank := ctx.bank) && ctx.bank.supply == old(ctx.bank.supply)
    ensures err == Some(ErrInvalidBurnDenom) || err == Some(ErrBankBurn) ==>
              ctx.bank == Sent(old(ctx.bank), coin.denom, sender, c.burnModule, coin.amount.value)
    ensures err == Some(Panic) || err == Some(ErrBankSend) ==> ctx.bank == old(ctx.bank)
  {
    ghost var bank := ctx.bank;
    err := SendCoins(ctx, sender, c.burnModule, coin, says.send);
    if err.Some? {
      return;
    }
    if coin.amount.value > 0 {
      SentBalance(bank, coin.denom, sender, c.burnModule, coin.amount.value, c.burnModule);
      BalanceWithinSupply(bank, coin.denom, c.burnModule);
      SendThenBurn(bank, coin.denom, sender, c.burnModule, coin.amount.value);
    }
    err := BurnNative(c, ctx, sender, coin, says.burn);
  }

  /** The same steps, with the bank's send between module accounts. */
  method BurnFromModule(c: Config, ctx: Context, senderModule: Addr, coin: Coin, says: BankSays) returns (err: Option<Error>)
    requires ValidBank(ctx.bank)
    modifies ctx
    ensures match BurnOutcome(old(ctx.Snapshot()), senderModule, coin, says)
            case Ok(s) => err == None && ctx.Snapshot() == s
            case Err(e) => err == Some(e)
    ensures err.Some? ==> ctx.Snapshot() == old(ctx.Snapshot()).(bank := ctx.bank) && ctx.bank.supply == old(ctx.bank.supply)
    ensures err == Some(ErrInvalidBurnDenom) || err == Some(ErrBankBurn) ==>
              ctx.bank == Sent(old(ctx.bank), coin.denom, senderModule, c.burnModule, coin.amount.value)
    ensures err == Some(Panic) || err == Some(ErrBankSend) ==> ctx.bank == old(ctx.bank)
  {
    err := BurnFromAccount(c, ctx, senderModule, coin, says);
  }

  method ProcessFeeBurn(c: Config, ctx: Context, says: BankSays) returns (err: Option<Error>)
    requires ValidBank(ctx.bank)
    modifies ctx
    ensures match FeeBurnOutcome(c, old(ctx.Snapshot()), says)
            case Ok(s) => err == None && ctx.Snapshot() == s
            case Err(e) => err == Some(e)
    ensures err.Some? ==> ctx.Snapshot() == old(ctx.Snapshot()).(bank := ctx.bank) && ctx.bank.supply == old(ctx.bank.supply)
  {
    BalanceWithinSupply(ctx.bank, BOND_DENOM, c.feeCollector);
    if ctx.burn.feeBurnPercent == None {
      return Some(ErrNotFound);
    }
    if ctx.burn.feeBurnPercent.value.Nil? {
      return Some(Panic);
    }
    var percent := ctx.burn.feeBurnPercent.value.value;
    var burnable := BurnableAmount(percent, Balance(ctx.bank, BOND_DENOM, c.feeCollector));
    if burnable <= 0 {
      return None;
    }
    err := BurnFromModule(c, ctx, c.feeCollector, Coin(BOND_DENOM, Num(burnable)), says);
  }
}
