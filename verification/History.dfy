/**
  What happened on the chain, as a log of events that is read off the messages and not off the
  trackers, and what such a log explains about the state.
 */
module History {
  import opened Basics
  import opened Ledger
  import opened Bank
  import opened Chain
  import opened BurnKeeper
  import opened ValidatorKeeper

  datatype Event =
    | Burned(account: Addr, amount: int)
    | Registered(operator: Addr, burned: int, sender: Text, create: CreateValidator, params: ValidatorParams)
    | Created(operator: Addr)
    /** Staking dropped a validator. */
    | Left(operator: Addr)
    /** Another module made native coins, or destroyed them when negative. */
    | Supplied(amount: int)
    /** Native coins were paid into the fee collector. */
    | PaidIn(amount: int)
    /** Parameter updates. */
    | PercentSet(signer: Text, percent: Number)
    | ParamsSet(signer: Text, newParams: ValidatorParams)

  function BurnEvents(a: Addr, amount: int): seq<Event> {
    if amount > 0 then [Burned(a, amount)] else []
  }

  /** The sum of f over some events. */
  function Tally(es: seq<Event>, f: Event -> int): int {
    if es == [] then 0 else Tally(es[..|es| - 1], f) + f(es[|es| - 1])
  }

  lemma {:induction false} TallyConcat(es: seq<Event>, fs: seq<Event>, f: Event -> int)
    ensures Tally(es + fs, f) == Tally(es, f) + Tally(fs, f)
    decreases |fs|
  {
    if fs == [] {
      assert es + fs == es;
    } else {
      var front := fs[..|fs| - 1];
      assert (es + fs)[..|es + fs| - 1] == es + front;
      TallyConcat(es, front, f);
    }
  }

  lemma TallyOne(e: Event, f: Event -> int)
    ensures Tally([e], f) == f(e)
  {
    assert [e][..0] == [];
  }

  /** A positive tally has a positive event. */
  lemma {:induction false} TallyPositive(es: seq<Event>, f: Event -> int) returns (i: nat)
    requires Tally(es, f) > 0
    ensures i < |es| && f(es[i]) > 0
    decreases |es|
  {
    if f(es[|es| - 1]) > 0 {
      i := |es| - 1;
    } else {
      i := TallyPositive(es[..|es| - 1], f);
    }
  }

  function IsBurn(e: Event): int { if e.Burned? then 1 else 0 }

  function BurnAmount(e: Event): int { if e.Burned? then e.amount else 0 }

  function IsJoin(e: Event): int { if Joins(e) then 1 else 0 }

  function IsLeave(e: Event): int { if e.Left? then 1 else 0 }

  function SupplyAmount(e: Event): int { if e.Supplied? then e.amount else 0 }

  function PaidAmount(e: Event): int { if e.PaidIn? then e.amount else 0 }

  function BurnBy(a: Addr): Event -> int {
    (e: Event) => if e.Burned? && e.account == a then e.amount else 0
  }

  predicate Joins(e: Event) {
    e.Registered? || e.Created?
  }

  function JoinOf(v: Addr): Event -> int {
    (e: Event) => if Joins(e) && e.operator == v then 1 else 0
  }

  function LeaveOf(v: Addr): Event -> int {
    (e: Event) => if e.Left? && e.operator == v then 1 else 0
  }

  function BurnCount(es: seq<Event>): int { Tally(es, IsBurn) }

  function BurnSum(es: seq<Event>): int { Tally(es, BurnAmount) }

  function BurnSumOf(es: seq<Event>, a: Addr): int { Tally(es, BurnBy(a)) }

  /** Native supply that other modules made, less what they destroyed. */
  function NetMade(es: seq<Event>): int { Tally(es, SupplyAmount) }

  /** What was paid into the fee collector. */
  function Inflow(es: seq<Event>): int { Tally(es, PaidAmount) }

  function Collected(c: Config, s: State): int {
    Balance(s.bank, BOND_DENOM, c.feeCollector)
  }

  // ----- what the events explain

  /** The count after some events: a uint64 that wraps. */
  function Counted(b: BurnStore, es: seq<Event>): int {
    (CountOf(b) + BurnCount(es)) % TWO_64
  }

  /** The trackers moved exactly by the burns. */
  ghost predicate TrackersFollow(b: BurnStore, b': BurnStore, es: seq<Event>) {
    && CountOf(b') == Counted(b, es)
    && TotalOf(b') == TotalOf(b) + BurnSum(es)
    && (forall a :: AccountTotal(b', a) == AccountTotal(b, a) + BurnSumOf(es, a))
    && TotalOf(b') - Sum(b'.accounts) == TotalOf(b) - Sum(b.accounts)
    && NoneFell(b, b')
  }

  /** No total fell. */
  ghost predicate NoneFell(b: BurnStore, b': BurnStore) {
    TotalOf(b) <= TotalOf(b') && forall a :: AccountTotal(b, a) <= AccountTotal(b', a)
  }

  /** The registration at index i met the stored requirements and its burn, if any, came right before it. */
  ghost predicate PaidAt(c: Config, es: seq<Event>, i: nat)
    requires i < |es| && es[i].Registered?
  {
    var e := es[i];
    && ValidValidatorParams(c, e.params)
    && c.accounts.toBytes(e.sender) == Some(e.operator) == c.operators.toBytes(e.create.operator)
    && e.burned >= e.params.registrationBurn.amount.value
    && !Below(e.create.value.amount, e.params.minSelfDelegation.amount)
    && !Below(e.create.minSelfDelegation, e.params.minSelfDelegation.amount)
    && (e.burned > 0 ==> i > 0 && es[i - 1] == Burned(e.operator, e.burned))
  }

  ghost predicate AllPaid(c: Config, es: seq<Event>) {
    forall i | 0 <= i < |es| && es[i].Registered? :: PaidAt(c, es, i)
  }

  function In(s: State, v: Addr): int {
    if v in s.validators then 1 else 0
  }

  /** Validators come by the joining events, the direct ones only at height 0, and go by the leaving ones: each of them, and all together. */
  ghost predicate ValidatorsFollow(s: State, s': State, es: seq<Event>) {
    && (forall v :: In(s', v) + Tally(es, LeaveOf(v)) == In(s, v) + Tally(es, JoinOf(v)))
    && |s'.validators| + Tally(es, IsLeave) == |s.validators| + Tally(es, IsJoin)
    && (forall i | 0 <= i < |es| && es[i].Created? :: s.height == 0)
    && s.height <= s'.height
  }

  /** Native supply, and what the fee collector holds, moved by the events; the collector may also have paid. */
  ghost predicate CoinsFollow(c: Config, s: State, s': State, es: seq<Event>) {
    && Supply(s'.bank, BOND_DENOM) == Supply(s.bank, BOND_DENOM) - BurnSum(es) + NetMade(es)
    && Collected(c, s') <= Collected(c, s) + Inflow(es)
  }

  /** The fee-burn percentage after some updates. */
  function LastPercent(es: seq<Event>, before: Option<Number>): Option<Number> {
    if es == [] then before
    else
      match es[|es| - 1]
      case PercentSet(_, percent) => Some(percent)
      case _ => LastPercent(es[..|es| - 1], before)
  }

  /** The validator parameters after some updates. */
  function LastParams(es: seq<Event>, before: Option<ValidatorParams>): Option<ValidatorParams> {
    if es == [] then before
    else
      match es[|es| - 1]
      case ParamsSet(_, p) => Some(p)
      case _ => LastParams(es[..|es| - 1], before)
  }

  predicate IsUpdate(e: Event) {
    e.PercentSet? || e.ParamsSet?
  }

  /** A requirement is an amount of the native coin, or nothing of a valid denomination. */
  predicate Requirement(c: Config, v: Coin) {
    v.amount.Num? && c.validDenom(v.denom) && (v.amount.value == 0 || (v.amount.value > 0 && v.denom == "alyth"))
  }

  /** An update comes from the authority: a share between zero and one, or two requirements. */
  predicate Authorized(c: Config, e: Event) {
    match e
    case PercentSet(signer, percent) => signer == c.authority && percent.Num? && 0 <= percent.value <= 1_000_000_000_000_000_000
    case ParamsSet(signer, p) => signer == c.authority && Requirement(c, p.registrationBurn) && Requirement(c, p.minSelfDelegation)
    case _ => true
  }

  /** Both parameter sets are those of the last update, and a registration was held against the ones in force. */
  ghost predicate ParamsFollow(c: Config, s: State, s': State, es: seq<Event>) {
    && s'.burn.feeBurnPercent == LastPercent(es, s.burn.feeBurnPercent)
    && s'.validatorParams == LastParams(es, s.validatorParams)
    && (forall i | 0 <= i < |es| :: Authorized(c, es[i]))
    && (forall i | 0 <= i < |es| && es[i].Registered? :: LastParams(es[..i], s.validatorParams) == Some(es[i].params))
  }

  /** es tells how the state got from s to s', where `rise` blocks began. */
  ghost predicate Explains(c: Config, s: State, s': State, es: seq<Event>, rise: nat) {
    && ValidState(c, s')
    && TrackersFollow(s.burn, s'.burn, es)
    && CoinsFollow(c, s, s', es)
    && ValidatorsFollow(s, s', es)
    && ParamsFollow(c, s, s', es)
    && AllPaid(c, es)
    && s'.height == s.height + rise
  }

  lemma NothingExplains(c: Config, s: State)
    requires ValidState(c, s)
    ensures Explains(c, s, s, [], 0)
  {
  }

  lemma {:induction false} LastConcat(es: seq<Event>, fs: seq<Event>, x: Option<Number>, y: Option<ValidatorParams>)
    ensures LastPercent(es + fs, x) == LastPercent(fs, LastPercent(es, x))
    ensures LastParams(es + fs, y) == LastParams(fs, LastParams(es, y))
    decreases |fs|
  {
    if fs == [] {
      assert es + fs == es;
    } else {
      var front := fs[..|fs| - 1];
      assert (es + fs)[..|es + fs| - 1] == es + front;
      LastConcat(es, front, x, y);
    }
  }

  lemma {:induction false} NoUpdate(es: seq<Event>, x: Option<Number>, y: Option<ValidatorParams>)
    requires forall i | 0 <= i < |es| :: !IsUpdate(es[i])
    ensures LastPercent(es, x) == x && LastParams(es, y) == y
  {
    if es != [] {
      NoUpdate(es[..|es| - 1], x, y);
    }
  }

  /** Events that are no updates leave the parameters. */
  lemma ParamsStay(c: Config, s: State, s': State, es: seq<Event>)
    requires s'.burn.feeBurnPercent == s.burn.feeBurnPercent && s'.validatorParams == s.validatorParams
    requires forall i | 0 <= i < |es| :: !IsUpdate(es[i])
    requires forall i | 0 <= i < |es| && es[i].Registered? :: s.validatorParams == Some(es[i].params)
    ensures ParamsFollow(c, s, s', es)
  {
    NoUpdate(es, s.burn.feeBurnPercent, s.validatorParams);
    forall i | 0 <= i < |es| && es[i].Registered? ensures LastParams(es[..i], s.validatorParams) == Some(es[i].params) {
      NoUpdate(es[..i], s.burn.feeBurnPercent, s.validatorParams);
    }
  }

  lemma ParamsChain(c: Config, s: State, s': State, s'': State, es: seq<Event>, fs: seq<Event>)
    requires ParamsFollow(c, s, s', es) && ParamsFollow(c, s', s'', fs)
    ensures ParamsFollow(c, s, s'', es + fs)
  {
    LastConcat(es, fs, s.burn.feeBurnPercent, s.validatorParams);
    forall i | 0 <= i < |es + fs| && (es + fs)[i].Registered?
      ensures LastParams((es + fs)[..i], s.validatorParams) == Some((es + fs)[i].params)
    {
      if i < |es| {
        assert (es + fs)[..i] == es[..i];
      } else {
        assert (es + fs)[..i] == es + fs[..i - |es|];
        LastConcat(es, fs[..i - |es|], s.burn.feeBurnPercent, s.validatorParams);
      }
    }
  }

  lemma TrackersChain(b: BurnStore, b': BurnStore, b'': BurnStore, es: seq<Event>, fs: seq<Event>)
    requires TrackersFollow(b, b', es) && TrackersFollow(b', b'', fs)
    ensures TrackersFollow(b, b'', es + fs)
  {
    TallyConcat(es, fs, IsBurn);
    TallyConcat(es, fs, BurnAmount);
    assert CountOf(b'') == (CountOf(b) + BurnCount(es) + BurnCount(fs)) % TWO_64;
    forall a ensures AccountTotal(b'', a) == AccountTotal(b, a) + BurnSumOf(es + fs, a) {
      TallyConcat(es, fs, BurnBy(a));
    }
  }

  lemma ValidatorsChain(s: State, s': State, s'': State, es: seq<Event>, fs: seq<Event>)
    requires ValidatorsFollow(s, s', es) && ValidatorsFollow(s', s'', fs)
    ensures ValidatorsFollow(s, s'', es + fs)
  {
    TallyConcat(es, fs, IsLeave);
    TallyConcat(es, fs, IsJoin);
    forall v ensures In(s'', v) + Tally(es + fs, LeaveOf(v)) == In(s, v) + Tally(es + fs, JoinOf(v)) {
      TallyConcat(es, fs, LeaveOf(v));
      TallyConcat(es, fs, JoinOf(v));
    }
  }

  lemma CoinsChain(c: Config, s: State, s': State, s'': State, es: seq<Event>, fs: seq<Event>)
    requires CoinsFollow(c, s, s', es) && CoinsFollow(c, s', s'', fs)
    ensures CoinsFollow(c, s, s'', es + fs)
  {
    TallyConcat(es, fs, BurnAmount);
    TallyConcat(es, fs, SupplyAmount);
    TallyConcat(es, fs, PaidAmount);
  }

  lemma PaidConcat(c: Config, es: seq<Event>, fs: seq<Event>)
    requires AllPaid(c, es) && AllPaid(c, fs)
    ensures AllPaid(c, es + fs)
  {
  }

  lemma ExplainsChain(c: Config, s: State, s': State, s'': State, es: seq<Event>, fs: seq<Event>, m: nat, n: nat)
    requires Explains(c, s, s', es, m) && Explains(c, s', s'', fs, n)
    ensures Explains(c, s, s'', es + fs, m + n)
  {
    TrackersChain(s.burn, s'.burn, s''.burn, es, fs);
    CoinsChain(c, s, s', s'', es, fs);
    ValidatorsChain(s, s', s'', es, fs);
    ParamsChain(c, s, s', s'', es, fs);
    PaidConcat(c, es, fs);
  }

  // ----- single effects

  /** An event that is no burn moves no tracker. */
  lemma NoBurnFollows(b: BurnStore, e: Event)
    requires !e.Burned?
    ensures TrackersFollow(b, b, [e]) && BurnSum([e]) == 0
  {
    TallyOne(e, IsBurn);
    TallyOne(e, BurnAmount);
    forall a ensures BurnSumOf([e], a) == 0 {
      TallyOne(e, BurnBy(a));
    }
  }

  /** An event that is no joining or leaving moves no validator. */
  lemma NoMoveFollows(s: State, s': State, e: Event)
    requires !Joins(e) && !e.Left? && s'.validators == s.validators && s'.height == s.height
    ensures ValidatorsFollow(s, s', [e])
  {
    TallyOne(e, IsJoin);
    TallyOne(e, IsLeave);
    forall v ensures Tally([e], JoinOf(v)) == Tally([e], LeaveOf(v)) == 0 {
      TallyOne(e, JoinOf(v));
      TallyOne(e, LeaveOf(v));
    }
  }

  lemma CoinsOne(e: Event)
    ensures BurnSum([e]) == BurnAmount(e) && NetMade([e]) == SupplyAmount(e) && Inflow([e]) == PaidAmount(e)
  {
    TallyOne(e, BurnAmount);
    TallyOne(e, SupplyAmount);
    TallyOne(e, PaidAmount);
  }

  lemma BurnTracked(b: BurnStore, a: Addr, n: int)
    requires n > 0
    ensures TrackersFollow(b, Tracked(b, a, n), [Burned(a, n)])
  {
    var e := Burned(a, n);
    SumSet(b.accounts, a, AccountTotal(b, a) + n);
    TallyOne(e, IsBurn);
    TallyOne(e, BurnAmount);
    forall x ensures BurnSumOf([e], x) == BurnBy(x)(e) {
      TallyOne(e, BurnBy(x));
    }
  }

  /** A committed burn. */
  lemma BurnExplained(c: Config, s: State, a: Addr, coin: Coin, says: BankSays)
    requires ValidState(c, s) && Decodable(c.accounts, a) && BurnOutcome(s, a, coin, says).Ok?
    ensures Explains(c, s, BurnOutcome(s, a, coin, says).state, BurnEvents(a, coin.amount.value), 0)
  {
    var n := coin.amount.value;
    if n > 0 {
      BurnEffectExplained(c, s, a, n);
    }
  }

  lemma BurnEffectExplained(c: Config, s: State, a: Addr, n: int)
    requires ValidState(c, s) && Decodable(c.accounts, a) && 0 < n <= Balance(s.bank, BOND_DENOM, a)
    ensures Explains(c, s, BurnEffect(s, a, n), [Burned(a, n)], 0)
  {
    BurntValid(s.bank, BOND_DENOM, a, n);
    BurntBalance(s.bank, BOND_DENOM, a, n, c.feeCollector);
    BurnTracked(s.burn, a, n);
    NoMoveFollows(s, BurnEffect(s, a, n), Burned(a, n));
    CoinsOne(Burned(a, n));
    ParamsStay(c, s, BurnEffect(s, a, n), [Burned(a, n)]);
  }

  /** What the staking module does when it accepts: one new validator, paid from its own account, supply unchanged. */
  lemma StakingEffect(c: Config, s: State, create: CreateValidator)
    requires ValidConfig(c) && ValidState(c, s) && StakingOutcome(c, s, create).Ok?
    ensures var s', op := StakingOutcome(c, s, create).state, c.operators.toBytes(create.operator).value;
            && ValidBank(s'.bank) && s' == s.(bank := s'.bank, validators := s.validators + {op})
            && op !in s.validators && s'.bank.supply == s.bank.supply
            && Collected(c, s') <= Collected(c, s)
  {
    var op := c.operators.toBytes(create.operator).value;
    var v := create.value;
    if v.amount.value > 0 {
      SentValid(s.bank, v.denom, op, c.stakingPool, v.amount.value);
      SentElsewhere(c, s.bank, v.denom, op, c.stakingPool, v.amount.value);
    }
  }

  /** A transfer past the fee collector. */
  lemma SentElsewhere(c: Config, b: Bank, denom: string, from: Addr, to: Addr, n: int)
    requires n >= 0 && (to != c.feeCollector || denom != BOND_DENOM)
    ensures Balance(Sent(b, denom, from, to, n), BOND_DENOM, c.feeCollector) <= Balance(b, BOND_DENOM, c.feeCollector)
    ensures Sent(b, denom, from, to, n).supply == b.supply
  {
    if denom == BOND_DENOM {
      SentBalance(b, denom, from, to, n, c.feeCollector);
    }
  }

  lemma JoinFollows(s: State, s': State, e: Event)
    requires Joins(e) && e.operator !in s.validators && s'.validators == s.validators + {e.operator}
    requires s'.height == s.height && (e.Created? ==> s.height == 0)
    ensures ValidatorsFollow(s, s', [e])
  {
    TallyOne(e, IsJoin);
    TallyOne(e, IsLeave);
    forall v ensures Tally([e], JoinOf(v)) == (if v == e.operator then 1 else 0) && Tally([e], LeaveOf(v)) == 0 {
      TallyOne(e, JoinOf(v));
      TallyOne(e, LeaveOf(v));
    }
  }

  lemma LeaveFollows(s: State, s': State, v: Addr)
    requires v in s.validators && s'.validators == s.validators - {v} && s'.height == s.height
    ensures ValidatorsFollow(s, s', [Left(v)])
  {
    var e := Left(v);
    TallyOne(e, IsJoin);
    TallyOne(e, IsLeave);
    forall u ensures Tally([e], LeaveOf(u)) == (if u == v then 1 else 0) && Tally([e], JoinOf(u)) == 0 {
      TallyOne(e, JoinOf(u));
      TallyOne(e, LeaveOf(u));
    }
  }

  /** A creation, told by event e. */
  lemma CreationExplained(c: Config, s: State, create: CreateValidator, e: Event)
    requires ValidConfig(c) && ValidState(c, s) && StakingOutcome(c, s, create).Ok?
    requires Joins(e) && Some(e.operator) == c.operators.toBytes(create.operator)
    requires e.Created? ==> s.height == 0
    requires e.Registered? ==> s.validatorParams == Some(e.params)
    ensures var s' := StakingOutcome(c, s, create).state;
            && ValidState(c, s') && TrackersFollow(s.burn, s'.burn, [e])
            && CoinsFollow(c, s, s', [e]) && ValidatorsFollow(s, s', [e]) && ParamsFollow(c, s, s', [e])
            && s'.height == s.height
  {
    StakingEffect(c, s, create);
    NoBurnFollows(s.burn, e);
    CoinsOne(e);
    JoinFollows(s, StakingOutcome(c, s, create).state, e);
    ParamsStay(c, s, StakingOutcome(c, s, create).state, [e]);
  }

  /** A direct creation at height 0. */
  lemma DirectCreationExplained(c: Config, s: State, create: CreateValidator)
    requires ValidConfig(c) && ValidState(c, s) && StakingOutcome(c, s, create).Ok? && s.height == 0
    ensures Explains(c, s, StakingOutcome(c, s, create).state, [Created(c.operators.toBytes(create.operator).value)], 0)
  {
    CreationExplained(c, s, create, Created(c.operators.toBytes(create.operator).value));
  }

  function RegisterEvents(a: Addr, sender: Text, create: CreateValidator, burn: Coin, p: ValidatorParams): seq<Event>
    requires burn.amount.Num?
  {
    BurnEvents(a, burn.amount.value) + [Registered(a, burn.amount.value, sender, create, p)]
  }

  /** A committed registration: its burn, then its validator. */
  lemma RegisterExplained(c: Config, s: State, sender: Text, create: CreateValidator, burn: Coin, says: BankSays)
    requires ValidConfig(c) && ValidState(c, s) && RegisterOutcome(c, s, sender, create, burn, says).Ok?
    ensures var s' := RegisterOutcome(c, s, sender, create, burn, says).state;
            Explains(c, s, s', RegisterEvents(c.accounts.toBytes(sender).value, sender, create, burn, s.validatorParams.value), 0)
  {
    var a, p := c.accounts.toBytes(sender).value, s.validatorParams.value;
    var s1 := BurnOutcome(s, a, burn, says).state;
    var s2 := RegisterOutcome(c, s, sender, create, burn, says).state;
    var e := Registered(a, burn.amount.value, sender, create, p);
    BurnExplained(c, s, a, burn, says);
    CreationExplained(c, s1, create, e);
    AfterBurn(c, s, s1, s2, BurnEvents(a, burn.amount.value), e);
    RegistrationPaid(c, sender, create, burn, p);
  }

  /** A burn followed by a creation. */
  lemma AfterBurn(c: Config, s: State, s1: State, s2: State, burns: seq<Event>, e: Event)
    requires Explains(c, s, s1, burns, 0)
    requires TrackersFollow(s1.burn, s2.burn, [e]) && CoinsFollow(c, s1, s2, [e]) && ValidatorsFollow(s1, s2, [e])
    requires ParamsFollow(c, s1, s2, [e])
    ensures TrackersFollow(s.burn, s2.burn, burns + [e])
    ensures CoinsFollow(c, s, s2, burns + [e]) && ValidatorsFollow(s, s2, burns + [e])
    ensures ParamsFollow(c, s, s2, burns + [e])
  {
    TrackersChain(s.burn, s1.burn, s2.burn, burns, [e]);
    CoinsChain(c, s, s1, s2, burns, [e]);
    ValidatorsChain(s, s1, s2, burns, [e]);
    ParamsChain(c, s, s1, s2, burns, [e]);
  }

  lemma RegistrationPaid(c: Config, sender: Text, create: CreateValidator, burn: Coin, p: ValidatorParams)
    requires ResolveSender(c, sender, create).Some? && FundsError(burn, create, p).None?
    requires ValidValidatorParams(c, p) && burn.amount.Num?
    ensures AllPaid(c, RegisterEvents(c.accounts.toBytes(sender).value, sender, create, burn, p))
  {
  }

  // ----- what other modules do

  /** n coins appeared at account a, or disappeared when negative. */
  function SupplyEvents(c: Config, denom: string, a: Addr, n: int): seq<Event> {
    if denom != BOND_DENOM then []
    else if a == c.feeCollector && n > 0 then [Supplied(n), PaidIn(n)]
    else [Supplied(n)]
  }

  function DeedEvents(c: Config, deed: Deed): seq<Event> {
    match deed
    case Moved(denom, _, to, n) => if denom == BOND_DENOM && to == c.feeCollector then [PaidIn(n)] else []
    case Made(denom, to, n) => SupplyEvents(c, denom, to, n)
    case Destroyed(denom, from, n) => SupplyEvents(c, denom, from, 0 - n)
    case Removed(operator) => [Left(operator)]
  }

  /** Events that only concern coins. */
  lemma CoinEventsFollow(s: State, s': State, es: seq<Event>)
    requires s'.burn == s.burn && s'.validators == s.validators && s'.height == s.height
    requires |es| <= 2 && forall i | 0 <= i < |es| :: es[i].Supplied? || es[i].PaidIn?
    ensures TrackersFollow(s.burn, s'.burn, es) && ValidatorsFollow(s, s', es) && BurnSum(es) == 0
  {
    if es != [] {
      NoBurnFollows(s.burn, es[0]);
      NoMoveFollows(s, s, es[0]);
      if |es| == 2 {
        assert es == [es[0]] + [es[1]];
        NoBurnFollows(s.burn, es[1]);
        NoMoveFollows(s, s', es[1]);
        TrackersChain(s.burn, s.burn, s.burn, [es[0]], [es[1]]);
        ValidatorsChain(s, s, s', [es[0]], [es[1]]);
        TallyConcat([es[0]], [es[1]], BurnAmount);
      } else {
        assert es == [es[0]];
      }
    }
  }

  lemma SupplyExplained(c: Config, s: State, denom: string, a: Addr, n: int)
    requires ValidState(c, s) && ValidBank(Minted(s.bank, denom, a, n))
    ensures Explains(c, s, s.(bank := Minted(s.bank, denom, a, n)), SupplyEvents(c, denom, a, n), 0)
  {
    var s', es := s.(bank := Minted(s.bank, denom, a, n)), SupplyEvents(c, denom, a, n);
    CoinEventsFollow(s, s', es);
    ParamsStay(c, s, s', es);
    if denom == BOND_DENOM {
      BurntBalance(s.bank, denom, a, 0 - n, c.feeCollector);
      CoinsOne(Supplied(n));
      CoinsOne(PaidIn(n));
      TallyConcat([Supplied(n)], [PaidIn(n)], SupplyAmount);
      TallyConcat([Supplied(n)], [PaidIn(n)], PaidAmount);
      assert [Supplied(n)] + [PaidIn(n)] == [Supplied(n), PaidIn(n)];
    }
  }

  lemma MoveExplained(c: Config, s: State, denom: string, from: Addr, to: Addr, n: nat)
    requires ValidState(c, s) && n <= Balance(s.bank, denom, from)
    ensures Explains(c, s, s.(bank := Sent(s.bank, denom, from, to, n)), DeedEvents(c, Moved(denom, from, to, n)), 0)
  {
    var s', es := s.(bank := Sent(s.bank, denom, from, to, n)), DeedEvents(c, Moved(denom, from, to, n));
    SentValid(s.bank, denom, from, to, n);
    CoinEventsFollow(s, s', es);
    ParamsStay(c, s, s', es);
    if denom == BOND_DENOM {
      SentBalance(s.bank, denom, from, to, n, c.feeCollector);
      CoinsOne(PaidIn(n));
    }
  }

  lemma DeedExplained(c: Config, s: State, deed: Deed)
    requires ValidState(c, s) && DeedOutcome(s, deed).Ok?
    ensures Explains(c, s, DeedOutcome(s, deed).state, DeedEvents(c, deed), 0)
  {
    match deed
    case Moved(denom, from, to, n) => MoveExplained(c, s, denom, from, to, n);
    case Made(denom, to, n) =>
      MintedValid(s.bank, denom, to, n);
      SupplyExplained(c, s, denom, to, n);
    case Destroyed(denom, from, n) =>
      BurntValid(s.bank, denom, from, n);
      SupplyExplained(c, s, denom, from, 0 - n);
    case Removed(operator) => LeavingExplained(c, s, operator);
  }

  lemma LeavingExplained(c: Config, s: State, v: Addr)
    requires ValidState(c, s) && v in s.validators
    ensures Explains(c, s, s.(validators := s.validators - {v}), [Left(v)], 0)
  {
    var s' := s.(validators := s.validators - {v});
    NoBurnFollows(s.burn, Left(v));
    LeaveFollows(s, s', v);
    CoinsOne(Left(v));
    ParamsStay(c, s, s', [Left(v)]);
  }

  // ----- parameter updates

  /** An update, told by event e. */
  lemma UpdateFollows(c: Config, s: State, s': State, e: Event)
    requires ValidState(c, s) && ValidState(c, s') && Authorized(c, e)
    requires match e
             case PercentSet(_, percent) => s' == s.(burn := s.burn.(feeBurnPercent := Some(percent)))
             case ParamsSet(_, p) => s' == s.(validatorParams := Some(p))
             case _ => false
    ensures Explains(c, s, s', [e], 0)
  {
    NoBurnFollows(s.burn, e);
    NoMoveFollows(s, s', e);
    CoinsOne(e);
    assert [e][..0] == [];
  }
}
