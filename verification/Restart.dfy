/**
  Exporting the burn module's genesis at any point of any run and importing it again: the
  export passes validation, and nothing later can tell that it happened.
 */
module Restart {
  import opened Basics
  import opened Ledger
  import opened Bank
  import opened Chain
  import opened BurnKeeper
  import opened ValidatorKeeper
  import opened History
  import opened Dispatch
  import opened Blocks
  import opened Runs
  import opened Laws
  import opened BurnMessages
  import opened BurnGenesis

  /** States that differ at most in whether the burn store holds a zero count or total or none. */
  predicate AlikeStates(s: State, s': State) {
    s' == s.(burn := s'.burn) && Alike(s.burn, s'.burn)
  }

  predicate AlikeOutcomes(o: Outcome, o': Outcome) {
    match (o, o')
    case (Ok(s), Ok(s')) => AlikeStates(s, s')
    case (Err(e), Err(e')) => e == e'
    case _ => false
  }

  lemma BurnAlike(s: State, s': State, a: Addr, coin: Coin, says: BankSays)
    requires AlikeStates(s, s')
    ensures AlikeOutcomes(BurnOutcome(s, a, coin, says), BurnOutcome(s', a, coin, says))
  {
  }

  lemma FeeBurnAlike(c: Config, s: State, s': State, says: BankSays)
    requires AlikeStates(s, s')
    ensures AlikeOutcomes(FeeBurnOutcome(c, s, says), FeeBurnOutcome(c, s', says))
  {
  }

  lemma DeedAlike(s: State, s': State, deed: Deed)
    requires AlikeStates(s, s')
    ensures AlikeOutcomes(DeedOutcome(s, deed), DeedOutcome(s', deed))
  {
  }

  lemma StakingAlike(c: Config, s: State, s': State, create: CreateValidator)
    requires AlikeStates(s, s')
    ensures AlikeOutcomes(StakingOutcome(c, s, create), StakingOutcome(c, s', create))
  {
  }

  lemma RegisterAlike(c: Config, s: State, s': State, sender: Text, create: CreateValidator, burn: Coin, says: BankSays)
    requires AlikeStates(s, s')
    ensures AlikeOutcomes(RegisterOutcome(c, s, sender, create, burn, says), RegisterOutcome(c, s', sender, create, burn, says))
  {
    var a := ResolveSender(c, sender, create);
    if a.Some? {
      BurnAlike(s, s', a.value, burn, says);
      var o, o' := BurnOutcome(s, a.value, burn, says), BurnOutcome(s', a.value, burn, says);
      if o.Ok? {
        StakingAlike(c, o.state, o'.state, create);
      }
    }
  }

  lemma MsgAlike(c: Config, s: State, s': State, msg: Msg)
    requires AlikeStates(s, s')
    ensures AlikeOutcomes(RouteOutcome(c, s, msg), RouteOutcome(c, s', msg))
  {
    match msg
    case MsgBurn(from, coin, says) =>
      if c.accounts.toBytes(from).Some? {
        BurnAlike(s, s', c.accounts.toBytes(from).value, coin, says);
      }
    case MsgRegisterValidator(sender, create, burn, says) => RegisterAlike(c, s, s', sender, create, burn, says);
    case MsgCreateValidator(create) => StakingAlike(c, s, s', create);
    case _ =>
  }

  lemma {:induction false} ExecAlike(c: Config, s: State, s': State, node: Node)
    requires AlikeStates(s, s')
    ensures AlikeOutcomes(Exec(c, s, node), Exec(c, s', node))
    decreases node
  {
    match node
    case Routed(msg) => MsgAlike(c, s, s', msg);
    case Precompile(create) => StakingAlike(c, s, s', create);
    case Other(deed) => DeedAlike(s, s', deed);
    case All(nodes) => ExecAllAlike(c, s, s', nodes);
    case Try(nodes) => ExecTryAlike(c, s, s', nodes);
  }

  lemma {:induction false} ExecAllAlike(c: Config, s: State, s': State, nodes: Nodes)
    requires AlikeStates(s, s')
    ensures AlikeOutcomes(ExecAll(c, s, nodes), ExecAll(c, s', nodes))
    decreases nodes
  {
    if nodes.Then? {
      ExecAlike(c, s, s', nodes.head);
      if Exec(c, s, nodes.head).Ok? {
        ExecAllAlike(c, Exec(c, s, nodes.head).state, Exec(c, s', nodes.head).state, nodes.tail);
      }
    }
  }

  lemma {:induction false} ExecTryAlike(c: Config, s: State, s': State, nodes: Nodes)
    requires AlikeStates(s, s')
    ensures AlikeStates(ExecTry(c, s, nodes), ExecTry(c, s', nodes))
    decreases nodes
  {
    if nodes.Then? {
      ExecAlike(c, s, s', nodes.head);
      ExecTryAlike(c, Committed(s, Exec(c, s, nodes.head)), Committed(s', Exec(c, s', nodes.head)), nodes.tail);
    }
  }

  lemma HookAlike(c: Config, hook: Hook, s: State, s': State, input: BlockInput)
    requires AlikeStates(s, s')
    ensures AlikeOutcomes(HookOutcome(c, hook, s, input), HookOutcome(c, hook, s', input))
  {
    match hook
    case FeeBurn => FeeBurnAlike(c, s, s', input.says);
    case Others(group) => ExecTryAlike(c, s, s', OthersOf(input, group));
    case _ =>
  }

  lemma {:induction false} HooksAlike(c: Config, order: seq<Hook>, s: State, s': State, input: BlockInput)
    requires AlikeStates(s, s')
    ensures AlikeOutcomes(HooksOutcome(c, order, s, input), HooksOutcome(c, order, s', input))
    decreases |order|
  {
    if order != [] {
      HookAlike(c, order[0], s, s', input);
      var o, o' := HookOutcome(c, order[0], s, input), HookOutcome(c, order[0], s', input);
      if o.Ok? {
        HooksAlike(c, order[1..], o.state, o'.state, input);
      }
    }
  }

  lemma StepAlike(c: Config, s: State, s': State, step: Step)
    requires AlikeStates(s, s')
    ensures AlikeOutcomes(StepOutcome(c, s, step), StepOutcome(c, s', step))
  {
    match step
    case BeginBlock(input) => HooksAlike(c, BEGIN_BLOCKERS, Next(s), Next(s'), input);
    case Tx(node) => ExecAlike(c, s, s', node);
  }

  /** States that are alike stay alike over every run, and fail alike. */
  lemma {:induction false} RunAlike(c: Config, s: State, s': State, steps: seq<Step>)
    requires AlikeStates(s, s')
    ensures AlikeStates(Run(c, s, steps), Run(c, s', steps))
    decreases |steps|
  {
    if steps != [] {
      var front, last := steps[..|steps| - 1], steps[|steps| - 1];
      RunAlike(c, s, s', front);
      StepAlike(c, Run(c, s, front), Run(c, s', front), last);
    }
  }

  // ----- the laws

  predicate NonNegative(b: BurnStore) {
    TotalOf(b) >= 0 && forall a | a in b.accounts :: b.accounts[a] >= 0
  }

  /** A genesis that passed validation is stored whole, and gives the store that runs start from. */
  lemma ValidatedGenesisStarts(c: Config, g: GenesisValue)
    requires ValidGenesis(c.accounts, g)
    ensures Importable(c.accounts, g.accountTotals)
    ensures var b := FromGenesis(c.accounts, g);
            && b.feeBurnPercent == Some(g.params.feeBurnPercent) && CountOf(b) == g.count && TotalOf(b) == Stored(g.total)
            && ValidPercent(b.feeBurnPercent.value) && KeysDecodable(c, b) && NonNegative(b)
  {
    var rs := g.accountTotals;
    assert rs[..|rs|] == rs;
    forall a | a in FromGenesis(c.accounts, g).accounts
      ensures Decodable(c.accounts, a) && FromGenesis(c.accounts, g).accounts[a] >= 0
    {
      ImportedDecodable(c.accounts, rs, a);
      LastRecordWins(c.accounts, map[], rs, a);
      var i: nat :| LastFor(c.accounts, rs, i, a);
      assert ValidRecord(c.accounts, rs[i]);
    }
  }

  lemma RunNonNegative(c: Config, s: State, steps: seq<Step>)
    requires ValidConfig(c) && ValidState(c, s) && NonNegative(s.burn)
    ensures NonNegative(Run(c, s, steps).burn) && ValidState(c, Run(c, s, steps))
  {
    RunExplained(c, s, steps);
    NonNegativeKept(s.burn, Run(c, s, steps).burn);
  }

  lemma NonNegativeKept(b: BurnStore, b': BurnStore)
    requires NonNegative(b) && NoneFell(b, b')
    ensures NonNegative(b')
  {
    forall a | a in b'.accounts ensures b'.accounts[a] >= 0 {
      assert AccountTotal(b, a) <= AccountTotal(b', a);
    }
  }

  lemma ExportIsValid(c: Config, b: BurnStore, g: GenesisValue)
    requires ValidCodec(c.accounts) && KeysDecodable(c, b) && NonNegative(b) && IsExport(c.accounts, b, g)
    requires ValidPercent(b.feeBurnPercent.value)
    ensures ValidGenesis(c.accounts, g)
  {
  }

  /**
    From any valid state, after any run, the store exports; the export passes validation; and
    replacing the store by what an import of the export makes changes no later run.
   */
  lemma RestartIsInvisible(c: Config, s: State, steps: seq<Step>, g: GenesisValue, later: seq<Step>)
    requires ValidConfig(c) && ValidState(c, s) && NonNegative(s.burn)
    ensures Exportable(c.accounts, Run(c, s, steps).burn.accounts)
    ensures IsExport(c.accounts, Run(c, s, steps).burn, g) ==>
              && ValidGenesis(c.accounts, g) && Importable(c.accounts, g.accountTotals)
              && var s' := Run(c, s, steps);
                 AlikeStates(Run(c, s', later), Run(c, s'.(burn := FromGenesis(c.accounts, g)), later))
  {
    RunNonNegative(c, s, steps);
    var s' := Run(c, s, steps);
    if IsExport(c.accounts, s'.burn, g) {
      RestartedAlike(c, s', g, later);
    }
  }

  lemma RestartedAlike(c: Config, s: State, g: GenesisValue, later: seq<Step>)
    requires ValidConfig(c) && ValidState(c, s) && NonNegative(s.burn) && IsExport(c.accounts, s.burn, g)
    ensures ValidGenesis(c.accounts, g) && Importable(c.accounts, g.accountTotals)
    ensures AlikeStates(Run(c, s, later), Run(c, s.(burn := FromGenesis(c.accounts, g)), later))
  {
    ExportIsValid(c, s.burn, g);
    ExportThenImport(c.accounts, s.burn, g);
    RunAlike(c, s, s.(burn := FromGenesis(c.accounts, g)), later);
  }

  // ----- the global total and the account totals

  /** A genesis that validation accepts although its total is not the sum of its records. */
  lemma UnbalancedGenesisIsValid(codec: AddressCodec)
    ensures var g := GenesisValue(ParamsValue(Num(0)), 1, Num(1), []);
            ValidGenesis(codec, g) && TotalOf(FromGenesis(codec, g)) == 1 && Sum(FromGenesis(codec, g).accounts) == 0
  {
    var g := GenesisValue(ParamsValue(Num(0)), 1, Num(1), []);
    assert g.accountTotals[..0] == [];
  }

  function RecordSum(rs: seq<RecordValue>): int {
    if rs == [] then 0 else RecordSum(rs[..|rs| - 1]) + Stored(rs[|rs| - 1].total)
  }

  predicate DistinctAccounts(codec: AddressCodec, rs: seq<RecordValue>) {
    forall i, j | 0 <= i < j < |rs| :: codec.toBytes(rs[i].address) != codec.toBytes(rs[j].address)
  }

  lemma {:induction false} StoredSum(codec: AddressCodec, rs: seq<RecordValue>)
    requires Importable(codec, rs) && DistinctAccounts(codec, rs)
    ensures Sum(RecordsStored(codec, map[], rs)) == RecordSum(rs)
  {
    if rs != [] {
      var n := |rs| - 1;
      var m, a := RecordsStored(codec, map[], rs[..n]), codec.toBytes(rs[n].address).value;
      StoredSum(codec, rs[..n]);
      LastRecordWins(codec, map[], rs[..n], a);
      assert a !in m;
      SumSet(m, a, Stored(rs[n].total));
    }
  }

  /**
    For a chain that starts from genesis g, whose records name each account once, the global
    total is the sum of the account totals after any run exactly when g's total is the sum of
    its records.
   */
  lemma TotalsAgreeIff(c: Config, s: State, g: GenesisValue, steps: seq<Step>)
    requires ValidConfig(c) && ValidState(c, s)
    requires Importable(c.accounts, g.accountTotals) && DistinctAccounts(c.accounts, g.accountTotals)
    requires s.burn == FromGenesis(c.accounts, g)
    ensures var b := Run(c, s, steps).burn; TotalOf(b) == Sum(b.accounts) <==> Stored(g.total) == RecordSum(g.accountTotals)
  {
    var rs := g.accountTotals;
    assert rs[..|rs|] == rs;
    StoredSum(c.accounts, rs);
    DiscrepancyConstant(c, s, steps);
  }
}
