/**
  The fee burn over whole runs: its arithmetic, and that it takes no share of inflation.

  A run is first reduced to what its steps did to the fee collector; the sums are then taken
  over that list.
 */
module FeeBurn {
  import opened Bank
  import opened Chain
  import opened BurnKeeper
  import opened History
  import opened Dispatch
  import opened Blocks
  import opened Runs

  // ----- a block in three parts

  const AFTER_BURN: seq<Hook> := [Mint, Others(1), Distribution, Others(2)]

  /** The state in which a block's fee burn runs. */
  function AtBurn(c: Config, s: State, input: BlockInput): State {
    ExecTry(c, Next(s), OthersOf(input, 0))
  }

  /** Events of a block before, at and after its fee burn. */
  function EventsBefore(c: Config, s: State, input: BlockInput): seq<Event> {
    EventsTry(c, Next(s), OthersOf(input, 0))
  }

  function EventsAfter(c: Config, s: State, input: BlockInput): seq<Event> {
    match FeeBurnOutcome(c, AtBurn(c, s, input), input.says)
    case Err(_) => []
    case Ok(s') => HooksEvents(c, AFTER_BURN, s', input)
  }

  lemma FirstHook(c: Config, hook: Hook, rest: seq<Hook>, s: State, input: BlockInput)
    requires HookOutcome(c, hook, s, input).Ok?
    ensures HooksOutcome(c, [hook] + rest, s, input) == HooksOutcome(c, rest, HookOutcome(c, hook, s, input).state, input)
    ensures HooksEvents(c, [hook] + rest, s, input)
         == HookEvents(c, hook, s, input) + HooksEvents(c, rest, HookOutcome(c, hook, s, input).state, input)
  {
    assert ([hook] + rest)[1..] == rest;
  }

  /** A block that goes through: other modules' deeds, the fee burn, the rest. */
  lemma BlockParts(c: Config, s: State, input: BlockInput)
    requires BlockOutcome(c, s, input).Ok?
    ensures var mid := AtBurn(c, s, input);
            && FeeBurnOutcome(c, mid, input.says).Ok?
            && BlockOutcome(c, s, input) == HooksOutcome(c, AFTER_BURN, FeeBurnOutcome(c, mid, input.says).state, input)
    ensures StepEvents(c, s, BeginBlock(input))
         == EventsBefore(c, s, input) + (BurnEvents(c.feeCollector, FeeBurned(c, AtBurn(c, s, input))) + EventsAfter(c, s, input))
  {
    assert BEGIN_BLOCKERS == [Others(0)] + ([FeeBurn] + AFTER_BURN);
    var mid := AtBurn(c, s, input);
    FirstHook(c, Others(0), [FeeBurn] + AFTER_BURN, Next(s), input);
    assert HookOutcome(c, FeeBurn, mid, input).Ok?;
    FirstHook(c, FeeBurn, AFTER_BURN, mid, input);
  }

  // ----- what a run did to the fee collector

  /** A fee burn burned part of the collector and its block left some in it, or something else let coins in. */
  datatype Fact =
    | Began(percent: int, before: int, burned: int, after: int)
    | Flowed(before: int, inflow: int, after: int)

  function PercentOf(s: State): int {
    match s.burn.feeBurnPercent
    case Some(Num(p)) => p
    case _ => 0
  }

  function BlockFacts(c: Config, s: State, input: BlockInput, after: int): seq<Fact> {
    var mid := AtBurn(c, s, input);
    [Flowed(Collected(c, s), Inflow(EventsBefore(c, s, input)), Collected(c, mid)),
     Began(PercentOf(mid), Collected(c, mid), FeeBurned(c, mid), after)]
  }

  function StepFacts(c: Config, s: State, step: Step): seq<Fact> {
    var after := Collected(c, Committed(s, StepOutcome(c, s, step)));
    if step.BeginBlock? && StepOutcome(c, s, step).Ok? then BlockFacts(c, s, step.input, after)
    else [Flowed(Collected(c, s), Inflow(StepEvents(c, s, step)), after)]
  }

  function Facts(c: Config, s: State, steps: seq<Step>): seq<Fact> {
    if steps == [] then []
    else
      var front := steps[..|steps| - 1];
      Facts(c, s, front) + StepFacts(c, Run(c, s, front), steps[|steps| - 1])
  }

  /** The sum of f over some facts. */
  function Total(fs: seq<Fact>, f: Fact -> int): int {
    if fs == [] then 0 else Total(fs[..|fs| - 1], f) + f(fs[|fs| - 1])
  }

  lemma {:induction false} TotalConcat(fs: seq<Fact>, gs: seq<Fact>, f: Fact -> int)
    ensures Total(fs + gs, f) == Total(fs, f) + Total(gs, f)
    decreases |gs|
  {
    if gs == [] {
      assert fs + gs == fs;
    } else {
      var front := gs[..|gs| - 1];
      assert (fs + gs)[..|fs + gs| - 1] == fs + front;
      TotalConcat(fs, front, f);
    }
  }

  lemma TotalOne(g: Fact, f: Fact -> int)
    ensures Total([g], f) == f(g)
  {
    assert [g][..0] == [];
  }

  function IsBlock(f: Fact): int { if f.Began? then 1 else 0 }

  function BalanceOf(f: Fact): int { if f.Began? then f.before else 0 }

  function BurnedOf(f: Fact): int { if f.Began? then f.burned else 0 }

  function InflowOf(f: Fact): int { if f.Flowed? then f.inflow else 0 }

  function BlockCount(fs: seq<Fact>): int { Total(fs, IsBlock) }

  /** The sum of the collector's balances as the fee burns came. */
  function Balances(fs: seq<Fact>): int { Total(fs, BalanceOf) }

  function TotalBurned(fs: seq<Fact>): int { Total(fs, BurnedOf) }

  /** What was paid in by transactions, and in blocks before their fee burns. */
  function TotalInflow(fs: seq<Fact>): int { Total(fs, InflowOf) }

  // ----- what is true of every run's facts

  /** burned is percent of the balance, rounded down; anything else adds at most its inflow. */
  predicate FactHolds(f: Fact) {
    && f.before >= 0 && f.after >= 0
    && match f
       case Began(p, x, b, _) => p >= 0 && b * ONE_DEC <= p * x < b * ONE_DEC + ONE_DEC
       case Flowed(x, n, y) => y <= x + n
  }

  /** The facts hold, follow one another, and lead from a collector of x to one of y. */
  predicate FactsLead(fs: seq<Fact>, x: int, y: int) {
    if fs == [] then x == y
    else
      var last := fs[|fs| - 1];
      FactsLead(fs[..|fs| - 1], x, last.before) && FactHolds(last) && last.after == y
  }

  lemma {:induction false} LeadConcat(fs: seq<Fact>, gs: seq<Fact>, x: int, y: int, z: int)
    requires FactsLead(fs, x, y) && FactsLead(gs, y, z)
    ensures FactsLead(fs + gs, x, z)
    decreases |gs|
  {
    if gs == [] {
      assert fs + gs == fs;
    } else {
      var front := gs[..|gs| - 1];
      assert (fs + gs)[..|fs + gs| - 1] == fs + front;
      LeadConcat(fs, front, x, y, gs[|gs| - 1].before);
    }
  }

  lemma LeadTwo(f: Fact, g: Fact)
    requires FactHolds(f) && FactHolds(g) && f.after == g.before
    ensures FactsLead([f, g], f.before, g.after)
  {
    assert [f, g][..1] == [f] && [f][..0] == [];
  }

  lemma LeadOne(f: Fact)
    requires FactHolds(f)
    ensures FactsLead([f], f.before, f.after)
  {
    assert [f][..0] == [];
  }

  lemma CollectedNonNegative(c: Config, s: State)
    requires ValidState(c, s)
    ensures Collected(c, s) >= 0
  {
    BalanceWithinSupply(s.bank, BOND_DENOM, c.feeCollector);
  }

  /** The fact of a fee burn in state s. */
  lemma BurnFact(c: Config, s: State, after: int)
    requires ValidState(c, s) && after >= 0
    ensures FactHolds(Began(PercentOf(s), Collected(c, s), FeeBurned(c, s), after))
  {
    FeeBurnSucceedsIff(c, s, BANK_AGREES);
    FloorMul(PercentOf(s), Collected(c, s));
  }

  /** The fact of whatever events explain. */
  lemma FlowFact(c: Config, s: State, s': State, es: seq<Event>, rise: nat)
    requires ValidState(c, s) && Explains(c, s, s', es, rise)
    ensures FactHolds(Flowed(Collected(c, s), Inflow(es), Collected(c, s')))
  {
    CollectedNonNegative(c, s);
    CollectedNonNegative(c, s');
  }

  lemma AtBurnExplained(c: Config, s: State, input: BlockInput)
    requires ValidConfig(c) && ValidState(c, s)
    ensures Explains(c, s, AtBurn(c, s, input), EventsBefore(c, s, input), 1)
  {
    NextExplained(c, s);
    ExecTryExplained(c, Next(s), OthersOf(input, 0));
    QuietBefore(c, s, Next(s), AtBurn(c, s, input), EventsBefore(c, s, input));
  }

  lemma BlockFactsLead(c: Config, s: State, input: BlockInput, after: int)
    requires ValidConfig(c) && ValidState(c, s) && after >= 0
    ensures FactsLead(BlockFacts(c, s, input, after), Collected(c, s), after)
  {
    var mid := AtBurn(c, s, input);
    AtBurnExplained(c, s, input);
    FlowFact(c, s, mid, EventsBefore(c, s, input), 1);
    BurnFact(c, mid, after);
    LeadTwo(Flowed(Collected(c, s), Inflow(EventsBefore(c, s, input)), Collected(c, mid)),
            Began(PercentOf(mid), Collected(c, mid), FeeBurned(c, mid), after));
  }

  lemma StepFactsLead(c: Config, s: State, step: Step)
    requires ValidConfig(c) && ValidState(c, s)
    ensures FactsLead(StepFacts(c, s, step), Collected(c, s), Collected(c, Committed(s, StepOutcome(c, s, step))))
  {
    var s' := Committed(s, StepOutcome(c, s, step));
    StepExplained(c, s, step);
    CollectedNonNegative(c, s');
    if step.BeginBlock? && StepOutcome(c, s, step).Ok? {
      BlockFactsLead(c, s, step.input, Collected(c, s'));
    } else {
      FlowFact(c, s, s', StepEvents(c, s, step), StepRise(c, s, step));
      LeadOne(Flowed(Collected(c, s), Inflow(StepEvents(c, s, step)), Collected(c, s')));
    }
  }

  lemma {:induction false} RunFacts(c: Config, s: State, steps: seq<Step>)
    requires ValidConfig(c) && ValidState(c, s)
    ensures FactsLead(Facts(c, s, steps), Collected(c, s), Collected(c, Run(c, s, steps)))
    decreases |steps|
  {
    if steps != [] {
      var front, last := steps[..|steps| - 1], steps[|steps| - 1];
      var s' := Run(c, s, front);
      RunFacts(c, s, front);
      RunExplained(c, s, front);
      StepFactsLead(c, s', last);
      LeadConcat(Facts(c, s, front), StepFacts(c, s', last), Collected(c, s), Collected(c, s'), Collected(c, Run(c, s, steps)));
    }
  }

  // ----- arithmetic

  predicate PercentIs(fs: seq<Fact>, p: int) {
    forall i | 0 <= i < |fs| && fs[i].Began? :: fs[i].percent == p
  }

  predicate PercentAtMost(fs: seq<Fact>, p: int) {
    forall i | 0 <= i < |fs| && fs[i].Began? :: fs[i].percent <= p
  }

  /** Distribution leaves the collector empty in every block. */
  predicate EmptiesCollector(fs: seq<Fact>) {
    forall i | 0 <= i < |fs| && fs[i].Began? :: fs[i].after == 0
  }

  lemma {:induction false} FloorSum(fs: seq<Fact>, x: int, y: int, p: int)
    requires FactsLead(fs, x, y) && PercentIs(fs, p)
    ensures BlockCount(fs) >= 0
    ensures TotalBurned(fs) * ONE_DEC <= p * Balances(fs) <= (TotalBurned(fs) + BlockCount(fs)) * ONE_DEC
    ensures BlockCount(fs) > 0 ==> p * Balances(fs) < (TotalBurned(fs) + BlockCount(fs)) * ONE_DEC
    decreases |fs|
  {
    if fs != [] {
      var front, last := fs[..|fs| - 1], fs[|fs| - 1];
      FloorSum(front, x, last.before, p);
      if last.Began? {
        assert p * (Balances(front) + last.before) == p * Balances(front) + p * last.before;
      }
    }
  }

  /**
    With a constant percentage p, over n blocks whose fee burns found balances summing to S, the
    total burned B satisfies p*S - n*10^18 < B*10^18 <= p*S: truncation loses less than one
    unit a block.
   */
  lemma FeeBurnArithmetic(c: Config, s: State, steps: seq<Step>, p: int)
    requires ValidConfig(c) && ValidState(c, s) && PercentIs(Facts(c, s, steps), p)
    ensures var fs := Facts(c, s, steps);
            && TotalBurned(fs) * ONE_DEC <= p * Balances(fs)
            && (BlockCount(fs) > 0 ==> p * Balances(fs) - BlockCount(fs) * ONE_DEC < TotalBurned(fs) * ONE_DEC)
  {
    RunFacts(c, s, steps);
    FloorSum(Facts(c, s, steps), Collected(c, s), Collected(c, Run(c, s, steps)), p);
  }

  lemma BlockRoom(p: int, q: int, before: int, burned: int, b: int, room: int)
    requires burned * ONE_DEC + p * before <= room && q <= p && before >= 0 && b * ONE_DEC <= q * before
    ensures (burned + b) * ONE_DEC <= room
  {
    assert (p - q) * before >= 0;
  }

  lemma InflowRoom(p: int, before: int, n: int, after: int, burned: int, paid: int)
    requires burned * ONE_DEC + p * before <= p * paid && after <= before + n && p >= 0
    ensures burned * ONE_DEC + p * after <= p * (paid + n)
  {
    assert p * (before + n - after) >= 0;
  }

  lemma {:induction false} BurnedWithinInflow(fs: seq<Fact>, x: int, y: int, p: int)
    requires FactsLead(fs, x, y) && PercentAtMost(fs, p) && EmptiesCollector(fs) && p >= 0 && x >= 0
    ensures y >= 0 && TotalBurned(fs) * ONE_DEC + p * y <= p * (x + TotalInflow(fs))
    decreases |fs|
  {
    if fs != [] {
      var front, last := fs[..|fs| - 1], fs[|fs| - 1];
      BurnedWithinInflow(front, x, last.before, p);
      match last
      case Began(q, before, b, _) => BlockRoom(p, q, before, TotalBurned(front), b, p * (x + TotalInflow(front)));
      case Flowed(before, n, after) => InflowRoom(p, before, n, after, TotalBurned(front), x + TotalInflow(front));
    }
  }

  /** The fees burned are at most the share p of an initial x and of what was paid in. */
  predicate WithinShare(fs: seq<Fact>, x: int, p: int) {
    TotalBurned(fs) * ONE_DEC <= p * (x + TotalInflow(fs))
  }

  lemma BurnedWithinTotal(fs: seq<Fact>, x: int, y: int, p: int)
    requires FactsLead(fs, x, y) && PercentAtMost(fs, p) && EmptiesCollector(fs) && p >= 0 && x >= 0
    ensures WithinShare(fs, x, p)
  {
    BurnedWithinInflow(fs, x, y, p);
    assert p * y >= 0;
  }

  /**
    When distribution empties the collector every block, the fees burned over a run are at
    most the percentage of the initial collector balance and of what was paid in before the
    fee burns: inflation does not occur in the bound.
   */
  lemma OnlyFeesBurned(c: Config, s: State, steps: seq<Step>, p: nat)
    requires ValidConfig(c) && ValidState(c, s)
    requires PercentAtMost(Facts(c, s, steps), p) && EmptiesCollector(Facts(c, s, steps))
    ensures WithinShare(Facts(c, s, steps), Collected(c, s), p)
  {
    RunFacts(c, s, steps);
    CollectedNonNegative(c, s);
    BurnedWithinTotal(Facts(c, s, steps), Collected(c, s), Collected(c, Run(c, s, steps)), p);
  }

  // ----- the fee burns in the trackers

  /** What messages burned in an account's own name, apart from the fee burns. */
  function StepOwnBurns(c: Config, s: State, step: Step, a: Addr): int {
    if step.BeginBlock? && StepOutcome(c, s, step).Ok? then
      BurnSumOf(EventsBefore(c, s, step.input), a) + BurnSumOf(EventsAfter(c, s, step.input), a)
    else BurnSumOf(StepEvents(c, s, step), a)
  }

  function OwnBurns(c: Config, s: State, steps: seq<Step>, a: Addr): int {
    if steps == [] then 0
    else
      var front := steps[..|steps| - 1];
      OwnBurns(c, s, front, a) + StepOwnBurns(c, Run(c, s, front), steps[|steps| - 1], a)
  }

  lemma BurnEventsSum(a: Addr, n: int)
    requires n >= 0
    ensures BurnSumOf(BurnEvents(a, n), a) == n
  {
    TallyOne(Burned(a, n), BurnBy(a));
  }

  lemma ThreeParts(es: seq<Event>, fs: seq<Event>, gs: seq<Event>, f: Event -> int)
    ensures Tally(es + (fs + gs), f) == Tally(es, f) + Tally(fs, f) + Tally(gs, f)
  {
    TallyConcat(es, fs + gs, f);
    TallyConcat(fs, gs, f);
  }

  lemma BlockLogged(c: Config, s: State, input: BlockInput)
    requires ValidConfig(c) && ValidState(c, s) && BlockOutcome(c, s, input).Ok?
    ensures BurnSumOf(StepEvents(c, s, BeginBlock(input)), c.feeCollector)
         == FeeBurned(c, AtBurn(c, s, input)) + StepOwnBurns(c, s, BeginBlock(input), c.feeCollector)
  {
    var mid := AtBurn(c, s, input);
    BlockParts(c, s, input);
    AtBurnExplained(c, s, input);
    FeeBurnSucceedsIff(c, mid, input.says);
    BurnEventsSum(c.feeCollector, FeeBurned(c, mid));
    ThreeParts(EventsBefore(c, s, input), BurnEvents(c.feeCollector, FeeBurned(c, mid)), EventsAfter(c, s, input), BurnBy(c.feeCollector));
  }

  lemma StepLogged(c: Config, s: State, step: Step)
    requires ValidConfig(c) && ValidState(c, s)
    ensures BurnSumOf(StepEvents(c, s, step), c.feeCollector)
         == TotalBurned(StepFacts(c, s, step)) + StepOwnBurns(c, s, step, c.feeCollector)
  {
    var fs := StepFacts(c, s, step);
    if step.BeginBlock? && StepOutcome(c, s, step).Ok? {
      BlockLogged(c, s, step.input);
      TotalConcat([fs[0]], [fs[1]], BurnedOf);
      TotalOne(fs[0], BurnedOf);
      TotalOne(fs[1], BurnedOf);
      assert fs == [fs[0]] + [fs[1]];
    } else {
      TotalOne(fs[0], BurnedOf);
      assert fs == [fs[0]];
    }
  }

  lemma {:induction false} FeeBurnsLogged(c: Config, s: State, steps: seq<Step>)
    requires ValidConfig(c) && ValidState(c, s)
    ensures BurnSumOf(Log(c, s, steps), c.feeCollector)
         == TotalBurned(Facts(c, s, steps)) + OwnBurns(c, s, steps, c.feeCollector)
    decreases |steps|
  {
    if steps != [] {
      var front, last := steps[..|steps| - 1], steps[|steps| - 1];
      var s' := Run(c, s, front);
      FeeBurnsLogged(c, s, front);
      RunExplained(c, s, front);
      StepLogged(c, s', last);
      TallyConcat(Log(c, s, front), StepEvents(c, s', last), BurnBy(c.feeCollector));
      TotalConcat(Facts(c, s, front), StepFacts(c, s', last), BurnedOf);
    }
  }

  /** The fee collector's own burn total grows by exactly the fees burned and what messages burned in its name. */
  lemma FeeBurnsTracked(c: Config, s: State, steps: seq<Step>)
    requires ValidConfig(c) && ValidState(c, s)
    ensures AccountTotal(Run(c, s, steps).burn, c.feeCollector)
         == AccountTotal(s.burn, c.feeCollector) + TotalBurned(Facts(c, s, steps)) + OwnBurns(c, s, steps, c.feeCollector)
  {
    RunExplained(c, s, steps);
    FeeBurnsLogged(c, s, steps);
  }
}
