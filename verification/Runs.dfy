/**
  Whole runs of the chain: blocks, transactions and what other modules do in between.
 */
module Runs {
  import opened Chain
  import opened BurnKeeper
  import opened History
  import opened Dispatch
  import opened Blocks

  datatype Step =
    | BeginBlock(input: BlockInput)
    /** A transaction, its fee payment, or anything else between two begin-blocks. */
    | Tx(node: Node)

  function StepOutcome(c: Config, s: State, step: Step): Outcome {
    match step
    case BeginBlock(input) => BlockOutcome(c, s, input)
    case Tx(node) => Exec(c, s, node)
  }

  /** A step that fails is rolled back. */
  function Run(c: Config, s: State, steps: seq<Step>): State {
    if steps == [] then s
    else
      var s' := Run(c, s, steps[..|steps| - 1]);
      Committed(s', StepOutcome(c, s', steps[|steps| - 1]))
  }

  function StepEvents(c: Config, s: State, step: Step): seq<Event> {
    if StepOutcome(c, s, step).Err? then []
    else
      match step
      case BeginBlock(input) => HooksEvents(c, BEGIN_BLOCKERS, Next(s), input)
      case Tx(node) => Events(c, s, node)
  }

  function Log(c: Config, s: State, steps: seq<Step>): seq<Event> {
    if steps == [] then []
    else
      var front := steps[..|steps| - 1];
      Log(c, s, front) + StepEvents(c, Run(c, s, front), steps[|steps| - 1])
  }

  /** The blocks that began. */
  function BlocksBegun(c: Config, s: State, steps: seq<Step>): nat {
    if steps == [] then 0
    else
      var front := steps[..|steps| - 1];
      BlocksBegun(c, s, front) + StepRise(c, Run(c, s, front), steps[|steps| - 1])
  }

  function StepRise(c: Config, s: State, step: Step): nat {
    if step.BeginBlock? && StepOutcome(c, s, step).Ok? then 1 else 0
  }

  // ----- every run is explained by its log

  lemma NextExplained(c: Config, s: State)
    requires ValidState(c, s)
    ensures Explains(c, s, Next(s), [], 1)
  {
  }

  lemma BlockExplained(c: Config, s: State, input: BlockInput) returns (s': State)
    requires ValidConfig(c) && ValidState(c, s) && BlockOutcome(c, s, input).Ok?
    ensures BlockOutcome(c, s, input) == Ok(s')
    ensures Explains(c, s, s', HooksEvents(c, BEGIN_BLOCKERS, Next(s), input), 1)
  {
    s' := BlockOutcome(c, s, input).state;
    NextExplained(c, s);
    HooksExplained(c, BEGIN_BLOCKERS, Next(s), input);
    QuietBefore(c, s, Next(s), s', HooksEvents(c, BEGIN_BLOCKERS, Next(s), input));
  }

  lemma QuietBefore(c: Config, s: State, s': State, s'': State, es: seq<Event>)
    requires Explains(c, s, s', [], 1) && Explains(c, s', s'', es, 0)
    ensures Explains(c, s, s'', es, 1)
  {
    ExplainsChain(c, s, s', s'', [], es, 1, 0);
    assert [] + es == es;
  }

  lemma StepExplained(c: Config, s: State, step: Step)
    requires ValidConfig(c) && ValidState(c, s)
    ensures Explains(c, s, Committed(s, StepOutcome(c, s, step)), StepEvents(c, s, step), StepRise(c, s, step))
  {
    if StepOutcome(c, s, step).Err? {
      NothingExplains(c, s);
    } else {
      match step
      case BeginBlock(input) => var s' := BlockExplained(c, s, input);
      case Tx(node) => ExecExplained(c, s, node);
    }
  }

  /** Every run from a valid state ends in a valid state that its log explains. */
  lemma {:induction false} RunExplained(c: Config, s: State, steps: seq<Step>)
    requires ValidConfig(c) && ValidState(c, s)
    ensures Explains(c, s, Run(c, s, steps), Log(c, s, steps), BlocksBegun(c, s, steps))
    decreases |steps|
  {
    if steps == [] {
      NothingExplains(c, s);
    } else {
      var front, last := steps[..|steps| - 1], steps[|steps| - 1];
      var s' := Run(c, s, front);
      RunExplained(c, s, front);
      StepExplained(c, s', last);
      ExplainsChain(c, s, s', Run(c, s, steps), Log(c, s, front), StepEvents(c, s', last),
                    BlocksBegun(c, s, front), StepRise(c, s', last));
    }
  }

  lemma {:induction false} RunSplit(c: Config, s: State, xs: seq<Step>, ys: seq<Step>)
    ensures Run(c, s, xs + ys) == Run(c, Run(c, s, xs), ys)
    decreases |ys|
  {
    if ys == [] {
      assert xs + ys == xs;
    } else {
      var front := ys[..|ys| - 1];
      assert (xs + ys)[..|xs + ys| - 1] == xs + front;
      RunSplit(c, s, xs, front);
    }
  }
}
