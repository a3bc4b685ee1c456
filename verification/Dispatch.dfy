/**
  Message trees: what a transaction, an authz execution, a governance proposal, a contract
  call or another module's hook can nest. Every message goes through the router, every
  staking-precompile call through the restricted server. A node that fails leaves no trace;
  that rollback is baseapp's and the EVM's.
 */
module Dispatch {
  import opened Basics
  import opened Bank
  import opened Chain
  import opened BurnKeeper
  import opened ValidatorKeeper
  import opened History

  datatype Node =
    | Routed(msg: Msg)
    | Precompile(create: CreateValidator)
    /** Whatever else a message, a contract or a hook of another module does. */
    | Other(deed: Deed)
    /** All or nothing: a transaction's messages, an authz execution, a proposal. */
    | All(nodes: Nodes)
    /** Contract code, which may go on after a call that failed. */
    | Try(nodes: Nodes)

  datatype Nodes = Done | Then(head: Node, tail: Nodes)

  function Exec(c: Config, s: State, node: Node): Outcome
    decreases node
  {
    match node
    case Routed(msg) => RouteOutcome(c, s, msg)
    case Precompile(create) => RestrictedOutcome(c, s, create)
    case Other(deed) => DeedOutcome(s, deed)
    case All(nodes) => ExecAll(c, s, nodes)
    case Try(nodes) => Ok(ExecTry(c, s, nodes))
  }

  function ExecAll(c: Config, s: State, nodes: Nodes): Outcome
    decreases nodes
  {
    match nodes
    case Done => Ok(s)
    case Then(head, tail) =>
      match Exec(c, s, head)
      case Err(e) => Err(e)
      case Ok(s') => ExecAll(c, s', tail)
  }

  function ExecTry(c: Config, s: State, nodes: Nodes): State
    decreases nodes
  {
    match nodes
    case Done => s
    case Then(head, tail) => ExecTry(c, Committed(s, Exec(c, s, head)), tail)
  }

  function Committed(s: State, o: Outcome): State {
    match o case Ok(s') => s' case Err(_) => s
  }

  // ----- running a tree on the context

  /** Runs a node and commits only on success. */
  method Deliver(c: Config, ctx: Context, node: Node) returns (err: Option<Error>)
    requires ValidConfig(c) && ValidState(c, ctx.Snapshot())
    modifies ctx
    ensures match Exec(c, old(ctx.Snapshot()), node)
            case Ok(s) => err == None && ctx.Snapshot() == s
            case Err(e) => err == Some(e) && ctx.Snapshot() == old(ctx.Snapshot())
    decreases node
  {
    var before := State(ctx.bank, ctx.burn, ctx.validatorParams, ctx.validators, ctx.height);
    match node {
      case Routed(msg) =>
        if IsAllowed(ctx.height, TypeURL(msg)) {
          err := Handle(c, ctx, msg);
        } else {
          err := Some(ErrCircuitBreaker);
        }
      case Precompile(create) =>
        err := RestrictedCreateValidator(c, ctx, create);
      case Other(deed) =>
        err := Do(ctx, deed);
      case All(nodes) =>
        err := DeliverAll(c, ctx, nodes);
      case Try(nodes) =>
        DeliverTry(c, ctx, nodes);
        err := None;
    }
    if err.Some? {
      ctx.Restore(before);
    }
  }

  method DeliverAll(c: Config, ctx: Context, nodes: Nodes) returns (err: Option<Error>)
    requires ValidConfig(c) && ValidState(c, ctx.Snapshot())
    modifies ctx
    ensures match ExecAll(c, old(ctx.Snapshot()), nodes)
            case Ok(s) => err == None && ctx.Snapshot() == s
            case Err(e) => err == Some(e)
    decreases nodes
  {
    err := None;
    match nodes
    case Done =>
    case Then(head, tail) =>
      if Exec(c, ctx.Snapshot(), head).Ok? {
        ExecExplained(c, ctx.Snapshot(), head);
      }
      err := Deliver(c, ctx, head);
      if err.None? {
        err := DeliverAll(c, ctx, tail);
      }
  }

  method DeliverTry(c: Config, ctx: Context, nodes: Nodes)
    requires ValidConfig(c) && ValidState(c, ctx.Snapshot())
    modifies ctx
    ensures ctx.Snapshot() == ExecTry(c, old(ctx.Snapshot()), nodes)
    decreases nodes
  {
    match nodes
    case Done =>
    case Then(head, tail) =>
      if Exec(c, ctx.Snapshot(), head).Ok? {
        ExecExplained(c, ctx.Snapshot(), head);
      }
      var err := Deliver(c, ctx, head);
      DeliverTry(c, ctx, tail);
  }

  // ----- what a tree that was carried out did, told by its messages

  /** What a message that was carried out did. */
  function MsgEvents(c: Config, s: State, msg: Msg): seq<Event>
    requires HandleOutcome(c, s, msg).Ok?
  {
    match msg
    case MsgBurn(from, coin, _) => BurnEvents(c.accounts.toBytes(from).value, coin.amount.value)
    case MsgRegisterValidator(sender, create, burn, _) =>
      RegisterEvents(c.accounts.toBytes(sender).value, sender, create, burn, s.validatorParams.value)
    case MsgBurnUpdateParams(signer, percent) => [PercentSet(signer, percent)]
    case MsgValidatorUpdateParams(signer, p) => [ParamsSet(signer, p)]
    case MsgCreateValidator(create) => [Created(c.operators.toBytes(create.operator).value)]
    case MsgSend(_, _, _, _) => []
  }

  function Events(c: Config, s: State, node: Node): seq<Event>
    requires Exec(c, s, node).Ok?
    decreases node
  {
    match node
    case Routed(msg) => MsgEvents(c, s, msg)
    case Precompile(create) => [Created(c.operators.toBytes(create.operator).value)]
    case Other(deed) => DeedEvents(c, deed)
    case All(nodes) => EventsAll(c, s, nodes)
    case Try(nodes) => EventsTry(c, s, nodes)
  }

  function EventsAll(c: Config, s: State, nodes: Nodes): seq<Event>
    requires ExecAll(c, s, nodes).Ok?
    decreases nodes
  {
    match nodes
    case Done => []
    case Then(head, tail) => Events(c, s, head) + EventsAll(c, Exec(c, s, head).state, tail)
  }

  function EventsTry(c: Config, s: State, nodes: Nodes): seq<Event>
    decreases nodes
  {
    match nodes
    case Done => []
    case Then(head, tail) =>
      (if Exec(c, s, head).Ok? then Events(c, s, head) else []) + EventsTry(c, Committed(s, Exec(c, s, head)), tail)
  }

  // ----- trees of any depth

  lemma SendExplained(c: Config, s: State, from: Addr, to: Addr, denom: string, n: nat)
    requires ValidState(c, s) && n <= Balance(s.bank, denom, from) && to != c.feeCollector
    ensures Explains(c, s, s.(bank := Sent(s.bank, denom, from, to, n)), [], 0)
  {
    MoveExplained(c, s, denom, from, to, n);
  }

  lemma MsgExplained(c: Config, s: State, msg: Msg)
    requires ValidConfig(c) && ValidState(c, s) && RouteOutcome(c, s, msg).Ok?
    ensures Explains(c, s, RouteOutcome(c, s, msg).state, MsgEvents(c, s, msg), 0)
  {
    match msg
    case MsgBurn(from, coin, says) => BurnExplained(c, s, c.accounts.toBytes(from).value, coin, says);
    case MsgRegisterValidator(sender, create, burn, says) => RegisterExplained(c, s, sender, create, burn, says);
    case MsgBurnUpdateParams(signer, percent) => UpdateFollows(c, s, RouteOutcome(c, s, msg).state, PercentSet(signer, percent));
    case MsgValidatorUpdateParams(signer, p) => UpdateFollows(c, s, RouteOutcome(c, s, msg).state, ParamsSet(signer, p));
    case MsgCreateValidator(create) => DirectCreationExplained(c, s, create);
    case MsgSend(from, to, coin, says) =>
      SendExplained(c, s, c.accounts.toBytes(from).value, c.accounts.toBytes(to).value, coin.denom, coin.amount.value);
  }

  /** The events of a tree that was carried out explain the new state. */
  lemma {:induction false} ExecExplained(c: Config, s: State, node: Node)
    requires ValidConfig(c) && ValidState(c, s) && Exec(c, s, node).Ok?
    ensures Explains(c, s, Exec(c, s, node).state, Events(c, s, node), 0)
    decreases node
  {
    match node
    case Routed(msg) => MsgExplained(c, s, msg);
    case Precompile(create) => DirectCreationExplained(c, s, create);
    case Other(deed) => DeedExplained(c, s, deed);
    case All(nodes) => ExecAllExplained(c, s, nodes);
    case Try(nodes) => ExecTryExplained(c, s, nodes);
  }

  lemma {:induction false} ExecAllExplained(c: Config, s: State, nodes: Nodes)
    requires ValidConfig(c) && ValidState(c, s) && ExecAll(c, s, nodes).Ok?
    ensures Explains(c, s, ExecAll(c, s, nodes).state, EventsAll(c, s, nodes), 0)
    decreases nodes
  {
    match nodes
    case Done => NothingExplains(c, s);
    case Then(head, tail) =>
      var s' := Exec(c, s, head).state;
      ExecExplained(c, s, head);
      ExecAllExplained(c, s', tail);
      ExplainsChain(c, s, s', ExecAll(c, s', tail).state, Events(c, s, head), EventsAll(c, s', tail), 0, 0);
  }

  lemma {:induction false} ExecTryExplained(c: Config, s: State, nodes: Nodes)
    requires ValidConfig(c) && ValidState(c, s)
    ensures Explains(c, s, ExecTry(c, s, nodes), EventsTry(c, s, nodes), 0)
    decreases nodes
  {
    NothingExplains(c, s);
    match nodes
    case Done =>
    case Then(head, tail) =>
      var s' := Committed(s, Exec(c, s, head));
      var es := if Exec(c, s, head).Ok? then Events(c, s, head) else [];
      if Exec(c, s, head).Ok? {
        ExecExplained(c, s, head);
      }
      ExecTryExplained(c, s', tail);
      ExplainsChain(c, s, s', ExecTry(c, s', tail), es, EventsTry(c, s', tail), 0, 0);
  }
}
