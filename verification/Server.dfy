/** The whole server as a transition system: clients register, issue commands and
    leave, while pending notifications are enqueued, taken and sent in any order.

    A command changes the tables in one step, because it runs under the global lock,
    but its calls of enqueue_notification stay pending and are made one by one, since
    the notification threads only need the lock of their own client. While any are
    pending the global lock is held: nobody registers, issues a command or is removed. */
module Server {
  import opened Resources
  import opened Matching
  import opened SharedState
  import opened NotificationRing

  datatype Phase = Vacant | Running | Stopped

  /** A client slot's queue and its two threads. attempted, accepted and sent record
      every message since registration: asked for, not dropped, and sent. */
  datatype Endpoint = Endpoint(
    phase: Phase, ring: Ring, inFlight: seq<Message>,
    attempted: seq<Message>, accepted: seq<Message>, sent: seq<Message>, since: nat)

  /** What entered the tables, and what disconnecting clients took out of them. */
  datatype Ledger = Ledger(
    supplied: Amounts, withdrawnSupply: Amounts, demanded: Amounts, withdrawnDemand: Amounts)

  datatype State = State(
    memory: Memory, pending: seq<Notice>, ends: seq<Endpoint>, log: seq<Notice>, ledger: Ledger)

  datatype Step =
    | Join(socket: nat)                         // register_client
    | Issue(client: nat, command: Command)      // one line of the command thread
    | Deliver                                   // the next enqueue_notification
    | Take(client: nat)                         // notification thread: under its lock
    | Send(client: nat)                         // notification thread: after unlocking
    | Halt(client: nat)                         // quit or end of input: both threads end
    | Leave(client: nat)                        // remove_client_resources

  datatype Sizes = Sizes(supplies: nat, demands: nat, watches: nat, clients: nat, queue: nat)

  function Init(z: Sizes): State {
    State(
      EmptyMemory(z.supplies, z.demands, z.watches, z.clients),
      [],
      seq(z.clients, _ => Endpoint(Vacant, Ring(seq(z.queue, _ => Exhausted), 0, 0), [], [], [], [], 0)),
      [],
      Ledger(ZERO, ZERO, ZERO, ZERO))
  }

  // ---------- The steps ----------

  predicate InPhase(s: State, c: int, phase: Phase) {
    0 <= c < |s.ends| && c < |s.memory.clients| && s.ends[c].phase == phase
  }

  function Recorded(l: Ledger, m: Memory, command: Command): Ledger {
    match command
    case PutDemand(wanted) =>
      if FreeDemand(m.demands) == |m.demands| then l else l.(demanded := l.demanded.Plus(wanted))
    case PutSupply(_, offered) =>
      if FreeSupply(m.supplies) == |m.supplies| then l else l.(supplied := l.supplied.Plus(offered))
    case _ => l
  }

  function SupplyOf(ss: seq<Supply>, c: int, r: Resource): int {
    Total(ss, (s: Supply) => if s.client == c then s.amounts.Of(r) else 0)
  }

  function DemandOf(ds: seq<Demand>, c: int, r: Resource): int {
    Total(ds, (d: Demand) => if d.client == c then d.amounts.Of(r) else 0)
  }

  /** What a disconnecting client takes out of the tables. */
  function SuppliesOf(m: Memory, c: int): Amounts {
    Amounts(SupplyOf(m.supplies, c, A), SupplyOf(m.supplies, c, B), SupplyOf(m.supplies, c, C))
  }

  function DemandsOf(m: Memory, c: int): Amounts {
    Amounts(DemandOf(m.demands, c, A), DemandOf(m.demands, c, B), DemandOf(m.demands, c, C))
  }

  /** One call of enqueue_notification. */
  function Attempt(e: Endpoint, m: Message): Endpoint
    requires e.ring.Valid()
  {
    e.(ring := e.ring.Enqueue(m), attempted := e.attempted + [m],
       accepted := if e.ring.Full() then e.accepted else e.accepted + [m])
  }

  function Next(s: State, step: Step): State {
    match step
    case Join(socket) =>
      if s.pending != [] then s else
      var (memory, id) := Register(s.memory, socket);
      if id == None || id.value >= |s.ends| then s
      else
        var ring := s.ends[id.value].ring.(head := 0, tail := 0);
        s.(memory := memory, ends := s.ends[id.value := Endpoint(Running, ring, [], [], [], [], |s.log|)])
    case Issue(c, command) =>
      if s.pending != [] || !InPhase(s, c, Running) then s else
      var e := Execute(s.memory, c, command);
      s.(memory := e.memory, pending := e.notices, log := s.log + e.notices,
         ledger := Recorded(s.ledger, s.memory, command))
    case Deliver =>
      if s.pending == [] then s else
      var n, rest := s.pending[0], s.pending[1..];
      if 0 <= n.client < |s.ends| && s.ends[n.client].ring.Valid() then
        s.(pending := rest, ends := s.ends[n.client := Attempt(s.ends[n.client], n.message)])
      else s
    case Take(c) =>
      if !InPhase(s, c, Running) then s else
      var e := s.ends[c];
      if e.inFlight != [] || e.ring.head == e.ring.tail || !e.ring.Valid() then s
      else s.(ends := s.ends[c := e.(ring := e.ring.Dequeue(), inFlight := [e.ring.slots[e.ring.tail]])])
    case Send(c) =>
      if !InPhase(s, c, Running) then s else
      var e := s.ends[c];
      s.(ends := s.ends[c := e.(inFlight := [], sent := e.sent + e.inFlight)])
    case Halt(c) =>
      if !InPhase(s, c, Running) then s
      else s.(ends := s.ends[c := s.ends[c].(phase := Stopped)])
    case Leave(c) =>
      if s.pending != [] || !InPhase(s, c, Stopped) then s
      else
        State(RemoveClient(s.memory, c), [], s.ends[c := s.ends[c].(phase := Vacant)], s.log,
              s.ledger.(withdrawnSupply := s.ledger.withdrawnSupply.Plus(SuppliesOf(s.memory, c)),
                        withdrawnDemand := s.ledger.withdrawnDemand.Plus(DemandsOf(s.memory, c))))
  }

  function Run(s: State, steps: seq<Step>): State {
    if steps == [] then s
    else Next(Run(s, steps[..|steps| - 1]), steps[|steps| - 1])
  }

  lemma {:induction false} RunOneMore(s: State, steps: seq<Step>, step: Step)
    ensures Run(s, steps + [step]) == Next(Run(s, steps), step)
  {
    assert (steps + [step])[..|steps|] == steps;
  }

  lemma {:induction false} RunTwoMore(s: State, steps: seq<Step>, a: Step, b: Step)
    ensures Run(s, steps + [a] + [b]) == Next(Next(Run(s, steps), a), b)
  {
    RunOneMore(s, steps, a);
    RunOneMore(s, steps + [a], b);
  }
}
