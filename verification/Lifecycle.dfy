/** How a client's stay ends and its queue empties: what a disconnect removes and keeps, and
    that the notification thread gets everything queued sent. */
module Lifecycle {
  import opened Resources
  import opened Matching
  import opened SharedState
  import opened NotificationRing
  import opened Ownership
  import opened Server
  import opened ServerRuns

  // ---------- Leaving ----------

  /** c is gone from the tables and its slot is free. */
  ghost predicate Gone(s: State, c: nat) {
    && InPhase(s, c, Vacant) && !Registered(s.memory, c) && s.memory.clients[c].socket == FREE
    && (forall i :: 0 <= i < |s.memory.supplies| ==> s.memory.supplies[i].client != c)
    && (forall j :: 0 <= j < |s.memory.demands| ==> s.memory.demands[j].client != c)
    && (forall i :: 0 <= i < |s.memory.watches| ==> s.memory.watches[i].client != c)
  }

  /** Whatever is not c's is in t as it was in s. */
  ghost predicate OthersKept(s: State, t: State, c: nat) {
    && |t.ends| == |s.ends| && |t.memory.clients| == |s.memory.clients|
    && |t.memory.supplies| == |s.memory.supplies| && |t.memory.demands| == |s.memory.demands|
    && |t.memory.watches| == |s.memory.watches|
    && (forall k :: 0 <= k < |s.ends| && k != c ==> t.ends[k] == s.ends[k])
    && (forall k :: 0 <= k < |s.memory.clients| && k != c ==> t.memory.clients[k] == s.memory.clients[k])
    && (forall i :: 0 <= i < |s.memory.supplies| && s.memory.supplies[i].client != c ==>
          t.memory.supplies[i] == s.memory.supplies[i])
    && (forall j :: 0 <= j < |s.memory.demands| && s.memory.demands[j].client != c ==>
          t.memory.demands[j] == s.memory.demands[j])
    && (forall i :: 0 <= i < |s.memory.watches| && s.memory.watches[i].client != c ==>
          t.memory.watches[i] == s.memory.watches[i])
    && t.log == s.log && t.pending == s.pending
  }

  /** What the withdrawn totals grew by is what was live before and is not any more. */
  ghost predicate WithdrawnAccounted(s: State, t: State) {
    && t.ledger.supplied == s.ledger.supplied && t.ledger.demanded == s.ledger.demanded
    && forall r: Resource ::
         && t.ledger.withdrawnSupply.Of(r) - s.ledger.withdrawnSupply.Of(r)
            == Total(s.memory.supplies, LiveSupply(r)) - Total(t.memory.supplies, LiveSupply(r))
         && t.ledger.withdrawnDemand.Of(r) - s.ledger.withdrawnDemand.Of(r)
            == Total(s.memory.demands, LiveDemand(r)) - Total(t.memory.demands, LiveDemand(r))
  }

  lemma {:induction false} LeaveKeepsOthers(s: State, c: nat)
    requires s.pending == [] && InPhase(s, c, Stopped)
    ensures OthersKept(s, Next(s, Leave(c)), c) && WithdrawnAccounted(s, Next(s, Leave(c)))
  {
    forall r: Resource
      ensures Total(s.memory.supplies, LiveSupply(r))
              == Total(WithoutSupplies(s.memory.supplies, c), LiveSupply(r)) + SuppliesOf(s.memory, c).Of(r)
      ensures Total(s.memory.demands, LiveDemand(r))
              == Total(WithoutDemands(s.memory.demands, c), LiveDemand(r)) + DemandsOf(s.memory, c).Of(r)
    {
      SupplyRemovalWithdraws(s.memory.supplies, c, r);
      DemandRemovalWithdraws(s.memory.demands, c, r);
    }
  }

  lemma {:induction false} LeaveEndsStay(s: State, c: nat)
    requires Sound(s) && s.pending == [] && InPhase(s, c, Stopped)
    ensures Gone(Next(s, Leave(c)), c)
  {
    RemovalKeepsOwnership(s.memory, c);
  }

  lemma {:induction false} FreeSlotIsTaken(m: Memory, c: nat, socket: int)
    requires c < |m.clients| && m.clients[c].socket == FREE
    ensures Register(m, socket).1.Some? && Register(m, socket).1.value <= c
  {
  }

  /** In every run, when a client whose threads have ended is removed: it is vacant and has
      no entry left, what others have is as it was, the books take in what it held, and the
      next client finds a slot, at the latest this one. */
  lemma {:induction false} LeavingRemovesClient(z: Sizes, steps: seq<Step>, c: nat, socket: nat)
    requires z.queue > 0 && z.clients <= z.watches
    requires var s := Run(Init(z), steps); s.pending == [] && InPhase(s, c, Stopped)
    ensures var s := Run(Init(z), steps);
            var t := Next(s, Leave(c));
            var u := Next(t, Join(socket));
            && Gone(t, c) && OthersKept(s, t, c) && WithdrawnAccounted(s, t)
            && exists k: nat :: k <= c && InPhase(t, k, Vacant) && InPhase(u, k, Running)
                                && u.memory.clients[k] == Client(k, socket, 0, 0)
  {
    RunsStaySound(z, steps);
    var s := Run(Init(z), steps);
    var t := Next(s, Leave(c));
    LeaveKeepsOthers(s, c);
    LeaveEndsStay(s, c);
    LeaveKeepsSound(s, c);
    FreeSlotIsTaken(t.memory, c, socket);
    var k := Register(t.memory, socket).1.value;
    assert t.memory.clients[k].socket == FREE;
    assert InPhase(t, k, Vacant) && InPhase(Next(t, Join(socket)), k, Running);
  }

  /** Halting stops a client's threads and changes nothing else. */
  lemma {:induction false} HaltStopsThreads(s: State, c: nat)
    requires InPhase(s, c, Running)
    ensures var t := Next(s, Halt(c));
            && InPhase(t, c, Stopped)
            && t.ends[c].ring == s.ends[c].ring && t.ends[c].inFlight == s.ends[c].inFlight
            && t.ends[c].sent == s.ends[c].sent
            && |t.ends| == |s.ends| && (forall k :: 0 <= k < |s.ends| && k != c ==> t.ends[k] == s.ends[k])
            && t.memory == s.memory && t.pending == s.pending && t.log == s.log && t.ledger == s.ledger
  {
  }

  /** In every run a present client that quits while nothing is pending is gone after the
      two steps of its disconnect. */
  lemma {:induction false} QuittingRemovesClient(z: Sizes, steps: seq<Step>, c: nat)
    requires z.queue > 0 && z.clients <= z.watches
    requires var s := Run(Init(z), steps); s.pending == [] && InPhase(s, c, Running)
    ensures Gone(Run(Init(z), steps + [Halt(c)] + [Leave(c)]), c)
  {
    var halted := steps + [Halt(c)];
    RunOneMore(Init(z), steps, Halt(c));
    RunOneMore(Init(z), halted, Leave(c));
    HaltStopsThreads(Run(Init(z), steps), c);
    RunsStaySound(z, halted);
    LeaveEndsStay(Run(Init(z), halted), c);
  }

  // ---------- Emptying the queue ----------

  /** The notification thread sends what it has in flight and then k messages more. */
  function DrainSteps(c: nat, k: nat): seq<Step> {
    if k == 0 then [Send(c)] else DrainSteps(c, k - 1) + [Step.Take(c)] + [Send(c)]
  }

  /** k of the queued messages have been sent, oldest first, and nothing else happened. */
  ghost predicate DrainedBy(s: State, t: State, c: nat, k: nat)
    requires c < |s.ends| && s.ends[c].ring.Valid() && k <= |s.ends[c].ring.Queue()|
  {
    && InPhase(t, c, Running) && t.ends[c].ring.Valid()
    && t.ends[c].inFlight == []
    && t.ends[c].sent == s.ends[c].sent + s.ends[c].inFlight + s.ends[c].ring.Queue()[..k]
    && t.ends[c].ring.Queue() == s.ends[c].ring.Queue()[k..]
    && |t.ends| == |s.ends| && (forall o :: 0 <= o < |s.ends| && o != c ==> t.ends[o] == s.ends[o])
    && t.memory == s.memory && t.pending == s.pending && t.log == s.log && t.ledger == s.ledger
  }

  lemma {:induction false} SendClearsFlight(s: State, c: nat)
    requires InPhase(s, c, Running) && s.ends[c].ring.Valid()
    ensures DrainedBy(s, Next(s, Send(c)), c, 0)
  {
    var e := s.ends[c];
    assert e.sent + e.inFlight + e.ring.Queue()[..0] == e.sent + e.inFlight;
  }

  lemma {:induction false} OldestIsSent(s: State, c: nat)
    requires InPhase(s, c, Running) && s.ends[c].ring.Valid() && s.ends[c].inFlight == []
    requires s.ends[c].ring.Queue() != []
    ensures var e, t := s.ends[c], Next(Next(s, Step.Take(c)), Send(c));
            && InPhase(t, c, Running) && t.ends[c].ring.Valid() && t.ends[c].inFlight == []
            && t.ends[c].sent == e.sent + [e.ring.Queue()[0]] && t.ends[c].ring.Queue() == e.ring.Queue()[1..]
            && |t.ends| == |s.ends| && (forall o :: 0 <= o < |s.ends| && o != c ==> t.ends[o] == s.ends[o])
            && t.memory == s.memory && t.pending == s.pending && t.log == s.log && t.ledger == s.ledger
  {
    EmptyExactlyWhenIndicesMeet(s.ends[c].ring);
    DequeueTakesOldest(s.ends[c].ring);
  }

  lemma {:induction false} PrefixTakesNext(before: seq<Message>, q: seq<Message>, k: nat, more: nat)
    requires k < |q| && more == k + 1
    ensures (before + q[..k]) + [q[k..][0]] == before + q[..more] && q[k..][1..] == q[more..]
  {
  }

  lemma {:induction false} TakeAndSendOne(s: State, t: State, c: nat, k: nat, more: nat)
    requires c < |s.ends| && s.ends[c].ring.Valid() && k < |s.ends[c].ring.Queue()|
    requires DrainedBy(s, t, c, k) && more == k + 1
    ensures DrainedBy(s, Next(Next(t, Step.Take(c)), Send(c)), c, more)
  {
    OldestIsSent(t, c);
    PrefixTakesNext(s.ends[c].sent + s.ends[c].inFlight, s.ends[c].ring.Queue(), k, more);
  }

  lemma {:induction false} DrainNothing(s: State, c: nat)
    requires InPhase(s, c, Running) && s.ends[c].ring.Valid()
    ensures DrainedBy(s, Run(s, DrainSteps(c, 0)), c, 0)
  {
    assert Run(s, []) == s && [] + [Send(c)] == [Send(c)];
    RunOneMore(s, [], Send(c));
    SendClearsFlight(s, c);
  }

  lemma {:induction false} DrainSendsSome(s: State, c: nat, k: nat)
    requires InPhase(s, c, Running) && s.ends[c].ring.Valid() && k <= |s.ends[c].ring.Queue()|
    ensures DrainedBy(s, Run(s, DrainSteps(c, k)), c, k)
  {
    if k == 0 {
      DrainNothing(s, c);
    } else {
      var init := DrainSteps(c, k - 1);
      DrainSendsSome(s, c, k - 1);
      RunTwoMore(s, init, Step.Take(c), Send(c));
      TakeAndSendOne(s, Run(s, init), c, k - 1, k);
    }
  }

  /** In every run, from wherever it is, the notification thread of a present client sends
      everything accepted for it, in order, in as many rounds as messages are queued. */
  lemma {:induction false} DrainingSendsEverything(z: Sizes, steps: seq<Step>, c: nat)
    requires z.queue > 0 && z.clients <= z.watches
    requires InPhase(Run(Init(z), steps), c, Running)
    ensures var s := Run(Init(z), steps);
            && s.ends[c].ring.Valid()
            && var t := Run(s, DrainSteps(c, |s.ends[c].ring.Queue()|));
               && InPhase(t, c, Running) && t.ends[c].ring.Valid()
               && t.ends[c].sent == s.ends[c].accepted
               && t.ends[c].inFlight == [] && t.ends[c].ring.Queue() == []
  {
    RunsStaySound(z, steps);
    var s := Run(Init(z), steps);
    var q := s.ends[c].ring.Queue();
    assert InOrder(s.ends[c]);
    DrainSendsSome(s, c, |q|);
    assert q[..|q|] == q && q[|q|..] == [];
  }
}
