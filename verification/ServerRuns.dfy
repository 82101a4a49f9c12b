/** What every run of the server keeps: ownership, delivery order, conservation of
    resources, and a table in which nothing is left to match. */
module ServerRuns {
  import opened Resources
  import opened Matching
  import opened SharedState
  import opened WatchTable
  import opened NotificationRing
  import opened Ownership
  import opened Server

  // ---------- One endpoint: order, drops and completeness ----------

  /** a can be had from b by leaving messages out. */
  ghost predicate Subsequence(a: seq<Message>, b: seq<Message>) {
    if b == [] then a == []
    else
      var b' := b[..|b| - 1];
      || Subsequence(a, b')
      || (a != [] && a[|a| - 1] == b[|b| - 1] && Subsequence(a[..|a| - 1], b'))
  }

  /** Sent, in flight and queued are exactly the accepted messages in order; those are
      the attempted ones with some left out, and all of them while they still fit. */
  ghost predicate InOrder(e: Endpoint) {
    && e.ring.Valid()
    && e.accepted == e.sent + e.inFlight + e.ring.Queue()
    && |e.inFlight| <= 1
    && Subsequence(e.accepted, e.attempted)
    && (|e.attempted| < |e.ring.slots| ==> e.accepted == e.attempted)
  }

  lemma {:induction false} AttemptKeepsOrder(e: Endpoint, m: Message)
    requires InOrder(e)
    ensures InOrder(Attempt(e, m))
    ensures Attempt(e, m).accepted
            == if |e.ring.Queue()| == |e.ring.slots| - 1 then e.accepted else e.accepted + [m]
  {
    var f := Attempt(e, m);
    EnqueueAppends(e.ring, m);
    assert f.attempted[..|f.attempted| - 1] == e.attempted;
    if !e.ring.Full() {
      assert f.accepted[..|f.accepted| - 1] == e.accepted;
    }
  }

  lemma {:induction false} TakeKeepsOrder(e: Endpoint)
    requires InOrder(e) && e.inFlight == [] && e.ring.head != e.ring.tail
    ensures InOrder(e.(ring := e.ring.Dequeue(), inFlight := [e.ring.slots[e.ring.tail]]))
  {
    DequeueTakesOldest(e.ring);
    assert e.ring.Queue() == [e.ring.slots[e.ring.tail]] + e.ring.Dequeue().Queue();
    assert e.sent + [] + e.ring.Queue() == e.sent + [e.ring.slots[e.ring.tail]] + e.ring.Dequeue().Queue();
  }

  lemma {:induction false} SendKeepsOrder(e: Endpoint)
    requires InOrder(e)
    ensures InOrder(e.(inFlight := [], sent := e.sent + e.inFlight))
  {
  }

  lemma {:induction false} FreshEndpointInOrder(ring: Ring, since: nat)
    requires ring.Valid() && ring.head == ring.tail
    ensures InOrder(Endpoint(Running, ring, [], [], [], [], since))
  {
  }

  // ---------- The invariant of all runs ----------

  /** What client c was or is about to be told is what the log holds for it since it joined. */
  ghost predicate Informed(s: State, c: nat)
    requires c < |s.ends|
  {
    && s.ends[c].since <= |s.log|
    && s.ends[c].attempted + MessagesTo(s.pending, c) == MessagesTo(s.log[s.ends[c].since..], c)
  }

  /** Per resource, what ever entered a table is live, delivered or withdrawn, and
      suppliers were told of as much delivered as demanders of fulfilled. */
  ghost predicate Conserved(s: State, r: Resource) {
    var l := s.ledger;
    && l.supplied.Of(r)
       == Total(s.memory.supplies, LiveSupply(r)) + Total(s.log, DeliveredBy(r)) + l.withdrawnSupply.Of(r)
    && l.demanded.Of(r)
       == Total(s.memory.demands, LiveDemand(r)) + Total(s.log, FulfilledBy(r)) + l.withdrawnDemand.Of(r)
    && Total(s.log, DeliveredBy(r)) == Total(s.log, FulfilledBy(r))
  }

  /** The tables: owned by the clients that are present, with room for a watch each. */
  ghost predicate TablesSound(s: State) {
    && WellOwned(s.memory)
    && |s.ends| == |s.memory.clients| <= |s.memory.watches|
    && (forall c :: 0 <= c < |s.ends| ==> (s.ends[c].phase == Vacant <==> !Registered(s.memory, c)))
    && Addressed(s.pending, s.memory)
  }

  ghost predicate EndpointsSound(s: State) {
    forall c :: 0 <= c < |s.ends| ==> InOrder(s.ends[c]) && (s.ends[c].phase != Vacant ==> Informed(s, c))
  }

  ghost predicate Sound(s: State) {
    TablesSound(s) && EndpointsSound(s)
  }

  lemma {:induction false} InitSound(z: Sizes)
    requires z.queue > 0 && z.clients <= z.watches
    ensures Sound(Init(z))
  {
    var e := Endpoint(Vacant, Ring(seq(z.queue, _ => Exhausted), 0, 0), [], [], [], [], 0);
    assert InOrder(e);
    assert forall c :: 0 <= c < |Init(z).ends| ==> Init(z).ends[c] == e;
  }

  lemma {:induction false} InitConserved(z: Sizes, r: Resource)
    ensures Conserved(Init(z), r)
  {
    TotalOfWeightless(Init(z).memory.supplies, LiveSupply(r));
    TotalOfWeightless(Init(z).memory.demands, LiveDemand(r));
  }

  lemma {:induction false} JoinKeepsSound(s: State, socket: nat)
    requires Sound(s)
    ensures Sound(Next(s, Join(socket)))
  {
    var t := Next(s, Join(socket));
    if t != s {
      var c := FreeClient(s.memory.clients);
      FreshEndpointInOrder(t.ends[c].ring, |s.log|);
      assert t.log[|s.log|..] == [];
      assert forall k :: Registered(s.memory, k) ==> Registered(t.memory, k);
      forall k | 0 <= k < |t.ends|
        ensures InOrder(t.ends[k]) && (t.ends[k].phase != Vacant ==> Informed(t, k))
      {
        if k != c { assert t.ends[k] == s.ends[k]; }
      }
    }
  }

  lemma {:induction false} IssueInforms(s: State, c: nat, command: Command, k: nat)
    requires s.pending == [] && InPhase(s, c, Running) && k < |s.ends| && Informed(s, k)
    ensures Informed(Next(s, Issue(c, command)), k)
  {
    var t := Next(s, Issue(c, command));
    var since := s.ends[k].since;
    assert t.log[since..] == s.log[since..] + t.pending;
    MessagesToConcat(s.log[since..], t.pending, k);
  }

  lemma {:induction false} IssueKeepsSound(s: State, c: nat, command: Command)
    requires Sound(s)
    ensures Sound(Next(s, Issue(c, command)))
  {
    var t := Next(s, Issue(c, command));
    if s.pending == [] && InPhase(s, c, Running) {
      CommandKeepsOwnership(s.memory, c, command);
      assert forall k :: Registered(s.memory, k) <==> Registered(t.memory, k);
      forall k | 0 <= k < |s.ends| && s.ends[k].phase != Vacant
        ensures Informed(t, k)
      {
        IssueInforms(s, c, command, k);
      }
    }
  }

  lemma {:induction false} DeliverInforms(s: State, k: nat)
    requires s.pending != [] && 0 <= s.pending[0].client < |s.ends| && k < |s.ends|
    requires s.ends[s.pending[0].client].ring.Valid() && Informed(s, k)
    ensures |Next(s, Deliver).ends| == |s.ends| && Informed(Next(s, Deliver), k)
  {
    var n, rest := s.pending[0], s.pending[1..];
    if k == n.client {
      assert (s.ends[k].attempted + [n.message]) + MessagesTo(rest, k)
          == s.ends[k].attempted + ([n.message] + MessagesTo(rest, k));
    }
  }

  lemma {:induction false} DeliverKeepsSound(s: State)
    requires Sound(s)
    ensures Sound(Next(s, Deliver))
  {
    if s.pending != [] {
      var t := Next(s, Deliver);
      var n := s.pending[0];
      assert Registered(s.memory, n.client);
      assert InOrder(s.ends[n.client]);
      AttemptKeepsOrder(s.ends[n.client], n.message);
      forall k | 0 <= k < |t.ends| && t.ends[k].phase != Vacant
        ensures Informed(t, k)
      {
        assert s.ends[k].phase == t.ends[k].phase;
        DeliverInforms(s, k);
      }
    }
  }

  lemma {:induction false} ThreadStepKeepsSound(s: State, step: Step)
    requires Sound(s) && (step.Take? || step.Send? || step.Halt?)
    ensures Sound(Next(s, step))
  {
    var t, c := Next(s, step), step.client;
    if t != s {
      assert InOrder(s.ends[c]) && Informed(s, c);
      if step.Take? {
        TakeKeepsOrder(s.ends[c]);
      } else if step.Send? {
        SendKeepsOrder(s.ends[c]);
      }
      forall k | 0 <= k < |t.ends|
        ensures InOrder(t.ends[k]) && (t.ends[k].phase != Vacant ==> Informed(t, k))
      {
        assert InOrder(s.ends[k]) && (s.ends[k].phase != Vacant ==> Informed(s, k));
      }
    }
  }

  lemma {:induction false} LeaveKeepsSound(s: State, c: nat)
    requires Sound(s)
    ensures Sound(Next(s, Leave(c)))
  {
    var t := Next(s, Leave(c));
    if s.pending == [] && InPhase(s, c, Stopped) {
      RemovalKeepsOwnership(s.memory, c);
      forall k | 0 <= k < |t.ends|
        ensures InOrder(t.ends[k]) && (t.ends[k].phase != Vacant ==> Informed(t, k))
      {
        assert InOrder(s.ends[k]) && (s.ends[k].phase != Vacant ==> Informed(s, k));
      }
    }
  }

  lemma {:induction false} StepKeepsSound(s: State, step: Step)
    requires Sound(s)
    ensures Sound(Next(s, step))
  {
    match step
    case Join(socket) => JoinKeepsSound(s, socket);
    case Issue(c, command) => IssueKeepsSound(s, c, command);
    case Deliver => DeliverKeepsSound(s);
    case Leave(c) => LeaveKeepsSound(s, c);
    case _ => ThreadStepKeepsSound(s, step);
  }

  /** In every reachable state every table entry and every pending notice belongs to a
      present client, nobody has two watches, and every client's messages are in order. */
  lemma {:induction false} RunsStaySound(z: Sizes, steps: seq<Step>)
    requires z.queue > 0 && z.clients <= z.watches
    ensures Sound(Run(Init(z), steps))
  {
    if steps == [] {
      InitSound(z);
    } else {
      RunsStaySound(z, steps[..|steps| - 1]);
      StepKeepsSound(Run(Init(z), steps[..|steps| - 1]), steps[|steps| - 1]);
    }
  }

  // ---------- Conservation ----------

  lemma {:induction false} PlaceDemandConserves(m: Memory, c: nat, wanted: Amounts, r: Resource)
    requires c < |m.clients|
    ensures var placed := PlaceDemand(m, c, wanted);
            Total(placed.demands, LiveDemand(r)) - Total(m.demands, LiveDemand(r))
            == if FreeDemand(m.demands) == |m.demands| then 0 else wanted.Of(r)
  {
    var j := FreeDemand(m.demands);
    if j < |m.demands| {
      TotalOfUpdate(m.demands, LiveDemand(r), j, PlaceDemand(m, c, wanted).demands[j]);
    }
  }

  lemma {:induction false} PlaceSupplyConserves(m: Memory, c: nat, distance: int, offered: Amounts, r: Resource)
    requires c < |m.clients|
    ensures var placed := PlaceSupply(m, c, distance, offered);
            Total(placed.supplies, LiveSupply(r)) - Total(m.supplies, LiveSupply(r))
            == if FreeSupply(m.supplies) == |m.supplies| then 0 else offered.Of(r)
  {
    var i := FreeSupply(m.supplies);
    if i < |m.supplies| {
      TotalOfUpdate(m.supplies, LiveSupply(r), i, PlaceSupply(m, c, distance, offered).supplies[i]);
    }
  }

  /** Announcing a supply delivers nothing. */
  lemma {:induction false} AnnouncingIsWeightless(ws: seq<Watch>, s: Supply, r: Resource)
    ensures Total(WatchNotices(ws, s), DeliveredBy(r)) == 0
    ensures Total(WatchNotices(ws, s), FulfilledBy(r)) == 0
  {
    if ws != [] {
      AnnouncingIsWeightless(ws[1..], s, r);
      if Watching(ws[0], s) {
        assert WatchNotices(ws, s)[1..] == WatchNotices(ws[1..], s);
      }
    }
  }

  /** A command's notices account for what it takes out of the tables beside what it put in. */
  ghost predicate Balanced(m: Memory, e: Effect, l: Ledger, l': Ledger, r: Resource) {
    var delivered, fulfilled := Total(e.notices, DeliveredBy(r)), Total(e.notices, FulfilledBy(r));
    && Total(m.supplies, LiveSupply(r)) + l'.supplied.Of(r) - l.supplied.Of(r)
       == Total(e.memory.supplies, LiveSupply(r)) + delivered
    && Total(m.demands, LiveDemand(r)) + l'.demanded.Of(r) - l.demanded.Of(r)
       == Total(e.memory.demands, LiveDemand(r)) + fulfilled
    && delivered == fulfilled
    && l' == l.(supplied := l'.supplied, demanded := l'.demanded)
  }

  lemma {:induction false} SupplyCommandBalances(m: Memory, c: nat, distance: int, offered: Amounts, l: Ledger,
                                                 r: Resource)
    requires c < |m.clients|
    ensures Balanced(m, SupplyCommand(m, c, distance, offered), l, Recorded(l, m, PutSupply(distance, offered)), r)
  {
    PlaceSupplyConserves(m, c, distance, offered, r);
    var placed := PlaceSupply(m, c, distance, offered);
    ScanConserves(placed.supplies, placed.demands, 0, r);
    var scanned := Scan(placed);
    if FreeSupply(m.supplies) < |scanned.memory.supplies| {
      var told := InsertionNotices(scanned.memory, FreeSupply(m.supplies));
      AnnouncingIsWeightless(m.watches, scanned.memory.supplies[FreeSupply(m.supplies)], r);
      TotalOfConcat(scanned.notices, told, DeliveredBy(r));
      TotalOfConcat(scanned.notices, told, FulfilledBy(r));
    }
  }

  lemma {:induction false} CommandBalances(m: Memory, c: nat, command: Command, l: Ledger, r: Resource)
    requires c < |m.clients|
    ensures Balanced(m, Execute(m, c, command), l, Recorded(l, m, command), r)
  {
    match command
    case PutDemand(wanted) =>
      PlaceDemandConserves(m, c, wanted, r);
      var placed := PlaceDemand(m, c, wanted);
      ScanConserves(placed.supplies, placed.demands, 0, r);
    case PutSupply(distance, offered) => SupplyCommandBalances(m, c, distance, offered, l, r);
    case _ =>
  }

  lemma {:induction false} SupplyRemovalWithdraws(ss: seq<Supply>, c: nat, r: Resource)
    ensures Total(ss, LiveSupply(r)) == Total(WithoutSupplies(ss, c), LiveSupply(r)) + SupplyOf(ss, c, r)
  {
    if ss != [] {
      SupplyRemovalWithdraws(ss[1..], c, r);
      assert WithoutSupplies(ss, c)[1..] == WithoutSupplies(ss[1..], c);
    }
  }

  lemma {:induction false} DemandRemovalWithdraws(ds: seq<Demand>, c: nat, r: Resource)
    ensures Total(ds, LiveDemand(r)) == Total(WithoutDemands(ds, c), LiveDemand(r)) + DemandOf(ds, c, r)
  {
    if ds != [] {
      DemandRemovalWithdraws(ds[1..], c, r);
      assert WithoutDemands(ds, c)[1..] == WithoutDemands(ds[1..], c);
    }
  }

  lemma {:induction false} StepConserves(s: State, step: Step, r: Resource)
    requires Conserved(s, r)
    ensures Conserved(Next(s, step), r)
  {
    match step
    case Issue(c, command) =>
      if s.pending == [] && InPhase(s, c, Running) {
        CommandBalances(s.memory, c, command, s.ledger, r);
        var ns := Execute(s.memory, c, command).notices;
        TotalOfConcat(s.log, ns, DeliveredBy(r));
        TotalOfConcat(s.log, ns, FulfilledBy(r));
      }
    case Leave(c) =>
      SupplyRemovalWithdraws(s.memory.supplies, c, r);
      DemandRemovalWithdraws(s.memory.demands, c, r);
    case _ =>
  }

  /** Whatever was ever put in a table is still live, was announced as delivered, or
      left with its client; as much was announced to demanders as to suppliers. */
  lemma {:induction false} RunsConserve(z: Sizes, steps: seq<Step>, r: Resource)
    ensures Conserved(Run(Init(z), steps), r)
  {
    if steps == [] {
      InitConserved(z, r);
    } else {
      RunsConserve(z, steps[..|steps| - 1], r);
      StepConserves(Run(Init(z), steps[..|steps| - 1]), steps[|steps| - 1], r);
    }
  }

  // ---------- Quiescence ----------

  ghost predicate Calm(m: Memory) {
    Quiet(m) && DemandsNonNegative(m.demands)
  }

  predicate AsksNonNegative(step: Step) {
    step.Issue? && step.command.PutDemand? ==> step.command.wanted.NonNegative()
  }

  lemma {:induction false} StepKeepsCalm(s: State, step: Step)
    requires Calm(s.memory) && AsksNonNegative(step)
    ensures Calm(Next(s, step).memory)
  {
    var t := Next(s, step);
    match step
    case Issue(c, command) =>
      if s.pending == [] && InPhase(s, c, Running) {
        match command
        case PutDemand(wanted) =>
          ScanReachesQuiescence(s.memory.supplies, PlaceDemand(s.memory, c, wanted).demands, 0);
        case PutSupply(distance, offered) =>
          ScanReachesQuiescence(PlaceSupply(s.memory, c, distance, offered).supplies, s.memory.demands, 0);
        case _ =>
      }
    case Leave(c) =>
      if t != s {
        forall j, i | 0 <= j < |t.memory.demands| && 0 <= i < |t.memory.supplies|
          ensures !Compatible(t.memory.demands[j], t.memory.supplies[i])
        {
          assert Unmatched(s.memory.supplies, s.memory.demands[j]);
        }
      }
    case _ =>
  }

  /** As long as no demand asks for a negative amount, no reachable state has a live
      demand beside a live supply that is compatible with it. */
  lemma {:induction false} RunsStayQuiet(z: Sizes, steps: seq<Step>)
    requires forall n :: 0 <= n < |steps| ==> AsksNonNegative(steps[n])
    ensures Calm(Run(Init(z), steps).memory)
  {
    if steps != [] {
      RunsStayQuiet(z, steps[..|steps| - 1]);
      StepKeepsCalm(Run(Init(z), steps[..|steps| - 1]), steps[|steps| - 1]);
    }
  }

  // ---------- Supplies ----------

  ghost predicate SuppliesNonNegative(ss: seq<Supply>) {
    forall i :: 0 <= i < |ss| ==> HoldsNonNegative(ss[i])
  }

  predicate OffersNonNegative(step: Step) {
    step.Issue? && step.command.PutSupply? ==> step.command.offered.NonNegative()
  }

  lemma {:induction false} ScanKeepsSuppliesNonNegative(ss: seq<Supply>, ds: seq<Demand>)
    requires SuppliesNonNegative(ss)
    ensures SuppliesNonNegative(FirstFit(ss, ds, 0).supplies)
  {
    ScanConserves(ss, ds, 0, A);
    forall i | 0 <= i < |ss| ensures HoldsNonNegative(FirstFit(ss, ds, 0).supplies[i]) {
      ScanLeavesNonNegative(ss, ds, 0, i);
    }
  }

  lemma {:induction false} StepKeepsSuppliesNonNegative(s: State, step: Step)
    requires SuppliesNonNegative(s.memory.supplies) && OffersNonNegative(step)
    ensures SuppliesNonNegative(Next(s, step).memory.supplies)
  {
    if step.Issue? && s.pending == [] && InPhase(s, step.client, Running) {
      match step.command
      case PutDemand(wanted) =>
        ScanKeepsSuppliesNonNegative(s.memory.supplies, PlaceDemand(s.memory, step.client, wanted).demands);
      case PutSupply(distance, offered) =>
        ScanKeepsSuppliesNonNegative(PlaceSupply(s.memory, step.client, distance, offered).supplies, s.memory.demands);
      case _ =>
    }
  }

  /** While nobody offers a negative amount, no reachable state has a supply with one,
      whatever is demanded. */
  lemma {:induction false} RunsKeepSuppliesNonNegative(z: Sizes, steps: seq<Step>)
    requires forall n :: 0 <= n < |steps| ==> OffersNonNegative(steps[n])
    ensures SuppliesNonNegative(Run(Init(z), steps).memory.supplies)
  {
    if steps != [] {
      RunsKeepSuppliesNonNegative(z, steps[..|steps| - 1]);
      StepKeepsSuppliesNonNegative(Run(Init(z), steps[..|steps| - 1]), steps[|steps| - 1]);
    }
  }

  // ---------- What a client sees ----------

  /** Once nothing is pending, a present client has been sent, is being sent or has
      queued, in order, what was asked for it since it joined, apart from messages
      dropped at a full queue; and nothing was dropped while everything fitted. */
  lemma {:induction false} ClientsAreTold(z: Sizes, steps: seq<Step>, c: nat)
    requires 0 < z.queue && z.clients <= z.watches && c < z.clients
    requires var s := Run(Init(z), steps); |s.ends| > c && s.ends[c].phase != Vacant && s.pending == []
    ensures var s := Run(Init(z), steps); var e := s.ends[c];
            && e.ring.Valid() && e.since <= |s.log|
            && var told := e.sent + e.inFlight + e.ring.Queue();
               var asked := MessagesTo(s.log[e.since..], c);
               && Subsequence(told, asked)
               && (|asked| < |e.ring.slots| ==> told == asked)
  {
    RunsStaySound(z, steps);
    var s := Run(Init(z), steps);
    assert InOrder(s.ends[c]) && Informed(s, c);
    assert s.ends[c].attempted + [] == s.ends[c].attempted;
  }

  /** A client that joins, whoever had its id before, stands at the origin, finds no entry of
      its own in any table and an empty queue. */
  lemma {:induction false} JoinersStartClean(z: Sizes, steps: seq<Step>, socket: nat, c: nat)
    requires z.queue > 0 && z.clients <= z.watches && c < z.clients
    requires var s := Run(Init(z), steps);
             s.pending == [] && c < |s.ends| && s.ends[c].phase == Vacant
             && Next(s, Join(socket)).ends[c].phase == Running
    ensures var t := Next(Run(Init(z), steps), Join(socket));
            && (forall i :: 0 <= i < |t.memory.supplies| ==> t.memory.supplies[i].client != c)
            && (forall j :: 0 <= j < |t.memory.demands| ==> t.memory.demands[j].client != c)
            && (forall i :: 0 <= i < |t.memory.watches| ==> t.memory.watches[i].client != c)
            && t.ends[c].ring.Valid() && t.ends[c].ring.Queue() == []
            && t.ends[c].sent == t.ends[c].attempted == []
            && t.memory.clients[c] == Client(c, socket, 0, 0)
  {
    RunsStaySound(z, steps);
    RunsStaySound(z, steps + [Join(socket)]);
    assert (steps + [Join(socket)])[..|steps|] == steps;
  }

  /** In every run, a watch command leaves its client with exactly that one watch. */
  lemma {:induction false} WatchesNeverRunOut(z: Sizes, steps: seq<Step>, c: nat, radius: int)
    requires z.queue > 0 && z.clients <= z.watches
    requires var s := Run(Init(z), steps); s.pending == [] && InPhase(s, c, Running)
    ensures var s := Run(Init(z), steps); var ws := Next(s, Issue(c, PutWatch(radius))).memory.watches;
            exists i :: 0 <= i < |ws| && ws[i] == Watch(s.memory.clients[c].x, s.memory.clients[c].y, c, radius)
                        && forall k :: 0 <= k < |ws| && ws[k].client == c ==> k == i
  {
    RunsStaySound(z, steps);
    WatchAlwaysPlaced(Run(Init(z), steps).memory, c, radius);
  }
}
