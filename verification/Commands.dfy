/** What registration and the commands that match nothing do, and how long unwatch lasts. */
module Commands {
  import opened Resources
  import opened Matching
  import opened SharedState
  import opened Server

  /** Registration takes the lowest slot without a socket and starts its client at the
      origin, whoever had the slot before; with all slots taken nothing changes. */
  lemma {:induction false} RegistrationStartsAtOrigin(m: Memory, socket: int)
    ensures var (n, id) := Register(m, socket);
            && (id == None <==> forall k :: 0 <= k < |m.clients| ==> m.clients[k].socket != FREE)
            && (id == None ==> n == m)
            && (id.Some? ==>
                  && id.value < |m.clients| == |n.clients|
                  && m.clients[id.value].socket == FREE
                  && (forall k :: 0 <= k < id.value ==> m.clients[k].socket != FREE)
                  && n.clients[id.value].x == 0 && n.clients[id.value].y == 0
                  && n.clients[id.value].id == id.value && n.clients[id.value].socket == socket
                  && (forall k :: 0 <= k < |m.clients| && k != id.value ==> n.clients[k] == m.clients[k])
                  && n.supplies == m.supplies && n.demands == m.demands && n.watches == m.watches)
  {
    var i := FreeClient(m.clients);
    assert i < |m.clients| ==> m.clients[i].socket == FREE;
  }

  /** move sets the client's position and changes nothing else. */
  lemma {:induction false} MoveSetsPosition(m: Memory, c: nat, x: int, y: int)
    requires c < |m.clients|
    ensures var e := Execute(m, c, MoveTo(x, y));
            && e.notices == []
            && |e.memory.clients| == |m.clients|
            && e.memory.clients[c].x == x && e.memory.clients[c].y == y
            && e.memory.clients[c].id == m.clients[c].id && e.memory.clients[c].socket == m.clients[c].socket
            && (forall k :: 0 <= k < |m.clients| && k != c ==> e.memory.clients[k] == m.clients[k])
            && e.memory.supplies == m.supplies && e.memory.demands == m.demands && e.memory.watches == m.watches
  {
  }

  /** A supply is put where its client moved last. */
  lemma {:induction false} SupplyIsPutWhereMoved(m: Memory, c: nat, x: int, y: int, distance: int, offered: Amounts)
    requires c < |m.clients|
    ensures var moved := Execute(m, c, MoveTo(x, y)).memory;
            var k := FreeSupply(m.supplies);
            var n := PlaceSupply(moved, c, distance, offered);
            && |n.supplies| == |m.supplies|
            && (k < |m.supplies| ==> n.supplies[k] == Supply(x, y, offered, distance, c))
  {
  }

  /** The list commands change nothing and announce nothing. */
  lemma {:induction false} InspectionChangesNothing(m: Memory, c: nat)
    requires c < |m.clients|
    ensures Execute(m, c, Inspect).memory == m && Execute(m, c, Inspect).notices == []
  {
  }

  /** watch touches nothing but watches and announces nothing. */
  lemma {:induction false} WatchTouchesWatchesOnly(m: Memory, c: nat, radius: int)
    requires c < |m.clients|
    ensures var e := Execute(m, c, PutWatch(radius));
            && e.notices == [] && e.memory.clients == m.clients
            && e.memory.supplies == m.supplies && e.memory.demands == m.demands
  {
  }

  ghost predicate HasNoWatch(m: Memory, c: int) {
    forall i :: 0 <= i < |m.watches| ==> m.watches[i].client != c
  }

  /** unwatch leaves no watch of the client, every other watch as it was, changes nothing
      else and announces nothing. */
  lemma {:induction false} UnwatchRemovesWatch(m: Memory, c: nat)
    requires c < |m.clients|
    ensures var e := Execute(m, c, DropWatch);
            && e.notices == []
            && HasNoWatch(e.memory, c)
            && |e.memory.watches| == |m.watches|
            && (forall i :: 0 <= i < |m.watches| && m.watches[i].client != c ==> e.memory.watches[i] == m.watches[i])
            && (forall i :: 0 <= i < |m.watches| && m.watches[i].client == c ==> e.memory.watches[i].client == FREE)
            && e.memory.clients == m.clients
            && e.memory.supplies == m.supplies && e.memory.demands == m.demands
  {
  }

  // ---------- Unwatching over runs ----------

  predicate Watches(step: Step, c: nat) {
    step.Issue? && step.client == c && step.command.PutWatch?
  }

  /** Nothing that is asked for tells c of an insertion. */
  ghost predicate TellsNoInsertion(ns: seq<Notice>, c: int) {
    forall i :: 0 <= i < |ns| && ns[i].client == c ==> !ns[i].message.Inserted?
  }

  lemma {:induction false} MatchesTellNoInsertion(ms: seq<Match>, c: int)
    ensures TellsNoInsertion(AllNotices(ms), c)
  {
    if ms != [] {
      MatchesTellNoInsertion(ms[1..], c);
      assert TellsNoInsertion(NoticesOf(ms[0]), c);
    }
  }

  lemma {:induction false} OnlyWatchersAreTold(ws: seq<Watch>, s: Supply, c: int)
    requires forall i :: 0 <= i < |ws| ==> ws[i].client != c
    ensures TellsNoInsertion(WatchNotices(ws, s), c)
  {
    if ws != [] {
      OnlyWatchersAreTold(ws[1..], s, c);
    }
  }

  lemma {:induction false} CommandTellsNoInsertion(m: Memory, who: nat, command: Command, c: nat)
    requires who < |m.clients| && HasNoWatch(m, c) && (who == c ==> !command.PutWatch?)
    ensures var e := Execute(m, who, command); HasNoWatch(e.memory, c) && TellsNoInsertion(e.notices, c)
  {
    match command
    case PutDemand(wanted) =>
      var placed := PlaceDemand(m, who, wanted);
      MatchesTellNoInsertion(FirstFit(placed.supplies, placed.demands, 0).matches, c);
    case PutSupply(distance, offered) =>
      var placed, slot := PlaceSupply(m, who, distance, offered), FreeSupply(m.supplies);
      var scanned := Scan(placed).memory;
      MatchesTellNoInsertion(FirstFit(placed.supplies, placed.demands, 0).matches, c);
      if slot < |scanned.supplies| {
        OnlyWatchersAreTold(m.watches, scanned.supplies[slot], c);
      }
    case _ =>
  }

  lemma {:induction false} StepTellsNoInsertion(s: State, step: Step, c: nat)
    requires HasNoWatch(s.memory, c) && !Watches(step, c)
    ensures var t := Next(s, step);
            HasNoWatch(t.memory, c) && s.log <= t.log && TellsNoInsertion(t.log[|s.log|..], c)
  {
    if step.Issue? && s.pending == [] && InPhase(s, step.client, Running) {
      CommandTellsNoInsertion(s.memory, step.client, step.command, c);
      var ns := Execute(s.memory, step.client, step.command).notices;
      assert (s.log + ns)[|s.log|..] == ns;
    } else {
      assert s.log[|s.log|..] == [];
    }
  }

  lemma {:induction false} LogsJoin(a: seq<Notice>, b: seq<Notice>, d: seq<Notice>, c: int)
    requires a <= b <= d && TellsNoInsertion(b[|a|..], c) && TellsNoInsertion(d[|b|..], c)
    ensures TellsNoInsertion(d[|a|..], c)
  {
    assert d[|a|..] == b[|a|..] + d[|b|..];
  }

  /** A client without a watch is told of no insertion until it issues a watch command. */
  lemma {:induction false} WithoutWatchNoInsertion(s: State, steps: seq<Step>, c: nat)
    requires HasNoWatch(s.memory, c)
    requires forall n :: 0 <= n < |steps| ==> !Watches(steps[n], c)
    ensures var t := Run(s, steps);
            HasNoWatch(t.memory, c) && s.log <= t.log && TellsNoInsertion(t.log[|s.log|..], c)
    decreases |steps|
  {
    if steps == [] {
      assert s.log[|s.log|..] == [];
    } else {
      var init, step := steps[..|steps| - 1], steps[|steps| - 1];
      var mid := Run(s, init);
      WithoutWatchNoInsertion(s, init, c);
      StepTellsNoInsertion(mid, step, c);
      LogsJoin(s.log, mid.log, Run(s, steps).log, c);
    }
  }

  /** Once an unwatch took effect, no notice for the client is of an insertion until it
      issues a watch command, whatever anybody else does and even if its id is reused. */
  lemma {:induction false} UnwatchSilences(s: State, c: nat, steps: seq<Step>)
    requires s.pending == [] && InPhase(s, c, Running)
    requires forall n :: 0 <= n < |steps| ==> !Watches(steps[n], c)
    ensures var t, u := Next(s, Issue(c, DropWatch)), Run(Next(s, Issue(c, DropWatch)), steps);
            t.pending == [] && HasNoWatch(u.memory, c) && t.log <= u.log && TellsNoInsertion(u.log[|t.log|..], c)
  {
    UnwatchRemovesWatch(s.memory, c);
    WithoutWatchNoInsertion(Next(s, Issue(c, DropWatch)), steps, c);
  }
}
