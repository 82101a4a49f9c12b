/** The ledger of a run: every match is announced, in order, to both sides, and every
    supply holds what it was inserted with minus what was delivered from it. */
module SupplyLedgers {
  import opened Resources
  import opened Matching
  import opened SharedState
  import opened WatchTable
  import opened Server

  /** The matches a step makes. */
  function MatchesOf(s: State, step: Step): seq<Match> {
    if !step.Issue? || s.pending != [] || !InPhase(s, step.client, Running) then []
    else
      match step.command
      case PutDemand(wanted) =>
        FirstFit(s.memory.supplies, PlaceDemand(s.memory, step.client, wanted).demands, 0).matches
      case PutSupply(distance, offered) =>
        FirstFit(PlaceSupply(s.memory, step.client, distance, offered).supplies, s.memory.demands, 0).matches
      case _ => []
  }

  function RunMatches(s: State, steps: seq<Step>): seq<Match> {
    if steps == [] then []
    else
      var init := steps[..|steps| - 1];
      RunMatches(s, init) + MatchesOf(Run(s, init), steps[|steps| - 1])
  }

  // ---------- Every match is announced ----------

  /** The notices that matches caused, in order. */
  function MatchNews(ns: seq<Notice>): seq<Notice> {
    if ns == [] then []
    else if Announcement(ns[0]) then MatchNews(ns[1..])
    else [ns[0]] + MatchNews(ns[1..])
  }

  lemma {:induction false} MatchNewsConcat(ns: seq<Notice>, os: seq<Notice>)
    ensures MatchNews(ns + os) == MatchNews(ns) + MatchNews(os)
  {
    if ns == [] {
      assert ns + os == os;
    } else {
      assert (ns + os)[1..] == ns[1..] + os;
      MatchNewsConcat(ns[1..], os);
      assert [ns[0]] + (MatchNews(ns[1..]) + MatchNews(os)) == ([ns[0]] + MatchNews(ns[1..])) + MatchNews(os);
    }
  }

  lemma {:induction false} OnlyMatchNews(ns: seq<Notice>)
    requires forall i :: 0 <= i < |ns| ==> !Announcement(ns[i])
    ensures MatchNews(ns) == ns
  {
    if ns != [] {
      OnlyMatchNews(ns[1..]);
    }
  }

  lemma {:induction false} MatchesAreNews(ms: seq<Match>)
    ensures MatchNews(AllNotices(ms)) == AllNotices(ms)
  {
    if ms != [] {
      MatchesAreNews(ms[1..]);
      OnlyMatchNews(NoticesOf(ms[0]));
      MatchNewsConcat(NoticesOf(ms[0]), AllNotices(ms[1..]));
    }
  }

  lemma {:induction false} AnnouncingIsNoNews(ws: seq<Watch>, s: Supply)
    ensures MatchNews(WatchNotices(ws, s)) == []
  {
    if ws != [] {
      AnnouncingIsNoNews(ws[1..], s);
      if Watching(ws[0], s) {
        assert WatchNotices(ws, s)[1..] == WatchNotices(ws[1..], s);
      }
    }
  }

  /** The log of s goes on with the notices of these matches, beside announcements. */
  ghost predicate Announced(s: State, t: State, ms: seq<Match>) {
    s.log <= t.log && MatchNews(t.log[|s.log|..]) == AllNotices(ms)
  }

  lemma {:induction false} NewsOfStep(s: State, step: Step)
    ensures Announced(s, Next(s, step), MatchesOf(s, step))
  {
    var t, ms := Next(s, step), MatchesOf(s, step);
    if step.Issue? && s.pending == [] && InPhase(s, step.client, Running) {
      var e := Execute(s.memory, step.client, step.command);
      assert t.log == s.log + e.notices;
      assert t.log[|s.log|..] == e.notices;
      MatchesAreNews(ms);
      if step.command.PutSupply? {
        var placed := PlaceSupply(s.memory, step.client, step.command.distance, step.command.offered);
        var slot := FreeSupply(s.memory.supplies);
        var scanned := Scan(placed).memory;
        if slot < |scanned.supplies| {
          var told := InsertionNotices(scanned, slot);
          MatchNewsConcat(AllNotices(ms), told);
          AnnouncingIsNoNews(scanned.watches, scanned.supplies[slot]);
        }
      }
    }
  }

  lemma {:induction false} AnnouncedLater(s: State, t: State, u: State, ms: seq<Match>, os: seq<Match>)
    requires Announced(s, t, ms) && Announced(t, u, os)
    ensures Announced(s, u, ms + os)
  {
    var before, added := t.log[|s.log|..], u.log[|t.log|..];
    assert u.log[|s.log|..] == before + added;
    MatchNewsConcat(before, added);
    AllNoticesConcat(ms, os);
  }

  /** Beside announcements, the log grows by exactly the notices of the matches made,
      match by match. */
  lemma {:induction false} RunsAnnounceTheirMatches(s: State, steps: seq<Step>)
    ensures Announced(s, Run(s, steps), RunMatches(s, steps))
  {
    if steps != [] {
      var init, step := steps[..|steps| - 1], steps[|steps| - 1];
      RunsAnnounceTheirMatches(s, init);
      NewsOfStep(Run(s, init), step);
      AnnouncedLater(s, Run(s, init), Run(s, steps), RunMatches(s, init), MatchesOf(Run(s, init), step));
    }
  }

  // ---------- What a supply holds ----------

  predicate Live(s: State, slot: nat) {
    slot < |s.memory.supplies| && s.memory.supplies[slot].client != FREE
  }

  ghost predicate LiveThroughout(s: State, steps: seq<Step>, slot: nat) {
    forall n: nat :: n <= |steps| ==> Live(Run(s, steps[..n]), slot)
  }

  /** What was delivered from a supply slot. */
  function TakenOf(ms: seq<Match>, slot: nat, r: Resource): int {
    TakenFrom(ms, slot).Of(r)
  }

  lemma {:induction false} TakenOfBoth(ms: seq<Match>, os: seq<Match>, slot: nat, r: Resource)
    ensures TakenOf(ms + os, slot, r) == TakenOf(ms, slot, r) + TakenOf(os, slot, r)
  {
    if ms == [] {
      assert ms + os == os;
    } else {
      assert (ms + os)[1..] == ms[1..] + os;
      TakenOfBoth(ms[1..], os, slot, r);
    }
  }

  /** The same supply, with less in it. */
  ghost predicate PaidOut(before: Supply, after: Supply, ms: seq<Match>, slot: nat) {
    && after == before.(amounts := after.amounts)
    && forall r: Resource :: after.amounts.Of(r) == before.amounts.Of(r) - TakenOf(ms, slot, r)
  }

  ghost predicate UsedUp(before: Supply, ms: seq<Match>, slot: nat) {
    forall r: Resource :: before.amounts.Of(r) == TakenOf(ms, slot, r)
  }

  /** A live supply after a step: it has paid for its deliveries, or it is gone because
      they used it up or its client left. */
  ghost predicate Settled(before: Supply, t: State, step: Step, ms: seq<Match>, slot: nat) {
    && slot < |t.memory.supplies|
    && (if Live(t, slot) then PaidOut(before, t.memory.supplies[slot], ms, slot)
        else t.memory.supplies[slot] == NO_SUPPLY
             && (UsedUp(before, ms, slot) || (step.Leave? && step.client == before.client)))
  }

  lemma {:induction false} ScanSettles(ss: seq<Supply>, ds: seq<Demand>, slot: nat)
    requires slot < |ss| && ss[slot].client != FREE
    ensures var o := FirstFit(ss, ds, 0);
            && |o.supplies| == |ss|
            && if o.supplies[slot].client != FREE then PaidOut(ss[slot], o.supplies[slot], o.matches, slot)
               else o.supplies[slot] == NO_SUPPLY && UsedUp(ss[slot], o.matches, slot)
  {
    ScanKeepsLedger(ss, ds, 0, slot);
  }

  lemma {:induction false} StepSettles(s: State, step: Step, slot: nat)
    requires Live(s, slot)
    ensures Settled(s.memory.supplies[slot], Next(s, step), step, MatchesOf(s, step), slot)
  {
    var t := Next(s, step);
    if step.Issue? && s.pending == [] && InPhase(s, step.client, Running) {
      match step.command
      case PutDemand(wanted) =>
        ScanSettles(s.memory.supplies, PlaceDemand(s.memory, step.client, wanted).demands, slot);
      case PutSupply(distance, offered) =>
        ScanSettles(PlaceSupply(s.memory, step.client, distance, offered).supplies, s.memory.demands, slot);
      case _ =>
    } else {
      assert MatchesOf(s, step) == [];
    }
  }

  lemma {:induction false} SettledLater(first: Supply, now: Supply, t: State, step: Step, ms: seq<Match>,
                                        os: seq<Match>, slot: nat)
    requires PaidOut(first, now, ms, slot) && Settled(now, t, step, os, slot)
    ensures Settled(first, t, step, ms + os, slot)
  {
    forall r: Resource
      ensures TakenOf(ms + os, slot, r) == TakenOf(ms, slot, r) + TakenOf(os, slot, r)
    {
      TakenOfBoth(ms, os, slot, r);
    }
  }

  lemma {:induction false} MatchesOneMore(s: State, steps: seq<Step>, step: Step)
    ensures RunMatches(s, steps + [step]) == RunMatches(s, steps) + MatchesOf(Run(s, steps), step)
  {
    assert (steps + [step])[..|steps|] == steps;
  }

  lemma {:induction false} LastApart(steps: seq<Step>, init: seq<Step>, last: Step)
    requires steps != [] && init == steps[..|steps| - 1] && last == steps[|steps| - 1]
    ensures init + [last] == steps
  {
  }

  lemma {:induction false} LiveOnTheWay(s: State, steps: seq<Step>, slot: nat)
    requires LiveThroughout(s, steps, slot)
    ensures Live(s, slot) && Live(Run(s, steps), slot)
    ensures steps != [] ==> LiveThroughout(s, steps[..|steps| - 1], slot)
  {
    assert steps[..0] == [] && steps[..|steps|] == steps;
    assert Live(Run(s, steps[..0]), slot) && Live(Run(s, steps[..|steps|]), slot);
    if steps != [] {
      var init := steps[..|steps| - 1];
      forall n: nat | n <= |init| ensures Live(Run(s, init[..n]), slot) {
        assert init[..n] == steps[..n];
      }
    }
  }

  /** Over any run in which a supply stays, and one step more: it holds what it started
      with minus all that was delivered from its slot, unless that was everything or its
      client left. */
  lemma {:induction false} SuppliesPayTheirDeliveries(s: State, steps: seq<Step>, step: Step, slot: nat)
    requires LiveThroughout(s, steps, slot)
    ensures slot < |s.memory.supplies|
    ensures Settled(s.memory.supplies[slot], Run(s, steps + [step]), step, RunMatches(s, steps + [step]), slot)
    decreases |steps|
  {
    var now := Run(s, steps);
    LiveOnTheWay(s, steps, slot);
    StepSettles(now, step, slot);
    RunOneMore(s, steps, step);
    MatchesOneMore(s, steps, step);
    if steps == [] {
      assert [] + MatchesOf(now, step) == MatchesOf(now, step);
    } else {
      var init, last := steps[..|steps| - 1], steps[|steps| - 1];
      SuppliesPayTheirDeliveries(s, init, last, slot);
      LastApart(steps, init, last);
      SettledLater(s.memory.supplies[slot], now.memory.supplies[slot], Next(now, step), step,
                   RunMatches(s, steps), MatchesOf(now, step), slot);
    }
  }

  lemma {:induction false} DeliveriesOfBoth(ms: seq<Match>, os: seq<Match>, slot: nat)
    ensures DeliveriesFrom(ms + os, slot) == DeliveriesFrom(ms, slot) + DeliveriesFrom(os, slot)
  {
    if ms == [] {
      assert ms + os == os;
    } else {
      assert (ms + os)[1..] == ms[1..] + os;
      DeliveriesOfBoth(ms[1..], os, slot);
    }
  }

  lemma {:induction false} StepLeavesNonNegative(s: State, step: Step, slot: nat)
    requires Live(s, slot) && Live(Next(s, step), slot)
    requires HoldsNonNegative(s.memory.supplies[slot]) || DeliveriesFrom(MatchesOf(s, step), slot) > 0
    ensures HoldsNonNegative(Next(s, step).memory.supplies[slot])
  {
    if step.Issue? && s.pending == [] && InPhase(s, step.client, Running) {
      match step.command
      case PutDemand(wanted) =>
        ScanLeavesNonNegative(s.memory.supplies, PlaceDemand(s.memory, step.client, wanted).demands, 0, slot);
      case PutSupply(distance, offered) =>
        ScanLeavesNonNegative(PlaceSupply(s.memory, step.client, distance, offered).supplies,
                              s.memory.demands, 0, slot);
      case _ =>
    }
  }

  /** Over any run in which a supply stays, it is non-negative as soon as it was so at the
      start or has served a demand. */
  lemma {:induction false} ServedSuppliesAreNonNegative(s: State, steps: seq<Step>, slot: nat)
    requires Live(s, slot) && LiveThroughout(s, steps, slot)
    requires HoldsNonNegative(s.memory.supplies[slot]) || DeliveriesFrom(RunMatches(s, steps), slot) > 0
    ensures Live(Run(s, steps), slot) && HoldsNonNegative(Run(s, steps).memory.supplies[slot])
    decreases |steps|
  {
    LiveOnTheWay(s, steps, slot);
    if steps != [] {
      var init, step := steps[..|steps| - 1], steps[|steps| - 1];
      DeliveriesOfBoth(RunMatches(s, init), MatchesOf(Run(s, init), step), slot);
      LiveOnTheWay(s, init, slot);
      if HoldsNonNegative(s.memory.supplies[slot]) || DeliveriesFrom(RunMatches(s, init), slot) > 0 {
        ServedSuppliesAreNonNegative(s, init, slot);
      }
      StepLeavesNonNegative(Run(s, init), step, slot);
    }
  }

  // ---------- From its insertion on ----------

  /** The step is a supply command that finds this slot free. */
  predicate Inserts(s: State, step: Step, slot: nat) {
    && step.Issue? && step.command.PutSupply? && s.pending == [] && InPhase(s, step.client, Running)
    && slot == FreeSupply(s.memory.supplies) < |s.memory.supplies|
  }

  /** What the command puts in the slot, before anything is delivered from it. */
  function Brought(s: State, step: Step, slot: nat): Supply
    requires Inserts(s, step, slot)
  {
    var at := s.memory.clients[step.client];
    Supply(at.x, at.y, step.command.offered, step.command.distance, step.client)
  }

  lemma {:induction false} InsertionSettles(s: State, step: Step, slot: nat)
    requires Inserts(s, step, slot)
    ensures Settled(Brought(s, step, slot), Next(s, step), step, MatchesOf(s, step), slot)
  {
    var placed := PlaceSupply(s.memory, step.client, step.command.distance, step.command.offered);
    ScanSettles(placed.supplies, s.memory.demands, slot);
  }

  lemma {:induction false} RunFromFirst(s: State, first: Step, steps: seq<Step>)
    ensures Run(s, [first] + steps) == Run(Next(s, first), steps)
    ensures RunMatches(s, [first] + steps) == MatchesOf(s, first) + RunMatches(Next(s, first), steps)
    decreases |steps|
  {
    if steps == [] {
      assert [] + [first] == [first] + steps;
      RunOneMore(s, [], first);
      MatchesOneMore(s, [], first);
      assert [] + MatchesOf(s, first) == MatchesOf(s, first) + [];
    } else {
      var init, last := steps[..|steps| - 1], steps[|steps| - 1];
      RunFromFirst(s, first, init);
      LastApart(steps, init, last);
      StepsAssociate([first], init, [last]);
      RunOneMore(s, [first] + init, last);
      MatchesOneMore(s, [first] + init, last);
      MatchesAssociate(MatchesOf(s, first), RunMatches(Next(s, first), init),
                       MatchesOf(Run(Next(s, first), init), last));
    }
  }

  lemma {:induction false} StepsAssociate(a: seq<Step>, b: seq<Step>, c: seq<Step>)
    ensures (a + b) + c == a + (b + c)
  {
  }

  lemma {:induction false} MatchesAssociate(a: seq<Match>, b: seq<Match>, c: seq<Match>)
    ensures (a + b) + c == a + (b + c)
  {
  }

  /** From the command that inserts it, over any run in which the supply stays, and one
      step more: it holds what it was offered with minus everything delivered from its
      slot, the deliveries of the inserting command included, unless that was everything
      or its client left. */
  lemma {:induction false} SupplyLedgerFromInsertion(s: State, insert: Step, steps: seq<Step>, step: Step, slot: nat)
    requires Inserts(s, insert, slot) && LiveThroughout(Next(s, insert), steps, slot)
    ensures Settled(Brought(s, insert, slot), Run(s, [insert] + (steps + [step])), step,
                    RunMatches(s, [insert] + (steps + [step])), slot)
  {
    var t := Next(s, insert);
    InsertionSettles(s, insert, slot);
    LiveOnTheWay(t, steps, slot);
    SuppliesPayTheirDeliveries(t, steps, step, slot);
    RunFromFirst(s, insert, steps + [step]);
    SettledLater(Brought(s, insert, slot), t.memory.supplies[slot], Run(t, steps + [step]), step,
                 MatchesOf(s, insert), RunMatches(t, steps + [step]), slot);
  }
}
