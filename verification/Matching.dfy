/** The slot tables of the supply/demand server and the matching scan over them,
    as values: what one run of the scan does, and why it leaves nothing to match. */
module Matching {
  import opened Resources

  /** A slot is free when its client is FREE; a removed entry is all zeroes. */
  const FREE := -1

  datatype Supply = Supply(x: int, y: int, amounts: Amounts, distance: int, client: int)

  datatype Demand = Demand(x: int, y: int, amounts: Amounts, client: int)

  const NO_SUPPLY := Supply(0, 0, ZERO, 0, FREE)
  const NO_DEMAND := Demand(0, 0, ZERO, FREE)

  /** The texts a client can be sent, one constructor per format string. */
  datatype Message =
    | Fulfilled(dx: int, dy: int, wanted: Amounts, sx: int, sy: int)
    | Delivered(sx: int, sy: int, held: Amounts, distance: int, dx: int, dy: int, wanted: Amounts)
    | Exhausted
    | Inserted(amounts: Amounts, x: int, y: int)

  /** One attempt to enqueue a message for a client. */
  datatype Notice = Notice(client: int, message: Message)

  function Abs(n: int): nat { if n < 0 then -n else n }

  function Manhattan(x1: int, y1: int, x2: int, y2: int): nat {
    Abs(x1 - x2) + Abs(y1 - y2)
  }

  predicate Compatible(d: Demand, s: Supply) {
    && d.client != FREE
    && s.client != FREE
    && Manhattan(d.x, d.y, s.x, s.y) < s.distance
    && s.amounts.Covers(d.amounts)
  }

  /** A live demand and a live supply are compatible exactly when the sum of their distances
      along both axes is below the supply's reach and each amount is covered. */
  lemma {:induction false} CompatibleInCoordinates(d: Demand, s: Supply)
    ensures Compatible(d, s) <==>
            && d.client != -1 && s.client != -1
            && (d.x - s.x) + (d.y - s.y) < s.distance && (d.x - s.x) - (d.y - s.y) < s.distance
            && -(d.x - s.x) + (d.y - s.y) < s.distance && -(d.x - s.x) - (d.y - s.y) < s.distance
            && s.amounts.a >= d.amounts.a && s.amounts.b >= d.amounts.b && s.amounts.c >= d.amounts.c
  {
  }

  /** What is left in a supply's slot once d has been served from it. */
  function Residual(s: Supply, d: Demand): Supply {
    var left := s.amounts.Minus(d.amounts);
    if left == ZERO then NO_SUPPLY else s.(amounts := left)
  }

  /** A demand served from a supply, both as they were just before. */
  datatype Match = Match(demandSlot: nat, supplySlot: nat, demand: Demand, supply: Supply)

  function NoticesOf(m: Match): seq<Notice> {
    var d, s := m.demand, m.supply;
    [Notice(d.client, Fulfilled(d.x, d.y, d.amounts, s.x, s.y)),
     Notice(s.client, Delivered(s.x, s.y, s.amounts, s.distance, d.x, d.y, d.amounts))]
    + if s.amounts == d.amounts then [Notice(s.client, Exhausted)] else []
  }

  /** A match tells the demand's client that it is fulfilled, then the supply's client what
      was delivered out of what it held, and then, exactly when nothing of any resource is
      left, that the supply is gone. */
  lemma {:induction false} MatchIsAnnounced(m: Match)
    ensures var d, s := m.demand, m.supply;
            NoticesOf(m) == [Notice(d.client, Fulfilled(d.x, d.y, d.amounts, s.x, s.y)),
                             Notice(s.client, Delivered(s.x, s.y, s.amounts, s.distance, d.x, d.y, d.amounts))]
                            + if s.amounts.a - d.amounts.a == 0 && s.amounts.b - d.amounts.b == 0
                                 && s.amounts.c - d.amounts.c == 0
                              then [Notice(s.client, Exhausted)] else []
  {
  }

  function AllNotices(ms: seq<Match>): seq<Notice> {
    if ms == [] then [] else NoticesOf(ms[0]) + AllNotices(ms[1..])
  }

  lemma {:induction false} AllNoticesConcat(ms: seq<Match>, os: seq<Match>)
    ensures AllNotices(ms + os) == AllNotices(ms) + AllNotices(os)
  {
    if ms == [] {
      assert ms + os == os;
    } else {
      assert (ms + os)[1..] == ms[1..] + os;
      AllNoticesConcat(ms[1..], os);
    }
  }

  function FirstCompatible(ss: seq<Supply>, d: Demand): (r: nat)
    ensures r <= |ss|
    ensures forall i :: 0 <= i < r ==> !Compatible(d, ss[i])
    ensures r < |ss| ==> Compatible(d, ss[r])
  {
    FirstWhere(ss, s => Compatible(d, s))
  }

  datatype Outcome = Outcome(supplies: seq<Supply>, demands: seq<Demand>, matches: seq<Match>)

  /** First-fit allocation: the demands from slot j on, in slot order, each take
      the lowest-numbered supply that is compatible at that point. */
  function FirstFit(ss: seq<Supply>, ds: seq<Demand>, j: nat): Outcome
    requires j <= |ds|
    decreases |ds| - j
  {
    if j == |ds| then Outcome(ss, ds, [])
    else
      var i := FirstCompatible(ss, ds[j]);
      if i == |ss| then FirstFit(ss, ds, j + 1)
      else
        var rest := FirstFit(ss[i := Residual(ss[i], ds[j])], ds[j := NO_DEMAND], j + 1);
        rest.(matches := [Match(j, i, ds[j], ss[i])] + rest.matches)
  }

  // ---------- Quiescence: a single forward scan is enough ----------

  ghost predicate Unmatched(ss: seq<Supply>, d: Demand) {
    forall i :: 0 <= i < |ss| ==> !Compatible(d, ss[i])
  }

  /** No live demand has a compatible live supply. */
  ghost predicate Quiescent(ss: seq<Supply>, ds: seq<Demand>) {
    forall j :: 0 <= j < |ds| ==> Unmatched(ss, ds[j])
  }

  ghost predicate DemandsNonNegative(ds: seq<Demand>) {
    forall j :: 0 <= j < |ds| && ds[j].client != FREE ==> ds[j].amounts.NonNegative()
  }

  /** Serving a non-negative demand never makes another demand servable. */
  lemma {:induction false} ResidualServesNoMore(s: Supply, d: Demand, e: Demand)
    requires d.amounts.NonNegative() && Compatible(e, Residual(s, d))
    ensures Compatible(e, s)
  {
  }

  lemma {:induction false} ScanReachesQuiescence(ss: seq<Supply>, ds: seq<Demand>, j: nat)
    requires j <= |ds|
    requires DemandsNonNegative(ds)
    requires forall k :: 0 <= k < j ==> Unmatched(ss, ds[k])
    ensures var r := FirstFit(ss, ds, j);
            && |r.supplies| == |ss| && |r.demands| == |ds|
            && Quiescent(r.supplies, r.demands)
            && DemandsNonNegative(r.demands)
    decreases |ds| - j
  {
    if j < |ds| {
      var i := FirstCompatible(ss, ds[j]);
      if i == |ss| {
        ScanReachesQuiescence(ss, ds, j + 1);
      } else {
        var ss', ds' := ss[i := Residual(ss[i], ds[j])], ds[j := NO_DEMAND];
        forall k, l | 0 <= k < j + 1 && 0 <= l < |ss'|
          ensures !Compatible(ds'[k], ss'[l])
        {
          if k < j && l == i && Compatible(ds'[k], ss'[l]) {
            ResidualServesNoMore(ss[i], ds[j], ds[k]);
          }
        }
        ScanReachesQuiescence(ss', ds', j + 1);
      }
    }
  }

  // ---------- The full rescan against an incremental one ----------

  datatype Pass = Pass(supply: Supply, demands: seq<Demand>, matches: seq<Match>)

  /** The demands from slot j on, in slot order, offered the supply in slot k only. */
  function PassAgainst(s: Supply, k: nat, ds: seq<Demand>, j: nat): Pass
    requires j <= |ds|
    decreases |ds| - j
  {
    if j == |ds| then Pass(s, ds, [])
    else if !Compatible(ds[j], s) then PassAgainst(s, k, ds, j + 1)
    else
      var rest := PassAgainst(Residual(s, ds[j]), k, ds[j := NO_DEMAND], j + 1);
      rest.(matches := [Match(j, k, ds[j], s)] + rest.matches)
  }

  /** When only slot k can match anything, the scan of all demands against all
      supplies is one pass of the demands against that slot. */
  lemma {:induction false} RescanIsOnePass(ss: seq<Supply>, k: nat, ds: seq<Demand>, j: nat)
    requires k < |ss| && j <= |ds|
    requires forall l, i :: j <= l < |ds| && 0 <= i < |ss| && i != k ==> !Compatible(ds[l], ss[i])
    ensures var p := PassAgainst(ss[k], k, ds, j);
            FirstFit(ss, ds, j) == Outcome(ss[k := p.supply], p.demands, p.matches)
    decreases |ds| - j
  {
    if j == |ds| {
      assert ss[k := ss[k]] == ss;
    } else if Compatible(ds[j], ss[k]) {
      var ss' := ss[k := Residual(ss[k], ds[j])];
      assert FirstCompatible(ss, ds[j]) == k;
      RescanIsOnePass(ss', k, ds[j := NO_DEMAND], j + 1);
      var p := PassAgainst(ss'[k], k, ds[j := NO_DEMAND], j + 1);
      assert ss'[k := p.supply] == ss[k := p.supply];
    } else {
      assert FirstCompatible(ss, ds[j]) == |ss|;
      RescanIsOnePass(ss, k, ds, j + 1);
    }
  }

  lemma {:induction false} QuiescentScanIsIdle(ss: seq<Supply>, ds: seq<Demand>, j: nat)
    requires j <= |ds|
    requires forall l :: j <= l < |ds| ==> Unmatched(ss, ds[l])
    ensures FirstFit(ss, ds, j) == Outcome(ss, ds, [])
    decreases |ds| - j
  {
    if j < |ds| {
      assert FirstCompatible(ss, ds[j]) == |ss|;
      QuiescentScanIsIdle(ss, ds, j + 1);
    }
  }

  /** What serving only the demand in slot k, from its first compatible supply, leaves. */
  function ServeOnly(ss: seq<Supply>, ds: seq<Demand>, k: nat): Outcome
    requires k < |ds|
  {
    var i := FirstCompatible(ss, ds[k]);
    if i == |ss| then Outcome(ss, ds, [])
    else Outcome(ss[i := Residual(ss[i], ds[k])], ds[k := NO_DEMAND], [Match(k, i, ds[k], ss[i])])
  }

  /** When only the non-negative demand in slot k can match anything, the scan
      makes at most one match: that demand with its first compatible supply. */
  lemma {:induction false} RescanServesOnly(ss: seq<Supply>, ds: seq<Demand>, k: nat, j: nat)
    requires j <= k < |ds|
    requires ds[k].amounts.NonNegative()
    requires forall l :: 0 <= l < |ds| && l != k ==> Unmatched(ss, ds[l])
    ensures FirstFit(ss, ds, j) == ServeOnly(ss, ds, k)
    ensures Quiescent(ServeOnly(ss, ds, k).supplies, ServeOnly(ss, ds, k).demands)
    decreases k - j
  {
    var r := ServeOnly(ss, ds, k);
    var i := FirstCompatible(ss, ds[k]);
    forall l, n | 0 <= l < |ds| && 0 <= n < |ss|
      ensures !Compatible(r.demands[l], r.supplies[n])
    {
      if i < |ss| && n == i && l != k && Compatible(ds[l], r.supplies[n]) {
        ResidualServesNoMore(ss[i], ds[k], ds[l]);
      }
    }
    if j < k {
      assert FirstCompatible(ss, ds[j]) == |ss|;
      RescanServesOnly(ss, ds, k, j + 1);
    } else {
      QuiescentScanIsIdle(r.supplies, r.demands, k + 1);
    }
  }

  // ---------- What the matches take and announce ----------

  function LiveSupply(r: Resource): Supply -> int {
    (s: Supply) => if s.client == FREE then 0 else s.amounts.Of(r)
  }

  function LiveDemand(r: Resource): Demand -> int {
    (d: Demand) => if d.client == FREE then 0 else d.amounts.Of(r)
  }

  /** The amount a notice says was delivered from a supply. */
  function DeliveredBy(r: Resource): Notice -> int {
    (n: Notice) => if n.message.Delivered? then n.message.wanted.Of(r) else 0
  }

  /** The amount a notice says a demand was fulfilled with. */
  function FulfilledBy(r: Resource): Notice -> int {
    (n: Notice) => if n.message.Fulfilled? then n.message.wanted.Of(r) else 0
  }

  lemma {:induction false} TotalFromFirstTwo(ns: seq<Notice>, weight: Notice -> int)
    requires |ns| >= 2 && forall i :: 2 <= i < |ns| ==> weight(ns[i]) == 0
    ensures Total(ns, weight) == weight(ns[0]) + weight(ns[1])
  {
    assert ns[1..][1..] == ns[2..];
    TotalOfWeightless(ns[2..], weight);
  }

  lemma {:induction false} NoticesOfOneMatch(m: Match, r: Resource)
    ensures Total(NoticesOf(m), DeliveredBy(r)) == m.demand.amounts.Of(r)
    ensures Total(NoticesOf(m), FulfilledBy(r)) == m.demand.amounts.Of(r)
  {
    TotalFromFirstTwo(NoticesOf(m), DeliveredBy(r));
    TotalFromFirstTwo(NoticesOf(m), FulfilledBy(r));
  }

  /** A scan neither creates nor destroys any resource: what leaves the tables is
      exactly what the delivery notices, and equally the fulfilment notices, say. */
  lemma {:induction false} ScanConserves(ss: seq<Supply>, ds: seq<Demand>, j: nat, r: Resource)
    requires j <= |ds|
    ensures var o := FirstFit(ss, ds, j); var ns := AllNotices(o.matches);
            && |o.supplies| == |ss| && |o.demands| == |ds|
            && Total(ss, LiveSupply(r)) == Total(o.supplies, LiveSupply(r)) + Total(ns, DeliveredBy(r))
            && Total(ds, LiveDemand(r)) == Total(o.demands, LiveDemand(r)) + Total(ns, FulfilledBy(r))
            && Total(ns, DeliveredBy(r)) == Total(ns, FulfilledBy(r))
    decreases |ds| - j
  {
    if j < |ds| {
      var i := FirstCompatible(ss, ds[j]);
      if i == |ss| {
        ScanConserves(ss, ds, j + 1, r);
      } else {
        var m := Match(j, i, ds[j], ss[i]);
        var ss', ds' := ss[i := Residual(ss[i], ds[j])], ds[j := NO_DEMAND];
        ScanConserves(ss', ds', j + 1, r);
        TotalOfUpdate(ss, LiveSupply(r), i, ss'[i]);
        TotalOfUpdate(ds, LiveDemand(r), j, NO_DEMAND);
        NoticesOfOneMatch(m, r);
        var rest := FirstFit(ss', ds', j + 1).matches;
        assert ([m] + rest)[1..] == rest;
        TotalOfConcat(NoticesOf(m), AllNotices(rest), DeliveredBy(r));
        TotalOfConcat(NoticesOf(m), AllNotices(rest), FulfilledBy(r));
      }
    }
  }

  /** The amount the matches took out of one supply slot. */
  function TakenFrom(ms: seq<Match>, slot: nat): Amounts {
    if ms == [] then ZERO
    else if ms[0].supplySlot != slot then TakenFrom(ms[1..], slot)
    else ms[0].demand.amounts.Plus(TakenFrom(ms[1..], slot))
  }

  /** One entry per match, in scan order: a demand slot occurs at most once, and
      its demand is the one the table held before the scan. */
  ghost predicate DemandsInSlotOrder(ds: seq<Demand>, ms: seq<Match>, j: nat) {
    && (forall n :: 0 <= n < |ms| ==> j <= ms[n].demandSlot < |ds| && ms[n].demand == ds[ms[n].demandSlot])
    && (forall n, o :: 0 <= n < o < |ms| ==> ms[n].demandSlot < ms[o].demandSlot)
  }

  ghost predicate FulfilledAt(ms: seq<Match>, slot: nat) {
    exists n :: 0 <= n < |ms| && ms[n].demandSlot == slot
  }

  lemma {:induction false} FulfilledByFirstOrRest(m: Match, rest: seq<Match>, slot: nat)
    ensures FulfilledAt([m] + rest, slot) <==> m.demandSlot == slot || FulfilledAt(rest, slot)
  {
    var ms := [m] + rest;
    assert ms[0].demandSlot == m.demandSlot;
    if FulfilledAt(rest, slot) {
      var n :| 0 <= n < |rest| && rest[n].demandSlot == slot;
      assert ms[n + 1].demandSlot == slot;
    }
    if m.demandSlot != slot && FulfilledAt(ms, slot) {
      var n :| 0 <= n < |ms| && ms[n].demandSlot == slot;
      assert rest[n - 1].demandSlot == slot;
    }
  }

  lemma {:induction false} SlotOrderOfFirstMatch(ds: seq<Demand>, m: Match, rest: seq<Match>)
    requires m.demandSlot < |ds| && m.demand == ds[m.demandSlot]
    requires DemandsInSlotOrder(ds[m.demandSlot := NO_DEMAND], rest, m.demandSlot + 1)
    ensures DemandsInSlotOrder(ds, [m] + rest, m.demandSlot)
  {
  }

  /** Each demand is fulfilled at most once and exactly the fulfilled ones are removed. */
  lemma {:induction false} ScanFulfilsOnce(ss: seq<Supply>, ds: seq<Demand>, j: nat)
    requires j <= |ds|
    ensures var r := FirstFit(ss, ds, j);
            && |r.demands| == |ds|
            && DemandsInSlotOrder(ds, r.matches, j)
            && forall l :: 0 <= l < |ds| ==>
                 r.demands[l] == if FulfilledAt(r.matches, l) then NO_DEMAND else ds[l]
    decreases |ds| - j
  {
    if j < |ds| {
      var i := FirstCompatible(ss, ds[j]);
      if i == |ss| {
        ScanFulfilsOnce(ss, ds, j + 1);
      } else {
        var ss', ds' := ss[i := Residual(ss[i], ds[j])], ds[j := NO_DEMAND];
        ScanFulfilsOnce(ss', ds', j + 1);
        var rest := FirstFit(ss', ds', j + 1).matches;
        SlotOrderOfFirstMatch(ds, Match(j, i, ds[j], ss[i]), rest);
        forall l: nat ensures FulfilledAt([Match(j, i, ds[j], ss[i])] + rest, l) <==> l == j || FulfilledAt(rest, l) {
          FulfilledByFirstOrRest(Match(j, i, ds[j], ss[i]), rest, l);
        }
      }
    }
  }

  /** How many matches were served from one supply slot. */
  function DeliveriesFrom(ms: seq<Match>, slot: nat): nat {
    if ms == [] then 0
    else (if ms[0].supplySlot == slot then 1 else 0) + DeliveriesFrom(ms[1..], slot)
  }

  lemma {:induction false} TakenByFirstAndRest(m: Match, rest: seq<Match>, slot: nat)
    ensures TakenFrom([m] + rest, slot)
            == if m.supplySlot == slot then m.demand.amounts.Plus(TakenFrom(rest, slot)) else TakenFrom(rest, slot)
    ensures DeliveriesFrom([m] + rest, slot) == DeliveriesFrom(rest, slot) + if m.supplySlot == slot then 1 else 0
  {
    assert ([m] + rest)[1..] == rest;
  }

  /** A free supply slot stays untouched. A live supply keeps its place, held before
      what it holds now plus what was delivered from it, and is removed exactly when
      its last delivery leaves nothing. */
  ghost predicate SupplyLedger(before: Supply, after: Supply, taken: Amounts, times: nat) {
    if before.client == FREE || times == 0 then
      after == before && times == 0 && taken == ZERO
    else
      if taken == before.amounts then after == NO_SUPPLY
      else after == before.(amounts := before.amounts.Minus(taken))
  }

  lemma {:induction false} LedgerOfFirstMatch(before: Supply, after: Supply, d: Demand, taken: Amounts, times: nat)
    requires before.client != FREE
    requires SupplyLedger(Residual(before, d), after, taken, times)
    ensures SupplyLedger(before, after, d.amounts.Plus(taken), times + 1)
  {
  }

  lemma {:induction false} ScanKeepsLedger(ss: seq<Supply>, ds: seq<Demand>, j: nat, slot: nat)
    requires j <= |ds| && slot < |ss|
    ensures var r := FirstFit(ss, ds, j);
            && |r.supplies| == |ss|
            && SupplyLedger(ss[slot], r.supplies[slot], TakenFrom(r.matches, slot), DeliveriesFrom(r.matches, slot))
    decreases |ds| - j
  {
    if j < |ds| {
      var i := FirstCompatible(ss, ds[j]);
      if i == |ss| {
        ScanKeepsLedger(ss, ds, j + 1, slot);
      } else {
        var ss', ds' := ss[i := Residual(ss[i], ds[j])], ds[j := NO_DEMAND];
        ScanKeepsLedger(ss', ds', j + 1, slot);
        var rest := FirstFit(ss', ds', j + 1).matches;
        TakenByFirstAndRest(Match(j, i, ds[j], ss[i]), rest, slot);
        if slot == i {
          LedgerOfFirstMatch(ss[slot], FirstFit(ss', ds', j + 1).supplies[slot], ds[j],
                             TakenFrom(rest, slot), DeliveriesFrom(rest, slot));
        }
      }
    }
  }

  /** A free slot counts as non-negative. */
  predicate HoldsNonNegative(s: Supply) {
    s.client != FREE ==> s.amounts.NonNegative()
  }

  lemma {:induction false} ServingLeavesNonNegative(s: Supply, d: Demand)
    requires Compatible(d, s)
    ensures HoldsNonNegative(Residual(s, d))
  {
  }

  /** A supply that was non-negative stays so, whatever is demanded of it, and one that
      has served any demand is non-negative afterwards. */
  lemma {:induction false} ScanLeavesNonNegative(ss: seq<Supply>, ds: seq<Demand>, j: nat, slot: nat)
    requires j <= |ds| && slot < |ss|
    ensures var r := FirstFit(ss, ds, j);
            && |r.supplies| == |ss|
            && (HoldsNonNegative(ss[slot]) || DeliveriesFrom(r.matches, slot) > 0 ==>
                  HoldsNonNegative(r.supplies[slot]))
    decreases |ds| - j
  {
    if j < |ds| {
      var i := FirstCompatible(ss, ds[j]);
      if i == |ss| {
        ScanLeavesNonNegative(ss, ds, j + 1, slot);
      } else {
        var ss', ds' := ss[i := Residual(ss[i], ds[j])], ds[j := NO_DEMAND];
        ServingLeavesNonNegative(ss[i], ds[j]);
        ScanLeavesNonNegative(ss', ds', j + 1, slot);
        TakenByFirstAndRest(Match(j, i, ds[j], ss[i]), FirstFit(ss', ds', j + 1).matches, slot);
      }
    }
  }
}
