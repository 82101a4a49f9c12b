/** Which demands keep every run of the server quiet. */
module QuietRuns {
  import opened Resources
  import opened Matching
  import opened SharedState
  import opened Server
  import opened ServerRuns

  /** No demand asks for a negative amount, unless it asks for exactly `wanted`. */
  ghost predicate AsksNothingElse(steps: seq<Step>, wanted: Amounts) {
    forall n :: 0 <= n < |steps| ==>
      AsksNonNegative(steps[n]) || (steps[n].Issue? && steps[n].command == PutDemand(wanted))
  }

  ghost predicate EveryRunQuiet(z: Sizes, wanted: Amounts) {
    forall steps: seq<Step> :: AsksNothingElse(steps, wanted) ==> Quiet(Run(Init(z), steps).memory)
  }

  /** One client asks for more than it then offers. */
  function Setup(wanted: Amounts): seq<Step> {
    [Join(0), Issue(0, PutDemand(Held(wanted).Minus(wanted))), Issue(0, PutSupply(1, Held(wanted)))]
  }

  ghost predicate Idle(s: State, m: Memory) {
    s.memory == m && s.pending == [] && InPhase(s, 0, Running)
  }

  function Blank(z: Sizes): Memory {
    Init(z).memory.(clients := seq(z.clients, i => if i == 0 then Client(0, 0, 0, 0) else Client(FREE, FREE, 0, 0)))
  }

  function Asking(z: Sizes, d: Demand): Memory {
    Blank(z).(demands := seq(z.demands, j => if j == 0 then d else NO_DEMAND))
  }

  lemma {:induction false} FirstClientJoins(z: Sizes)
    requires z.clients >= 1
    ensures Idle(Next(Init(z), Join(0)), Blank(z))
  {
    assert FreeClient(Init(z).memory.clients) == 0;
    assert Init(z).memory.clients[0 := Client(0, 0, 0, 0)] == Blank(z).clients;
  }

  lemma {:induction false} FirstDemandWaits(z: Sizes, s: State, asked: Amounts)
    requires z.clients >= 1 && z.demands >= 1 && Idle(s, Blank(z))
    ensures Idle(Next(s, Issue(0, PutDemand(asked))), Asking(z, Demand(0, 0, asked, 0)))
  {
    var d := Demand(0, 0, asked, 0);
    assert FreeDemand(s.memory.demands) == 0;
    assert s.memory.demands[0 := d] == Asking(z, d).demands;
    QuiescentScanIsIdle(s.memory.supplies, Asking(z, d).demands, 0);
    assert PlaceDemand(s.memory, 0, asked) == Asking(z, d);
  }

  lemma {:induction false} FirstSupplyWaits(z: Sizes, s: State, wanted: Amounts)
    requires z.clients >= 1 && z.demands >= 1 && z.supplies >= 1 && !wanted.NonNegative()
    requires Idle(s, Asking(z, Demand(0, 0, Held(wanted).Minus(wanted), 0)))
    ensures Idle(Next(s, Issue(0, PutSupply(1, Held(wanted)))),
                 Disturbable(wanted, z.supplies, z.demands, z.watches, z.clients))
  {
    var m := Disturbable(wanted, z.supplies, z.demands, z.watches, z.clients);
    var offer := Supply(0, 0, Held(wanted), 1, 0);
    assert FreeSupply(s.memory.supplies) == 0;
    assert s.memory.supplies[0 := offer] == m.supplies;
    assert s.memory.demands == m.demands;
    QuiescentScanIsIdle(m.supplies, m.demands, 0);
    assert PlaceSupply(s.memory, 0, 1, Held(wanted)) == m;
    NobodyWatches(m.watches, offer);
  }

  lemma {:induction false} NobodyWatches(ws: seq<Watch>, s: Supply)
    requires forall i :: 0 <= i < |ws| ==> ws[i].client == FREE
    ensures WatchNotices(ws, s) == []
  {
    if ws != [] {
      NobodyWatches(ws[1..], s);
    }
  }

  lemma {:induction false} SetupRuns(z: Sizes, wanted: Amounts)
    requires z.clients >= 1 && z.demands >= 2 && z.supplies >= 1 && !wanted.NonNegative()
    ensures Idle(Run(Init(z), Setup(wanted)), Disturbable(wanted, z.supplies, z.demands, z.watches, z.clients))
  {
    var steps := Setup(wanted);
    assert Run(Init(z), []) == Init(z);
    assert [] + [steps[0]] == [steps[0]] && [steps[0]] + [steps[1]] == [steps[0], steps[1]];
    assert [steps[0], steps[1]] + [steps[2]] == steps;
    RunOneMore(Init(z), [], steps[0]);
    RunOneMore(Init(z), [steps[0]], steps[1]);
    RunOneMore(Init(z), [steps[0], steps[1]], steps[2]);
    FirstClientJoins(z);
    FirstDemandWaits(z, Run(Init(z), [steps[0]]), Held(wanted).Minus(wanted));
    FirstSupplyWaits(z, Run(Init(z), [steps[0], steps[1]]), wanted);
  }

  lemma {:induction false} SetupAsksNothingElse(wanted: Amounts)
    ensures AsksNothingElse(Setup(wanted) + [Issue(0, PutDemand(wanted))], wanted)
  {
    var steps := Setup(wanted);
    assert AsksNonNegative(steps[0]) && AsksNonNegative(steps[1]) && AsksNonNegative(steps[2]);
  }

  lemma {:induction false} NegativeDemandDisturbsIdle(z: Sizes, s: State, wanted: Amounts)
    requires z.clients >= 1 && z.demands >= 2 && z.supplies >= 1 && !wanted.NonNegative()
    requires Idle(s, Disturbable(wanted, z.supplies, z.demands, z.watches, z.clients))
    ensures !Quiet(Next(s, Issue(0, PutDemand(wanted))).memory)
  {
    NegativeDemandDisturbs(wanted, z.supplies, z.demands, z.watches, z.clients);
  }

  lemma {:induction false} NegativeDemandDisturbsARun(z: Sizes, wanted: Amounts)
    requires z.clients >= 1 && z.demands >= 2 && z.supplies >= 1 && !wanted.NonNegative()
    ensures !EveryRunQuiet(z, wanted)
  {
    var last := Issue(0, PutDemand(wanted));
    SetupRuns(z, wanted);
    NegativeDemandDisturbsIdle(z, Run(Init(z), Setup(wanted)), wanted);
    RunOneMore(Init(z), Setup(wanted), last);
    SetupAsksNothingElse(wanted);
  }

  /** Beside non-negative demands, a demand may be issued anywhere in every run without
      ever leaving a match undone if and only if none of its amounts is negative. */
  lemma {:induction false} RunsQuietExactlyForNonNegativeDemands(z: Sizes, wanted: Amounts)
    requires z.clients >= 1 && z.demands >= 2 && z.supplies >= 1
    ensures EveryRunQuiet(z, wanted) <==> wanted.NonNegative()
  {
    if wanted.NonNegative() {
      forall steps: seq<Step> | AsksNothingElse(steps, wanted)
        ensures Quiet(Run(Init(z), steps).memory)
      {
        RunsStayQuiet(z, steps);
      }
    } else {
      NegativeDemandDisturbsARun(z, wanted);
    }
  }
}
