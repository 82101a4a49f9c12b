/** Delivery in runs of the whole server: each client's ring is a bounded first-in
    first-out queue under whatever interleaving a run makes of enqueues and takes. */
module Delivery {
  import opened Resources
  import opened Matching
  import opened SharedState
  import opened NotificationRing
  import opened Server
  import opened ServerRuns
  import opened WatchTable

  predicate Joins(s: State, step: Step, c: nat) {
    step.Join? && s.pending == [] && c < |s.ends| && Register(s.memory, step.socket).1 == Some(c)
  }

  /** What a step does to the ring of client c. */
  function ActionsOf(s: State, step: Step, c: nat): seq<Action>
    requires c < |s.ends| && s.ends[c].ring.Valid()
  {
    var e := s.ends[c];
    if step.Deliver? && s.pending != [] && s.pending[0].client == c then [Put(s.pending[0].message)]
    else if step == Step.Take(c) && InPhase(s, c, Running) && e.inFlight == [] && e.ring.head != e.ring.tail
      then [Action.Take]
    else []
  }

  /** The enqueues and takes on the ring of client c since it joined, in the order the run
      made them. */
  function ActionsSinceJoin(z: Sizes, steps: seq<Step>, c: nat): seq<Action> {
    if steps == [] then []
    else
      var init, step := steps[..|steps| - 1], steps[|steps| - 1];
      var s := Run(Init(z), init);
      if Joins(s, step, c) then []
      else if c < |s.ends| && s.ends[c].ring.Valid() then ActionsSinceJoin(z, init, c) + ActionsOf(s, step, c)
      else ActionsSinceJoin(z, init, c)
  }

  function MessagesPut(actions: seq<Action>): seq<Message> {
    if actions == [] then []
    else if actions[0].Put? then [actions[0].message] + MessagesPut(actions[1..])
    else MessagesPut(actions[1..])
  }

  lemma {:induction false} PutsOneMore(actions: seq<Action>, a: Action)
    ensures MessagesPut(actions + [a]) == MessagesPut(actions) + if a.Put? then [a.message] else []
  {
    if actions == [] {
      assert [a][1..] == [];
    } else {
      assert (actions + [a])[1..] == actions[1..] + [a];
      PutsOneMore(actions[1..], a);
    }
  }

  lemma {:induction false} FifoOneMore(q: seq<Message>, capacity: int, actions: seq<Action>, a: Action)
    ensures var (out, q') := RunFifo(q, capacity, actions);
            var (more, last) := FifoStep(q', capacity, a);
            RunFifo(q, capacity, actions + [a]) == (out + more, last)
    decreases |actions|
  {
    if actions == [] {
      assert [a][1..] == [];
      var o := FifoStep(q, capacity, a);
      assert o.0 + [] == [] + o.0;
    } else {
      assert (actions + [a])[1..] == actions[1..] + [a];
      var (out, q') := FifoStep(q, capacity, actions[0]);
      FifoOneMore(q', capacity, actions[1..], a);
      var (rest, q'') := RunFifo(q', capacity, actions[1..]);
      assert out + (rest + FifoStep(q'', capacity, a).0) == (out + rest) + FifoStep(q'', capacity, a).0;
    }
  }

  /** The endpoint is where a bounded queue would be after these actions. */
  ghost predicate Tracks(e: Endpoint, size: nat, actions: seq<Action>) {
    && e.ring.Valid() && |e.ring.slots| == size
    && RunFifo([], size - 1, actions) == (e.sent + e.inFlight, e.ring.Queue())
    && MessagesPut(actions) == e.attempted
  }

  lemma {:induction false} EmptyTracks(e: Endpoint, size: nat)
    requires e.ring.Valid() && |e.ring.slots| == size && e.ring.head == e.ring.tail
    requires e.sent == e.inFlight == e.attempted == []
    ensures Tracks(e, size, [])
  {
    assert e.sent + e.inFlight == [];
  }

  lemma {:induction false} AttemptTracks(e: Endpoint, size: nat, actions: seq<Action>, m: Message)
    requires Tracks(e, size, actions)
    ensures Tracks(Attempt(e, m), size, actions + [Put(m)])
  {
    FifoOneMore([], size - 1, actions, Put(m));
    PutsOneMore(actions, Put(m));
    EnqueueAppends(e.ring, m);
    assert e.sent + e.inFlight + [] == e.sent + e.inFlight;
  }

  lemma {:induction false} TakeTracks(e: Endpoint, size: nat, actions: seq<Action>)
    requires Tracks(e, size, actions) && e.inFlight == [] && e.ring.head != e.ring.tail
    ensures Tracks(e.(ring := e.ring.Dequeue(), inFlight := [e.ring.slots[e.ring.tail]]), size, actions + [Action.Take])
  {
    FifoOneMore([], size - 1, actions, Action.Take);
    PutsOneMore(actions, Action.Take);
    DequeueTakesOldest(e.ring);
    assert e.sent + [] == e.sent;
  }

  lemma {:induction false} StepTracks(s: State, step: Step, c: nat, size: nat, actions: seq<Action>)
    requires c < |s.ends| && Tracks(s.ends[c], size, actions)
    ensures |Next(s, step).ends| == |s.ends|
    ensures Tracks(Next(s, step).ends[c], size, if Joins(s, step, c) then [] else actions + ActionsOf(s, step, c))
  {
    var e, t := s.ends[c], Next(s, step);
    assert actions + [] == actions;
    match step
    case Join(_) =>
      if Joins(s, step, c) {
        EmptyTracks(t.ends[c], size);
      }
    case Deliver =>
      if s.pending != [] && s.pending[0].client == c {
        AttemptTracks(e, size, actions, s.pending[0].message);
      }
    case Take(k) =>
      if t != s && k == c {
        TakeTracks(e, size, actions);
      }
    case Send(k) =>
      assert e.sent + e.inFlight + [] == e.sent + e.inFlight;
    case _ =>
  }

  /** In every run, what a client was sent, with what is being sent, and what it has queued
      are what a first-in first-out queue of one message less than the ring has slots would
      have passed on and kept, given the enqueues and takes the run made since the client
      joined; the messages enqueued are all it was to be told. */
  lemma {:induction false} RunsDeliverAsFifo(z: Sizes, steps: seq<Step>, c: nat)
    requires z.queue > 0 && c < z.clients
    ensures var s := Run(Init(z), steps);
            c < |s.ends| && Tracks(s.ends[c], z.queue, ActionsSinceJoin(z, steps, c))
  {
    if steps == [] {
      EmptyTracks(Init(z).ends[c], z.queue);
    } else {
      var init, step := steps[..|steps| - 1], steps[|steps| - 1];
      RunsDeliverAsFifo(z, init, c);
      StepTracks(Run(Init(z), init), step, c, z.queue, ActionsSinceJoin(z, init, c));
    }
  }

  /** Once nothing is pending, the messages enqueued for a present client are exactly what
      the log has for it since it joined. */
  lemma {:induction false} EnqueuedIsWhatWasToBeTold(z: Sizes, steps: seq<Step>, c: nat)
    requires 0 < z.queue && z.clients <= z.watches && c < z.clients
    requires var s := Run(Init(z), steps); |s.ends| > c && s.ends[c].phase != Vacant && s.pending == []
    ensures var s := Run(Init(z), steps); var since := s.ends[c].since;
            since <= |s.log| && MessagesPut(ActionsSinceJoin(z, steps, c)) == MessagesTo(s.log[since..], c)
  {
    RunsDeliverAsFifo(z, steps, c);
    RunsStaySound(z, steps);
    var s := Run(Init(z), steps);
    assert Informed(s, c);
    assert s.ends[c].attempted + [] == s.ends[c].attempted;
  }
}
