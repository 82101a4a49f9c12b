/** The shared memory in place: slot arrays searched and overwritten by the code that
    holds the global lock, each method proved against its meaning on values. The calls
    of enqueue_notification made under the lock are collected, in order, in outbox. */
module SharedMemory {
  import opened Resources
  import opened Matching
  import opened SharedState

  class SharedMemory {
    const supplies: array<Supply>
    const demands: array<Demand>
    const watches: array<Watch>
    const clients: array<Client>
    var outbox: seq<Notice>

    ghost function Value(): Memory
      reads this, supplies, demands, watches, clients
    {
      Memory(supplies[..], demands[..], watches[..], clients[..])
    }

    constructor (maxSupply: nat, maxDemand: nat, maxWatch: nat, maxClients: nat)
      ensures fresh(supplies) && fresh(demands) && fresh(watches) && fresh(clients)
      ensures Value() == EmptyMemory(maxSupply, maxDemand, maxWatch, maxClients) && outbox == []
      ensures WellOwned(Value()) && Quiet(Value())
    {
      supplies := new Supply[maxSupply](_ => NO_SUPPLY);
      demands := new Demand[maxDemand](_ => NO_DEMAND);
      watches := new Watch[maxWatch](_ => Watch(0, 0, FREE, 0));
      clients := new Client[maxClients](_ => Client(FREE, FREE, 0, 0));
      outbox := [];
    }

    method RegisterClient(socket: int) returns (id: Option<nat>)
      modifies clients
      ensures (Value(), id) == Register(old(Value()), socket)
    {
      for i := 0 to clients.Length
        invariant forall k :: 0 <= k < i ==> clients[k].socket != FREE
        invariant clients[..] == old(clients[..])
      {
        if clients[i].socket == FREE {
          assert FreeClient(clients[..]) == i;
          clients[i] := Client(i, socket, 0, 0);
          return Some(i);
        }
      }
      return None;
    }

    method RemoveClientResources(c: nat)
      requires c < clients.Length
      modifies supplies, demands, watches, clients
      ensures Value() == RemoveClient(old(Value()), c)
    {
      for i := 0 to supplies.Length
        invariant forall k :: 0 <= k < i ==> supplies[k] == WithoutSupplies(old(supplies[..]), c)[k]
        invariant forall k :: i <= k < supplies.Length ==> supplies[k] == old(supplies[k])
        modifies supplies
      {
        if supplies[i].client == c {
          RemoveSupply(i);
        }
      }
      assert supplies[..] == WithoutSupplies(old(supplies[..]), c);
      for j := 0 to demands.Length
        invariant forall k :: 0 <= k < j ==> demands[k] == WithoutDemands(old(demands[..]), c)[k]
        invariant forall k :: j <= k < demands.Length ==> demands[k] == old(demands[k])
        modifies demands
      {
        if demands[j].client == c {
          RemoveDemand(j);
        }
      }
      assert demands[..] == WithoutDemands(old(demands[..]), c);
      RemoveWatch(c);
      clients[c] := clients[c].(socket := FREE, id := FREE);
    }

    method AddNewDemand(c: nat, wanted: Amounts)
      requires c < clients.Length
      modifies demands
      ensures Value() == PlaceDemand(old(Value()), c, wanted)
    {
      for j := 0 to demands.Length
        invariant forall k :: 0 <= k < j ==> demands[k].client != FREE
        invariant demands[..] == old(demands[..])
      {
        if demands[j].client == FREE {
          assert FreeDemand(demands[..]) == j;
          demands[j] := Demand(clients[c].x, clients[c].y, wanted, c);
          return;
        }
      }
    }

    method AddNewSupply(c: nat, distance: int, offered: Amounts) returns (slot: int)
      requires c < clients.Length
      modifies supplies
      ensures Value() == PlaceSupply(old(Value()), c, distance, offered)
      ensures var i := FreeSupply(old(supplies[..])); slot == if i == supplies.Length then -1 else i
    {
      for i := 0 to supplies.Length
        invariant forall k :: 0 <= k < i ==> supplies[k].client != FREE
        invariant supplies[..] == old(supplies[..])
      {
        if supplies[i].client == FREE {
          assert FreeSupply(supplies[..]) == i;
          supplies[i] := Supply(clients[c].x, clients[c].y, offered, distance, c);
          return i;
        }
      }
      return -1;
    }

    method RemoveWatch(c: nat)
      modifies watches
      ensures watches[..] == WithoutWatches(old(watches[..]), c)
    {
      for i := 0 to watches.Length
        invariant forall k :: 0 <= k < i ==> watches[k] == WithoutWatches(old(watches[..]), c)[k]
        invariant forall k :: i <= k < watches.Length ==> watches[k] == old(watches[k])
      {
        if watches[i].client == c {
          watches[i] := watches[i].(client := FREE, radius := 0);
        }
      }
    }

    method AddNewWatch(c: nat, radius: int)
      requires c < clients.Length
      modifies watches
      ensures Value() == PlaceWatch(old(Value()), c, radius)
    {
      RemoveWatch(c);
      ghost var cleared := watches[..];
      for i := 0 to watches.Length
        invariant forall k :: 0 <= k < i ==> watches[k].client != FREE
        invariant watches[..] == cleared
      {
        if watches[i].client == FREE {
          assert FreeWatch(cleared) == i;
          watches[i] := Watch(clients[c].x, clients[c].y, c, radius);
          return;
        }
      }
    }

    method MoveClient(c: nat, x: int, y: int)
      requires c < clients.Length
      modifies clients
      ensures Value() == Execute(old(Value()), c, MoveTo(x, y)).memory
    {
      clients[c] := clients[c].(x := x, y := y);
    }

    method RemoveSupply(i: nat)
      requires i < supplies.Length
      modifies supplies
      ensures supplies[..] == old(supplies[..])[i := NO_SUPPLY]
    {
      supplies[i] := NO_SUPPLY;
    }

    method RemoveDemand(j: nat)
      requires j < demands.Length
      modifies demands
      ensures demands[..] == old(demands[..])[j := NO_DEMAND]
    {
      demands[j] := NO_DEMAND;
    }

    method CheckCaseMatch(j: nat, i: nat) returns (matches: bool)
      requires j < demands.Length && i < supplies.Length
      ensures matches <==> Compatible(demands[j], supplies[i])
      ensures var d, s := demands[j], supplies[i];
              matches <==>
              && d.client != -1 && s.client != -1
              && (d.x - s.x) + (d.y - s.y) < s.distance && (d.x - s.x) - (d.y - s.y) < s.distance
              && -(d.x - s.x) + (d.y - s.y) < s.distance && -(d.x - s.x) - (d.y - s.y) < s.distance
              && s.amounts.a >= d.amounts.a && s.amounts.b >= d.amounts.b && s.amounts.c >= d.amounts.c
    {
      CompatibleInCoordinates(demands[j], supplies[i]);
      var s, d := supplies[i], demands[j];
      if d.client == FREE || s.client == FREE {
        return false;
      }
      return Manhattan(d.x, d.y, s.x, s.y) < s.distance && s.amounts.Covers(d.amounts);
    }

    method MatchDemandAndSupply(j: nat, i: nat)
      requires j < demands.Length && i < supplies.Length
      modifies supplies, demands, this`outbox
      ensures supplies[..] == old(supplies[..])[i := Residual(old(supplies[i]), old(demands[j]))]
      ensures demands[..] == old(demands[..])[j := NO_DEMAND]
      ensures outbox == old(outbox) + NoticesToLive(Match(j, i, old(demands[j]), old(supplies[i])))
      ensures var d, s := old(demands[j]), old(supplies[i]);
              d.client != FREE && s.client != FREE ==>
                outbox == old(outbox)
                          + [Notice(d.client, Fulfilled(d.x, d.y, d.amounts, s.x, s.y)),
                             Notice(s.client, Delivered(s.x, s.y, s.amounts, s.distance, d.x, d.y, d.amounts))]
                          + if s.amounts.a - d.amounts.a == 0 && s.amounts.b - d.amounts.b == 0
                               && s.amounts.c - d.amounts.c == 0
                            then [Notice(s.client, Exhausted)] else []
    {
      var d, s := demands[j], supplies[i];
      if d.client != FREE {
        outbox := outbox + [Notice(d.client, Fulfilled(d.x, d.y, d.amounts, s.x, s.y))];
      }
      if s.client != FREE {
        outbox := outbox + [Notice(s.client, Delivered(s.x, s.y, s.amounts, s.distance, d.x, d.y, d.amounts))];
      }
      supplies[i] := s.(amounts := s.amounts.Minus(d.amounts));
      RemoveDemand(j);
      if supplies[i].amounts == ZERO {
        if supplies[i].client != FREE {
          outbox := outbox + [Notice(supplies[i].client, Exhausted)];
        }
        RemoveSupply(i);
      }
    }

    /** The inner loop of the scan: demand j against every supply slot. Only the first
        compatible one is taken, because a served demand matches nothing any more. */
    method OfferToSupplies(j: nat)
      requires j < demands.Length
      modifies supplies, demands, this`outbox
      ensures var d, ss := old(demands[j]), old(supplies[..]);
              var first := FirstCompatible(ss, d);
              if first == |ss| then supplies[..] == ss && demands[..] == old(demands[..]) && outbox == old(outbox)
              else
                && supplies[..] == ss[first := Residual(ss[first], d)]
                && demands[..] == old(demands[..])[j := NO_DEMAND]
                && outbox == old(outbox) + NoticesOf(Match(j, first, d, ss[first]))
    {
      ghost var d, ss := demands[j], supplies[..];
      ghost var first := FirstCompatible(ss, d);
      for i := 0 to supplies.Length
        invariant i <= first ==> supplies[..] == ss && demands[..] == old(demands[..]) && outbox == old(outbox)
        invariant first < i ==>
                    && supplies[..] == ss[first := Residual(ss[first], d)]
                    && demands[..] == old(demands[..])[j := NO_DEMAND]
                    && outbox == old(outbox) + NoticesOf(Match(j, first, d, ss[first]))
      {
        if supplies[i].client != FREE {
          var compatible := CheckCaseMatch(j, i);
          if compatible {
            assert i == first;
            BothSidesAreTold(Match(j, i, d, ss[i]));
            MatchDemandAndSupply(j, i);
          }
        }
      }
    }

    /** The scan of every demand against every supply is first-fit allocation. */
    method CheckForMatch()
      modifies supplies, demands, this`outbox
      ensures Value() == Scan(old(Value())).memory
      ensures outbox == old(outbox) + Scan(old(Value())).notices
    {
      ghost var goal := FirstFit(supplies[..], demands[..], 0);
      ghost var ss, ds, done: seq<Match> := supplies[..], demands[..], [];
      for j := 0 to demands.Length
        invariant supplies[..] == ss && demands[..] == ds
        invariant outbox == old(outbox) + AllNotices(done)
        invariant goal == Resumed(done, FirstFit(ss, ds, j))
      {
        ScanAdvances(done, ss, ds, j);
        if demands[j].client != FREE {
          OfferToSupplies(j);
        }
        ghost var first := FirstCompatible(ss, ds[j]);
        if first < |ss| {
          done := done + [Match(j, first, ds[j], ss[first])];
          ss, ds := ss[first := Residual(ss[first], ds[j])], ds[j := NO_DEMAND];
        }
      }
      assert done + [] == done;
    }

    method CheckForWatchEventsOnNewSupply(slot: nat)
      requires slot < supplies.Length
      modifies this`outbox
      ensures outbox == old(outbox) + InsertionNotices(Value(), slot)
    {
      var s := supplies[slot];
      if s.client == FREE {
        return;
      }
      ghost var all := WatchNotices(watches[..], s);
      for i := 0 to watches.Length
        invariant outbox + WatchNotices(watches[i..], s) == old(outbox) + all
      {
        assert watches[i..][1..] == watches[i + 1..];
        var w := watches[i];
        if w.client != FREE && w.radius > 0 {
          var distance := Manhattan(w.x, w.y, s.x, s.y);
          if distance <= w.radius {
            var n := Notice(w.client, Inserted(s.amounts, s.x, s.y));
            assert outbox + ([n] + WatchNotices(watches[i + 1..], s))
                   == (outbox + [n]) + WatchNotices(watches[i + 1..], s);
            outbox := outbox + [n];
          }
        }
      }
    }

    /** One command, as the command thread runs it while it holds the global lock. */
    method Handle(c: nat, command: Command)
      requires c < clients.Length
      modifies this`outbox, supplies, demands, watches, clients
      ensures Value() == Execute(old(Value()), c, command).memory
      ensures outbox == old(outbox) + Execute(old(Value()), c, command).notices
    {
      match command
      case MoveTo(x, y) => MoveClient(c, x, y);
      case PutDemand(wanted) =>
        AddNewDemand(c, wanted);
        CheckForMatch();
      case PutSupply(distance, offered) =>
        var slot := AddNewSupply(c, distance, offered);
        CheckForMatch();
        if slot != -1 {
          CheckForWatchEventsOnNewSupply(slot);
        }
      case PutWatch(radius) => AddNewWatch(c, radius);
      case DropWatch => RemoveWatch(c);
      case Inspect =>
    }
  }

  /** The notices of a match to whichever side belongs to a client. */
  function NoticesToLive(m: Match): seq<Notice> {
    var all := NoticesOf(m);
    (if m.demand.client == FREE then [] else all[..1]) + (if m.supply.client == FREE then [] else all[1..])
  }

  lemma {:induction false} BothSidesAreTold(m: Match)
    requires m.demand.client != FREE && m.supply.client != FREE
    ensures NoticesToLive(m) == NoticesOf(m)
  {
  }

  /** The outcome of a scan that had already made some matches when it reached `rest`. */
  ghost function Resumed(done: seq<Match>, rest: Outcome): Outcome {
    rest.(matches := done + rest.matches)
  }

  lemma {:induction false} ScanAdvances(done: seq<Match>, ss: seq<Supply>, ds: seq<Demand>, j: nat)
    requires j < |ds|
    ensures var i := FirstCompatible(ss, ds[j]);
            if i == |ss| then Resumed(done, FirstFit(ss, ds, j)) == Resumed(done, FirstFit(ss, ds, j + 1))
            else
              var m := Match(j, i, ds[j], ss[i]);
              && Resumed(done, FirstFit(ss, ds, j))
                 == Resumed(done + [m], FirstFit(ss[i := Residual(ss[i], ds[j])], ds[j := NO_DEMAND], j + 1))
              && AllNotices(done + [m]) == AllNotices(done) + NoticesOf(m)
  {
    var i := FirstCompatible(ss, ds[j]);
    if i < |ss| {
      var m := Match(j, i, ds[j], ss[i]);
      var rest := FirstFit(ss[i := Residual(ss[i], ds[j])], ds[j := NO_DEMAND], j + 1);
      assert done + ([m] + rest.matches) == (done + [m]) + rest.matches;
      AllNoticesConcat(done, [m]);
      assert [m][1..] == [];
      assert AllNotices([m]) == NoticesOf(m) + [];
    }
  }
}
