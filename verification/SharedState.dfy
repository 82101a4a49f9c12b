/** The server's shared memory as a value, and what each command does to it. */
module SharedState {
  import opened Resources
  import opened Matching

  datatype Watch = Watch(x: int, y: int, client: int, radius: int)

  /** A client slot is free when its id, and with it its socket, is FREE. */
  datatype Client = Client(id: int, socket: int, x: int, y: int)

  datatype Memory = Memory(
    supplies: seq<Supply>, demands: seq<Demand>, watches: seq<Watch>, clients: seq<Client>)

  /** Tables of these sizes with nothing in them. */
  function EmptyMemory(supplies: nat, demands: nat, watches: nat, clients: nat): Memory {
    Memory(seq(supplies, _ => NO_SUPPLY), seq(demands, _ => NO_DEMAND),
           seq(watches, _ => Watch(0, 0, FREE, 0)), seq(clients, _ => Client(FREE, FREE, 0, 0)))
  }

  // ---------- Finding a slot ----------

  function FreeSupply(ss: seq<Supply>): (r: nat)
    ensures r <= |ss| && (r < |ss| ==> ss[r].client == FREE)
    ensures forall i :: 0 <= i < r ==> ss[i].client != FREE
  {
    FirstWhere(ss, (s: Supply) => s.client == FREE)
  }

  function FreeDemand(ds: seq<Demand>): (r: nat)
    ensures r <= |ds| && (r < |ds| ==> ds[r].client == FREE)
    ensures forall j :: 0 <= j < r ==> ds[j].client != FREE
  {
    FirstWhere(ds, (d: Demand) => d.client == FREE)
  }

  function FreeWatch(ws: seq<Watch>): (r: nat)
    ensures r <= |ws| && (r < |ws| ==> ws[r].client == FREE)
    ensures forall i :: 0 <= i < r ==> ws[i].client != FREE
  {
    FirstWhere(ws, (w: Watch) => w.client == FREE)
  }

  function FreeClient(cs: seq<Client>): (r: nat)
    ensures r <= |cs| && (r < |cs| ==> cs[r].socket == FREE)
    ensures forall i :: 0 <= i < r ==> cs[i].socket != FREE
  {
    FirstWhere(cs, (c: Client) => c.socket == FREE)
  }

  // ---------- Registration and removal of a client ----------

  function Register(m: Memory, socket: int): (Memory, Option<nat>) {
    var i := FreeClient(m.clients);
    if i == |m.clients| then (m, None)
    else (m.(clients := m.clients[i := Client(i, socket, 0, 0)]), Some(i))
  }

  function WithoutSupplies(ss: seq<Supply>, c: int): seq<Supply> {
    seq(|ss|, i requires 0 <= i < |ss| => if ss[i].client == c then NO_SUPPLY else ss[i])
  }

  function WithoutDemands(ds: seq<Demand>, c: int): seq<Demand> {
    seq(|ds|, j requires 0 <= j < |ds| => if ds[j].client == c then NO_DEMAND else ds[j])
  }

  function WithoutWatches(ws: seq<Watch>, c: int): seq<Watch> {
    seq(|ws|, i requires 0 <= i < |ws| =>
      if ws[i].client == c then ws[i].(client := FREE, radius := 0) else ws[i])
  }

  function RemoveClient(m: Memory, c: nat): Memory
    requires c < |m.clients|
  {
    Memory(WithoutSupplies(m.supplies, c), WithoutDemands(m.demands, c), WithoutWatches(m.watches, c),
           m.clients[c := m.clients[c].(socket := FREE, id := FREE)])
  }

  // ---------- Commands ----------

  datatype Command =
    | MoveTo(x: int, y: int)
    | PutDemand(wanted: Amounts)
    | PutSupply(distance: int, offered: Amounts)
    | PutWatch(radius: int)
    | DropWatch
    | Inspect  // listsupplies, listdemands, mysupplies, mydemands: nothing changes

  /** The memory after a command, and the notices it asked to enqueue, in order. */
  datatype Effect = Effect(memory: Memory, notices: seq<Notice>)

  function PlaceDemand(m: Memory, c: nat, wanted: Amounts): Memory
    requires c < |m.clients|
  {
    var j := FreeDemand(m.demands);
    if j == |m.demands| then m
    else m.(demands := m.demands[j := Demand(m.clients[c].x, m.clients[c].y, wanted, c)])
  }

  function PlaceSupply(m: Memory, c: nat, distance: int, offered: Amounts): Memory
    requires c < |m.clients|
  {
    var i := FreeSupply(m.supplies);
    if i == |m.supplies| then m
    else m.(supplies := m.supplies[i := Supply(m.clients[c].x, m.clients[c].y, offered, distance, c)])
  }

  function PlaceWatch(m: Memory, c: nat, radius: int): Memory
    requires c < |m.clients|
  {
    var ws := WithoutWatches(m.watches, c);
    var i := FreeWatch(ws);
    m.(watches := if i == |ws| then ws else ws[i := Watch(m.clients[c].x, m.clients[c].y, c, radius)])
  }

  function Scan(m: Memory): Effect {
    var r := FirstFit(m.supplies, m.demands, 0);
    Effect(m.(supplies := r.supplies, demands := r.demands), AllNotices(r.matches))
  }

  predicate Watching(w: Watch, s: Supply) {
    w.client != FREE && w.radius > 0 && Manhattan(w.x, w.y, s.x, s.y) <= w.radius
  }

  function WatchNotices(ws: seq<Watch>, s: Supply): seq<Notice> {
    if ws == [] then []
    else if !Watching(ws[0], s) then WatchNotices(ws[1..], s)
    else [Notice(ws[0].client, Inserted(s.amounts, s.x, s.y))] + WatchNotices(ws[1..], s)
  }

  function InsertionNotices(m: Memory, slot: nat): seq<Notice>
    requires slot < |m.supplies|
  {
    if m.supplies[slot].client == FREE then [] else WatchNotices(m.watches, m.supplies[slot])
  }

  function SupplyCommand(m: Memory, c: nat, distance: int, offered: Amounts): Effect
    requires c < |m.clients|
  {
    var slot := FreeSupply(m.supplies);
    var scanned := Scan(PlaceSupply(m, c, distance, offered));
    if slot < |scanned.memory.supplies| then
      scanned.(notices := scanned.notices + InsertionNotices(scanned.memory, slot))
    else scanned
  }

  function Execute(m: Memory, c: nat, command: Command): Effect
    requires c < |m.clients|
  {
    match command
    case MoveTo(x, y) => Effect(m.(clients := m.clients[c := m.clients[c].(x := x, y := y)]), [])
    case PutDemand(wanted) => Scan(PlaceDemand(m, c, wanted))
    case PutSupply(distance, offered) => SupplyCommand(m, c, distance, offered)
    case PutWatch(radius) => Effect(PlaceWatch(m, c, radius), [])
    case DropWatch => Effect(m.(watches := WithoutWatches(m.watches, c)), [])
    case Inspect => Effect(m, [])
  }

  // ---------- Ownership ----------

  predicate Registered(m: Memory, c: int) {
    0 <= c < |m.clients| && m.clients[c].id != FREE
  }

  ghost predicate WatchesUnique(ws: seq<Watch>) {
    forall i, k :: 0 <= i < k < |ws| && ws[i].client != FREE ==> ws[i].client != ws[k].client
  }

  /** Every live entry belongs to a registered client, which has at most one watch. */
  ghost predicate WellOwned(m: Memory) {
    && (forall c :: 0 <= c < |m.clients| ==>
          (m.clients[c].id == FREE || m.clients[c].id == c)
          && (m.clients[c].id == FREE <==> m.clients[c].socket == FREE))
    && (forall i :: 0 <= i < |m.supplies| && m.supplies[i].client != FREE ==> Registered(m, m.supplies[i].client))
    && (forall j :: 0 <= j < |m.demands| && m.demands[j].client != FREE ==> Registered(m, m.demands[j].client))
    && (forall i :: 0 <= i < |m.watches| && m.watches[i].client != FREE ==> Registered(m, m.watches[i].client))
    && WatchesUnique(m.watches)
  }

  ghost predicate Quiet(m: Memory) {
    Quiescent(m.supplies, m.demands)
  }

  // ---------- Incremental meaning of the two matching commands ----------

  /** In a quiet memory a demand command matches nothing but the new demand, once,
      with the lowest-numbered compatible supply; a full table ignores it. */
  lemma {:induction false} DemandCommandServesNewDemand(m: Memory, c: nat, wanted: Amounts)
    requires c < |m.clients| && Quiet(m) && wanted.NonNegative()
    ensures var e := Execute(m, c, PutDemand(wanted));
            var j := FreeDemand(m.demands);
            if j == |m.demands| then e == Effect(m, [])
            else
              var d := Demand(m.clients[c].x, m.clients[c].y, wanted, c);
              var i := FirstCompatible(m.supplies, d);
              e == if i == |m.supplies| then Effect(m.(demands := m.demands[j := d]), [])
                   else Effect(m.(supplies := m.supplies[i := Residual(m.supplies[i], d)],
                                  demands := m.demands[j := NO_DEMAND]),
                               NoticesOf(Match(j, i, d, m.supplies[i])))
    ensures Quiet(Execute(m, c, PutDemand(wanted)).memory)
  {
    var j := FreeDemand(m.demands);
    if j == |m.demands| {
      QuiescentScanIsIdle(m.supplies, m.demands, 0);
    } else {
      var d := Demand(m.clients[c].x, m.clients[c].y, wanted, c);
      var ds := m.demands[j := d];
      RescanServesOnly(m.supplies, ds, j, 0);
      assert ds[j := NO_DEMAND] == m.demands[j := NO_DEMAND];
      var ms := FirstFit(m.supplies, ds, 0).matches;
      if ms != [] {
        assert ms[1..] == [];
        assert AllNotices(ms) == NoticesOf(ms[0]);
      }
    }
  }

  /** In a quiet memory a supply command is one pass of the demands against the new
      supply; only what survives that pass is announced to the watchers. */
  lemma {:induction false} SupplyCommandOffersNewSupply(m: Memory, c: nat, distance: int, offered: Amounts)
    requires c < |m.clients| && Quiet(m)
    ensures var e := Execute(m, c, PutSupply(distance, offered));
            var k := FreeSupply(m.supplies);
            if k == |m.supplies| then e == Effect(m, [])
            else
              var p := PassAgainst(Supply(m.clients[c].x, m.clients[c].y, offered, distance, c), k, m.demands, 0);
              && e.memory == m.(supplies := m.supplies[k := p.supply], demands := p.demands)
              && e.notices == AllNotices(p.matches)
                              + if p.supply.client == FREE then [] else WatchNotices(m.watches, p.supply)
  {
    var k := FreeSupply(m.supplies);
    if k == |m.supplies| {
      QuiescentScanIsIdle(m.supplies, m.demands, 0);
    } else {
      var s := Supply(m.clients[c].x, m.clients[c].y, offered, distance, c);
      var ss := m.supplies[k := s];
      RescanIsOnePass(ss, k, m.demands, 0);
      var p := PassAgainst(s, k, m.demands, 0);
      assert ss[k := p.supply] == m.supplies[k := p.supply];
    }
  }

  lemma {:induction false} SupplyCommandKeepsQuiet(m: Memory, c: nat, distance: int, offered: Amounts)
    requires c < |m.clients| && DemandsNonNegative(m.demands)
    ensures Quiet(Execute(m, c, PutSupply(distance, offered)).memory)
  {
    ScanReachesQuiescence(PlaceSupply(m, c, distance, offered).supplies, m.demands, 0);
  }

  // ---------- Exactly which demands keep the memory quiet ----------

  ghost predicate Sized(m: Memory, supplies: nat, demands: nat, watches: nat, clients: nat) {
    |m.supplies| == supplies && |m.demands| == demands && |m.watches| == watches && |m.clients| == clients
  }

  /** A well-formed quiet memory stays quiet under this demand command. */
  ghost predicate StaysQuiet(m: Memory, c: nat, wanted: Amounts) {
    && Registered(m, c) && WellOwned(m) && DemandsNonNegative(m.demands) && Quiet(m)
    ==> Quiet(Execute(m, c, PutDemand(wanted)).memory)
  }

  function PositivePart(n: int): nat { if n < 0 then 0 else n }

  function Held(wanted: Amounts): Amounts {
    Amounts(PositivePart(wanted.a), PositivePart(wanted.b), PositivePart(wanted.c))
  }

  /** A quiet memory that a demand with a negative amount disturbs: the new demand
      enlarges the only supply until it covers the older demand in slot 0. */
  function Disturbable(wanted: Amounts, supplies: nat, demands: nat, watches: nat, clients: nat): Memory {
    Memory(
      seq(supplies, i => if i == 0 then Supply(0, 0, Held(wanted), 1, 0) else NO_SUPPLY),
      seq(demands, j => if j == 0 then Demand(0, 0, Held(wanted).Minus(wanted), 0) else NO_DEMAND),
      seq(watches, _ => Watch(0, 0, FREE, 0)),
      seq(clients, i => if i == 0 then Client(0, 0, 0, 0) else Client(FREE, FREE, 0, 0)))
  }

  lemma {:induction false} DisturbableIsQuiet(wanted: Amounts, supplies: nat, demands: nat, watches: nat,
                                              clients: nat)
    requires supplies >= 1 && demands >= 2 && clients >= 1 && !wanted.NonNegative()
    ensures var m := Disturbable(wanted, supplies, demands, watches, clients);
            && Sized(m, supplies, demands, watches, clients)
            && Registered(m, 0) && WellOwned(m) && DemandsNonNegative(m.demands) && Quiet(m)
  {
    var m := Disturbable(wanted, supplies, demands, watches, clients);
    assert m.clients[0] == Client(0, 0, 0, 0);
    assert !Compatible(m.demands[0], m.supplies[0]);
  }

  /** The new demand goes to slot 1 and is served from the only supply, which then covers
      the demand in slot 0 that the scan has already passed. */
  lemma {:induction false} ScanLeavesMatch(wanted: Amounts, ss: seq<Supply>, ds: seq<Demand>)
    requires |ss| >= 1 && |ds| >= 2 && !wanted.NonNegative()
    requires ss[0] == Supply(0, 0, Held(wanted), 1, 0) && forall i :: 0 < i < |ss| ==> ss[i] == NO_SUPPLY
    requires ds[0] == Demand(0, 0, Held(wanted).Minus(wanted), 0) && ds[1] == Demand(0, 0, wanted, 0)
    requires forall j :: 1 < j < |ds| ==> ds[j] == NO_DEMAND
    ensures !Quiescent(FirstFit(ss, ds, 0).supplies, FirstFit(ss, ds, 0).demands)
  {
    assert FirstCompatible(ss, ds[0]) == |ss|;
    assert FirstCompatible(ss, ds[1]) == 0;
    var ss', ds' := ss[0 := Residual(ss[0], ds[1])], ds[1 := NO_DEMAND];
    QuiescentScanIsIdle(ss', ds', 2);
    assert FirstFit(ss, ds, 0) == FirstFit(ss, ds, 1);
    assert Compatible(ds'[0], ss'[0]);
    assert !Unmatched(ss', ds'[0]);
  }

  lemma {:induction false} NegativeDemandDisturbs(wanted: Amounts, supplies: nat, demands: nat, watches: nat,
                                                  clients: nat)
    requires supplies >= 1 && demands >= 2 && clients >= 1
    requires !wanted.NonNegative()
    ensures var m := Disturbable(wanted, supplies, demands, watches, clients);
            Sized(m, supplies, demands, watches, clients) && !StaysQuiet(m, 0, wanted)
  {
    var m := Disturbable(wanted, supplies, demands, watches, clients);
    var ds := m.demands[1 := Demand(0, 0, wanted, 0)];
    DisturbableIsQuiet(wanted, supplies, demands, watches, clients);
    assert m.demands[0].client == 0 && m.demands[1].client == FREE;
    assert FreeDemand(m.demands) == 1;
    assert m.clients[0] == Client(0, 0, 0, 0) && PlaceDemand(m, 0, wanted) == m.(demands := ds);
    ScanLeavesMatch(wanted, m.supplies, ds);
  }

  /** For tables of any size a demand command keeps every quiet memory quiet if and
      only if none of its three amounts is negative. */
  lemma {:induction false} QuietExactlyForNonNegativeDemands(wanted: Amounts, supplies: nat, demands: nat,
                                                             watches: nat, clients: nat)
    requires supplies >= 1 && demands >= 2 && clients >= 1
    ensures wanted.NonNegative() <==>
            forall m: Memory, c: nat ::
              Sized(m, supplies, demands, watches, clients) && c < clients ==> StaysQuiet(m, c, wanted)
  {
    if wanted.NonNegative() {
      forall m: Memory, c: nat | Sized(m, supplies, demands, watches, clients) && c < clients
        ensures StaysQuiet(m, c, wanted)
      {
        if Quiet(m) {
          DemandCommandServesNewDemand(m, c, wanted);
        }
      }
    } else {
      NegativeDemandDisturbs(wanted, supplies, demands, watches, clients);
    }
  }
}
