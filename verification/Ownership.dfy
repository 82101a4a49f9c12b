/** Ownership of table entries: commands and disconnects keep every live entry, and
    every notice, with a registered client. */
module Ownership {
  import opened Resources
  import opened Matching
  import opened SharedState

  ghost predicate SuppliesOwned(ss: seq<Supply>, m: Memory) {
    forall i :: 0 <= i < |ss| && ss[i].client != FREE ==> Registered(m, ss[i].client)
  }

  ghost predicate DemandsOwned(ds: seq<Demand>, m: Memory) {
    forall j :: 0 <= j < |ds| && ds[j].client != FREE ==> Registered(m, ds[j].client)
  }

  ghost predicate Addressed(ns: seq<Notice>, m: Memory) {
    forall n :: 0 <= n < |ns| ==> Registered(m, ns[n].client)
  }

  lemma {:induction false} ScanStaysOwned(ss: seq<Supply>, ds: seq<Demand>, j: nat, m: Memory)
    requires j <= |ds| && SuppliesOwned(ss, m) && DemandsOwned(ds, m)
    ensures var r := FirstFit(ss, ds, j);
            && |r.supplies| == |ss| && |r.demands| == |ds|
            && SuppliesOwned(r.supplies, m) && DemandsOwned(r.demands, m)
            && Addressed(AllNotices(r.matches), m)
    decreases |ds| - j
  {
    if j < |ds| {
      var i := FirstCompatible(ss, ds[j]);
      if i == |ss| {
        ScanStaysOwned(ss, ds, j + 1, m);
      } else {
        var match0 := Match(j, i, ds[j], ss[i]);
        var ss', ds' := ss[i := Residual(ss[i], ds[j])], ds[j := NO_DEMAND];
        ScanStaysOwned(ss', ds', j + 1, m);
        var rest := FirstFit(ss', ds', j + 1).matches;
        assert ([match0] + rest)[1..] == rest;
        assert Addressed(NoticesOf(match0), m);
      }
    }
  }

  lemma {:induction false} AnnouncementsAddressed(ws: seq<Watch>, s: Supply, m: Memory)
    requires forall i :: 0 <= i < |ws| && ws[i].client != FREE ==> Registered(m, ws[i].client)
    ensures Addressed(WatchNotices(ws, s), m)
  {
    if ws != [] {
      AnnouncementsAddressed(ws[1..], s, m);
    }
  }

  lemma {:induction false} ScanKeepsOwnership(m: Memory)
    requires WellOwned(m)
    ensures var e := Scan(m);
            && WellOwned(e.memory) && Addressed(e.notices, m)
            && |e.memory.supplies| == |m.supplies| && |e.memory.demands| == |m.demands|
            && e.memory.watches == m.watches && e.memory.clients == m.clients
  {
    ScanStaysOwned(m.supplies, m.demands, 0, m);
    var e := Scan(m);
    assert SuppliesOwned(e.memory.supplies, m) && DemandsOwned(e.memory.demands, m);
    assert forall c :: Registered(e.memory, c) <==> Registered(m, c);
  }

  /** The ids in use, as a set that commands do not change. */
  ghost predicate SameRegistered(m: Memory, n: Memory) {
    |m.clients| == |n.clients| && forall c :: 0 <= c < |m.clients| ==> m.clients[c].id == n.clients[c].id
  }

  lemma {:induction false} SupplyCommandKeepsOwnership(m: Memory, c: nat, distance: int, offered: Amounts)
    requires WellOwned(m) && Registered(m, c)
    ensures var e := SupplyCommand(m, c, distance, offered);
            WellOwned(e.memory) && Addressed(e.notices, m) && SameRegistered(m, e.memory)
            && |e.memory.watches| == |m.watches|
  {
    var placed := PlaceSupply(m, c, distance, offered);
    assert WellOwned(placed);
    ScanKeepsOwnership(placed);
    var slot := FreeSupply(m.supplies);
    if slot < |m.supplies| {
      AnnouncementsAddressed(m.watches, Scan(placed).memory.supplies[slot], m);
    }
  }

  lemma {:induction false} WatchCommandKeepsOwnership(m: Memory, c: nat, radius: int)
    requires WellOwned(m) && Registered(m, c)
    ensures WellOwned(PlaceWatch(m, c, radius))
  {
    var ws := WithoutWatches(m.watches, c);
    assert WatchesUnique(ws);
    assert forall i :: 0 <= i < |ws| ==> ws[i].client != c;
    assert WatchesUnique(PlaceWatch(m, c, radius).watches);
  }

  lemma {:induction false} CommandKeepsOwnership(m: Memory, c: nat, command: Command)
    requires WellOwned(m) && Registered(m, c)
    ensures var e := Execute(m, c, command);
            WellOwned(e.memory) && Addressed(e.notices, m) && SameRegistered(m, e.memory)
            && |e.memory.watches| == |m.watches|
  {
    match command
    case MoveTo(x, y) =>
    case PutDemand(wanted) =>
      var placed := PlaceDemand(m, c, wanted);
      assert WellOwned(placed);
      ScanKeepsOwnership(placed);
    case PutSupply(distance, offered) => SupplyCommandKeepsOwnership(m, c, distance, offered);
    case PutWatch(radius) => WatchCommandKeepsOwnership(m, c, radius);
    case DropWatch =>
    case Inspect =>
  }

  /** Removing a client removes all its entries and keeps everybody else's. */
  lemma {:induction false} RemovalKeepsOwnership(m: Memory, c: nat)
    requires WellOwned(m) && Registered(m, c)
    ensures WellOwned(RemoveClient(m, c))
    ensures forall k :: 0 <= k < |m.clients| ==> (Registered(RemoveClient(m, c), k) <==> Registered(m, k) && k != c)
  {
    var r := RemoveClient(m, c);
    assert forall i :: 0 <= i < |m.supplies| ==>
      r.supplies[i].client != c && (r.supplies[i].client == FREE || r.supplies[i] == m.supplies[i]);
    assert forall j :: 0 <= j < |m.demands| ==>
      r.demands[j].client != c && (r.demands[j].client == FREE || r.demands[j] == m.demands[j]);
    assert forall i :: 0 <= i < |m.watches| ==>
      r.watches[i].client != c && (r.watches[i].client == FREE || r.watches[i] == m.watches[i]);
  }
}
