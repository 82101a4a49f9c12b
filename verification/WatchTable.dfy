/** Watches: a registered client's watch always finds a slot, and an inserted
    supply is announced to exactly the clients whose watch covers it. */
module WatchTable {
  import opened Resources
  import opened Matching
  import opened SharedState

  /** Distinct elements of a finite set are no more than the set has. */
  lemma {:induction false} DistinctFit(s: seq<int>, universe: set<int>)
    requires forall i :: 0 <= i < |s| ==> s[i] in universe
    requires forall i, k :: 0 <= i < k < |s| ==> s[i] != s[k]
    ensures |s| <= |universe|
  {
    if s != [] {
      var last := s[|s| - 1];
      DistinctFit(s[..|s| - 1], universe - {last});
    }
  }

  function Below(n: nat): (r: set<int>)
    ensures |r| == n && forall i :: i in r <==> 0 <= i < n
  {
    if n == 0 then {} else Below(n - 1) + {n - 1}
  }

  /** Clients without a second watch cannot fill a table with a slot for each of them. */
  lemma {:induction false} WatchSlotAvailable(ws: seq<Watch>, c: int, clients: nat)
    requires WatchesUnique(ws)
    requires forall i :: 0 <= i < |ws| && ws[i].client != FREE ==> 0 <= ws[i].client < clients && ws[i].client != c
    requires 0 <= c < clients <= |ws|
    ensures FreeWatch(ws) < |ws|
  {
    if FreeWatch(ws) == |ws| {
      var ids := seq(|ws|, i requires 0 <= i < |ws| => ws[i].client);
      DistinctFit(ids, Below(clients) - {c});
      assert false;
    }
  }

  /** After a watch command the client has exactly one watch: the new one, at its position. */
  lemma {:induction false} WatchAlwaysPlaced(m: Memory, c: nat, radius: int)
    requires WellOwned(m) && Registered(m, c) && |m.clients| <= |m.watches|
    ensures var ws := Execute(m, c, PutWatch(radius)).memory.watches;
            && |ws| == |m.watches|
            && (exists i :: 0 <= i < |ws| && ws[i] == Watch(m.clients[c].x, m.clients[c].y, c, radius)
                            && forall k :: 0 <= k < |ws| && ws[k].client == c ==> k == i)
            && (forall k :: 0 <= k < |ws| && m.watches[k].client !in {c, FREE} ==> ws[k] == m.watches[k])
            && (forall k :: 0 <= k < |ws| && ws[k].client !in {c, FREE} ==> ws[k] == m.watches[k])
  {
    var ws := WithoutWatches(m.watches, c);
    WatchSlotAvailable(ws, c, |m.clients|);
    var i := FreeWatch(ws);
    assert PlaceWatch(m, c, radius).watches[i] == Watch(m.clients[c].x, m.clients[c].y, c, radius);
  }

  /** The messages among the notices that are meant for client c, in order. */
  function MessagesTo(ns: seq<Notice>, c: int): seq<Message> {
    if ns == [] then []
    else if ns[0].client != c then MessagesTo(ns[1..], c)
    else [ns[0].message] + MessagesTo(ns[1..], c)
  }

  lemma {:induction false} MessagesToConcat(ns: seq<Notice>, os: seq<Notice>, c: int)
    ensures MessagesTo(ns + os, c) == MessagesTo(ns, c) + MessagesTo(os, c)
  {
    if ns == [] {
      assert ns + os == os;
    } else {
      assert (ns + os)[1..] == ns[1..] + os;
      MessagesToConcat(ns[1..], os, c);
      var first := [ns[0].message];
      assert first + (MessagesTo(ns[1..], c) + MessagesTo(os, c)) == first + MessagesTo(ns[1..], c) + MessagesTo(os, c);
    }
  }

  /** A live watch covers a supply exactly when its radius is positive and the sum of their
      distances along both axes is at most that. */
  lemma {:induction false} WatchingInCoordinates(w: Watch, s: Supply)
    ensures Watching(w, s) <==>
            && w.client != -1 && w.radius > 0
            && (w.x - s.x) + (w.y - s.y) <= w.radius && (w.x - s.x) - (w.y - s.y) <= w.radius
            && -(w.x - s.x) + (w.y - s.y) <= w.radius && -(w.x - s.x) - (w.y - s.y) <= w.radius
  {
  }

  ghost predicate Covered(ws: seq<Watch>, c: int, s: Supply) {
    exists i :: 0 <= i < |ws| && ws[i].client == c && Watching(ws[i], s)
  }

  /** Each client whose watch covers the supply gets one announcement, nobody else any. */
  lemma {:induction false} AnnouncedToWatchersOnly(ws: seq<Watch>, s: Supply, c: int)
    requires WatchesUnique(ws) && c != FREE
    ensures MessagesTo(WatchNotices(ws, s), c)
            == if Covered(ws, c, s) then [Inserted(s.amounts, s.x, s.y)] else []
  {
    if ws != [] {
      var rest := ws[1..];
      AnnouncedToWatchersOnly(rest, s, c);
      if Watching(ws[0], s) {
        var first := Notice(ws[0].client, Inserted(s.amounts, s.x, s.y));
        assert ([first] + WatchNotices(rest, s))[1..] == WatchNotices(rest, s);
      }
      if Covered(rest, c, s) {
        var i :| 0 <= i < |rest| && rest[i].client == c && Watching(rest[i], s);
        assert ws[i + 1].client == c;
      }
      if Covered(ws, c, s) && !(ws[0].client == c && Watching(ws[0], s)) {
        var i :| 0 <= i < |ws| && ws[i].client == c && Watching(ws[i], s);
        assert rest[i - 1] == ws[i];
      }
      if ws[0].client == c {
        forall i | 0 <= i < |rest| ensures rest[i].client != c { assert rest[i] == ws[i + 1]; }
      }
    }
  }

  predicate Announcement(n: Notice) { n.message.Inserted? }

  /** The announcements a supply command asks for. */
  function Announcements(ns: seq<Notice>): seq<Notice> {
    if ns == [] then []
    else if !Announcement(ns[0]) then Announcements(ns[1..])
    else [ns[0]] + Announcements(ns[1..])
  }

  lemma {:induction false} AnnouncementsConcat(ns: seq<Notice>, os: seq<Notice>)
    ensures Announcements(ns + os) == Announcements(ns) + Announcements(os)
  {
    if ns == [] {
      assert ns + os == os;
    } else {
      assert (ns + os)[1..] == ns[1..] + os;
      AnnouncementsConcat(ns[1..], os);
      assert [ns[0]] + (Announcements(ns[1..]) + Announcements(os))
          == [ns[0]] + Announcements(ns[1..]) + Announcements(os);
    }
  }

  lemma {:induction false} MatchesAnnounceNothing(ms: seq<Match>)
    ensures Announcements(AllNotices(ms)) == []
  {
    if ms != [] {
      MatchesAnnounceNothing(ms[1..]);
      var ns := NoticesOf(ms[0]);
      AnnouncementsConcat([ns[0]], [ns[1]] + ns[2..]);
      AnnouncementsConcat([ns[1]], ns[2..]);
      assert ns == [ns[0]] + ([ns[1]] + ns[2..]);
      AnnouncementsConcat(ns, AllNotices(ms[1..]));
    }
  }

  lemma {:induction false} WatchNoticesAnnounce(ws: seq<Watch>, s: Supply)
    ensures Announcements(WatchNotices(ws, s)) == WatchNotices(ws, s)
  {
    if ws != [] {
      WatchNoticesAnnounce(ws[1..], s);
      if Watching(ws[0], s) {
        assert WatchNotices(ws, s)[1..] == WatchNotices(ws[1..], s);
      }
    }
  }

  function AnnouncementFor(ws: seq<Watch>, s: Supply): seq<Notice> {
    if s.client == FREE then [] else WatchNotices(ws, s)
  }

  lemma {:induction false} AnnouncedAfterMatches(ms: seq<Match>, ws: seq<Watch>, s: Supply, to: nat)
    requires WatchesUnique(ws)
    ensures MessagesTo(Announcements(AllNotices(ms) + AnnouncementFor(ws, s)), to)
            == if s.client != FREE && Covered(ws, to, s) then [Inserted(s.amounts, s.x, s.y)] else []
  {
    MatchesAnnounceNothing(ms);
    AnnouncementsConcat(AllNotices(ms), AnnouncementFor(ws, s));
    assert Announcements(AllNotices(ms) + AnnouncementFor(ws, s)) == Announcements(AnnouncementFor(ws, s));
    if s.client != FREE {
      WatchNoticesAnnounce(ws, s);
      AnnouncedToWatchersOnly(ws, s, to);
    }
  }

  /** A supply command announces its supply once to each client whose watch covers
      what matching left of it, with the amounts that were left, and to nobody else;
      a supply that found no slot or was used up is not announced at all. */
  lemma {:induction false} SupplyAnnouncedExactly(m: Memory, c: nat, distance: int, offered: Amounts, to: nat)
    requires c < |m.clients| && WatchesUnique(m.watches)
    ensures var e := Execute(m, c, PutSupply(distance, offered));
            var k := FreeSupply(m.supplies);
            && |e.memory.supplies| == |m.supplies|
            && MessagesTo(Announcements(e.notices), to)
               == if k < |m.supplies| && e.memory.supplies[k].client != FREE
                     && Covered(m.watches, to, e.memory.supplies[k])
                  then [Inserted(e.memory.supplies[k].amounts, e.memory.supplies[k].x, e.memory.supplies[k].y)]
                  else []
  {
    var k := FreeSupply(m.supplies);
    var placed := PlaceSupply(m, c, distance, offered);
    var r := FirstFit(placed.supplies, placed.demands, 0);
    ScanConserves(placed.supplies, placed.demands, 0, A);
    if k < |m.supplies| {
      AnnouncedAfterMatches(r.matches, m.watches, r.supplies[k], to);
    } else {
      AnnouncedAfterMatches(r.matches, m.watches, NO_SUPPLY, to);
      assert AllNotices(r.matches) + [] == AllNotices(r.matches);
    }
  }
}
