/** Who is told what about the matches of a run. */
module MatchAnnouncements {
  import opened Matching
  import opened WatchTable
  import opened Server
  import opened SupplyLedgers

  /** What client c is to be told about a match, as its demander, its supplier or both. */
  function ToldAbout(m: Match, c: int): seq<Message> {
    var d, s := m.demand, m.supply;
    (if d.client == c then [Fulfilled(d.x, d.y, d.amounts, s.x, s.y)] else [])
    + (if s.client == c then [Delivered(s.x, s.y, s.amounts, s.distance, d.x, d.y, d.amounts)] else [])
    + (if s.client == c && UsesUp(d, s) then [Exhausted] else [])
  }

  predicate UsesUp(d: Demand, s: Supply) {
    s.amounts.a == d.amounts.a && s.amounts.b == d.amounts.b && s.amounts.c == d.amounts.c
  }

  function ToldAboutAll(ms: seq<Match>, c: int): seq<Message> {
    if ms == [] then [] else ToldAbout(ms[0], c) + ToldAboutAll(ms[1..], c)
  }

  lemma {:induction false} MessagesToOne(n: Notice, c: int)
    ensures MessagesTo([n], c) == if n.client == c then [n.message] else []
  {
    assert [n][1..] == [];
  }

  lemma {:induction false} OneMatchTells(m: Match, c: int)
    ensures MessagesTo(NoticesOf(m), c) == ToldAbout(m, c)
  {
    var d, s := m.demand, m.supply;
    var first := Notice(d.client, Fulfilled(d.x, d.y, d.amounts, s.x, s.y));
    var second := Notice(s.client, Delivered(s.x, s.y, s.amounts, s.distance, d.x, d.y, d.amounts));
    MatchIsAnnounced(m);
    MessagesToOne(first, c);
    MessagesToOne(second, c);
    MessagesToOne(Notice(s.client, Exhausted), c);
    MessagesToConcat([first], [second], c);
    assert [first] + [second] == [first, second];
    if UsesUp(d, s) {
      MessagesToConcat([first, second], [Notice(s.client, Exhausted)], c);
    }
  }

  lemma {:induction false} MatchesTell(ms: seq<Match>, c: int)
    ensures MessagesTo(AllNotices(ms), c) == ToldAboutAll(ms, c)
  {
    if ms != [] {
      OneMatchTells(ms[0], c);
      MatchesTell(ms[1..], c);
      MessagesToConcat(NoticesOf(ms[0]), AllNotices(ms[1..]), c);
    }
  }

  /** Over every run, what the log has for a client beside insertions is what it is to be
      told about the matches made, match by match. */
  lemma {:induction false} RunsTellBothSides(s: State, steps: seq<Step>, c: int)
    ensures var t := Run(s, steps);
            s.log <= t.log && MessagesTo(MatchNews(t.log[|s.log|..]), c) == ToldAboutAll(RunMatches(s, steps), c)
  {
    RunsAnnounceTheirMatches(s, steps);
    MatchesTell(RunMatches(s, steps), c);
  }

  // ---------- Kind by kind ----------

  function Only(ms: seq<Message>, p: Message -> bool): seq<Message> {
    if ms == [] then [] else (if p(ms[0]) then [ms[0]] else []) + Only(ms[1..], p)
  }

  lemma {:induction false} OnlyConcat(a: seq<Message>, b: seq<Message>, p: Message -> bool)
    ensures Only(a + b, p) == Only(a, p) + Only(b, p)
  {
    if a == [] {
      assert a + b == b;
    } else {
      assert (a + b)[1..] == a[1..] + b;
      OnlyConcat(a[1..], b, p);
      var first := if p(a[0]) then [a[0]] else [];
      assert first + (Only(a[1..], p) + Only(b, p)) == (first + Only(a[1..], p)) + Only(b, p);
    }
  }

  lemma {:induction false} InsertionsAreOfNoOtherKind(ns: seq<Notice>, c: int, p: Message -> bool)
    requires forall m: Message :: p(m) ==> !m.Inserted?
    ensures Only(MessagesTo(ns, c), p) == Only(MessagesTo(MatchNews(ns), c), p)
  {
    if ns != [] {
      var rest := ns[1..];
      InsertionsAreOfNoOtherKind(rest, c, p);
      MessagesToOne(ns[0], c);
      MessagesToConcat([ns[0]], rest, c);
      assert ns == [ns[0]] + rest;
      OnlyConcat(MessagesTo([ns[0]], c), MessagesTo(rest, c), p);
      if Announcement(ns[0]) {
        assert Only(MessagesTo([ns[0]], c), p) == [];
      } else {
        MessagesToConcat([ns[0]], MatchNews(rest), c);
        OnlyConcat(MessagesTo([ns[0]], c), MessagesTo(MatchNews(rest), c), p);
      }
    }
  }

  /** One message for each match whose demand, or supply, is the client's. */
  function Fulfilments(ms: seq<Match>, c: int): seq<Message> {
    if ms == [] then []
    else
      var d, s := ms[0].demand, ms[0].supply;
      (if d.client == c then [Fulfilled(d.x, d.y, d.amounts, s.x, s.y)] else []) + Fulfilments(ms[1..], c)
  }

  function Deliveries(ms: seq<Match>, c: int): seq<Message> {
    if ms == [] then []
    else
      var d, s := ms[0].demand, ms[0].supply;
      (if s.client == c then [Delivered(s.x, s.y, s.amounts, s.distance, d.x, d.y, d.amounts)] else [])
      + Deliveries(ms[1..], c)
  }

  function Removals(ms: seq<Match>, c: int): seq<Message> {
    if ms == [] then []
    else
      var d, s := ms[0].demand, ms[0].supply;
      (if s.client == c && UsesUp(d, s) then [Exhausted] else []) + Removals(ms[1..], c)
  }

  function IsFulfilled(): Message -> bool { (m: Message) => m.Fulfilled? }

  function IsDelivered(): Message -> bool { (m: Message) => m.Delivered? }

  function IsExhausted(): Message -> bool { (m: Message) => m.Exhausted? }

  lemma {:induction false} OnlyOfOne(m: Message, p: Message -> bool)
    ensures Only([m], p) == if p(m) then [m] else []
  {
    assert [m][1..] == [];
  }

  lemma {:induction false} OnlyOfThree(a: seq<Message>, b: seq<Message>, c: seq<Message>, p: Message -> bool)
    requires |a| <= 1 && |b| <= 1 && |c| <= 1
    ensures Only(a + b + c, p) == (if a != [] && p(a[0]) then a else [])
                                  + (if b != [] && p(b[0]) then b else [])
                                  + (if c != [] && p(c[0]) then c else [])
  {
    OnlyConcat(a + b, c, p);
    OnlyConcat(a, b, p);
    if a != [] { OnlyOfOne(a[0], p); assert a == [a[0]]; }
    if b != [] { OnlyOfOne(b[0], p); assert b == [b[0]]; }
    if c != [] { OnlyOfOne(c[0], p); assert c == [c[0]]; }
  }

  lemma {:induction false} KindsOfOne(m: Match, c: int)
    ensures var d, s := m.demand, m.supply;
            && Only(ToldAbout(m, c), IsFulfilled())
               == (if d.client == c then [Fulfilled(d.x, d.y, d.amounts, s.x, s.y)] else [])
            && Only(ToldAbout(m, c), IsDelivered())
               == (if s.client == c
                   then [Delivered(s.x, s.y, s.amounts, s.distance, d.x, d.y, d.amounts)] else [])
            && Only(ToldAbout(m, c), IsExhausted()) == (if s.client == c && UsesUp(d, s) then [Exhausted] else [])
  {
    var d, s := m.demand, m.supply;
    var f := if d.client == c then [Fulfilled(d.x, d.y, d.amounts, s.x, s.y)] else [];
    var g := if s.client == c then [Delivered(s.x, s.y, s.amounts, s.distance, d.x, d.y, d.amounts)] else [];
    var h: seq<Message> := if s.client == c && UsesUp(d, s) then [Exhausted] else [];
    assert ToldAbout(m, c) == f + g + h;
    OnlyOfThree(f, g, h, IsFulfilled());
    OnlyOfThree(f, g, h, IsDelivered());
    OnlyOfThree(f, g, h, IsExhausted());
  }

  lemma {:induction false} KindsOfAll(ms: seq<Match>, c: int)
    ensures Only(ToldAboutAll(ms, c), IsFulfilled()) == Fulfilments(ms, c)
    ensures Only(ToldAboutAll(ms, c), IsDelivered()) == Deliveries(ms, c)
    ensures Only(ToldAboutAll(ms, c), IsExhausted()) == Removals(ms, c)
  {
    if ms != [] {
      var a, b := ToldAbout(ms[0], c), ToldAboutAll(ms[1..], c);
      KindsOfOne(ms[0], c);
      KindsOfAll(ms[1..], c);
      OnlyConcat(a, b, IsFulfilled());
      OnlyConcat(a, b, IsDelivered());
      OnlyConcat(a, b, IsExhausted());
    }
  }

  /** Over every run: the fulfilment messages to a client are, in order, those of the matches
      of its demands; the delivery and removal messages those of the matches of its
      supplies, a removal exactly where nothing was left. */
  lemma {:induction false} RunsTellEachKind(s: State, steps: seq<Step>, c: int)
    ensures var t, ms := Run(s, steps), RunMatches(s, steps);
            && s.log <= t.log
            && var told := MessagesTo(t.log[|s.log|..], c);
               && Only(told, IsFulfilled()) == Fulfilments(ms, c)
               && Only(told, IsDelivered()) == Deliveries(ms, c)
               && Only(told, IsExhausted()) == Removals(ms, c)
  {
    RunsTellBothSides(s, steps, c);
    KindsOfAll(RunMatches(s, steps), c);
    var added := Run(s, steps).log[|s.log|..];
    InsertionsAreOfNoOtherKind(added, c, IsFulfilled());
    InsertionsAreOfNoOtherKind(added, c, IsDelivered());
    InsertionsAreOfNoOtherKind(added, c, IsExhausted());
  }
}
