/** The device while only the writer that opened last writes: where every byte is, and that
    such runs continue the stream, so that readers receive what was written. */
module CipherRoundTrip {
  import opened Resources
  import opened Keystream
  import opened CipherDevice
  import opened CipherStream
  import opened CipherRuns
  import opened ContinuedRuns

  // ---------- The layout of the stream ----------

  predicate IsLatestWriter(cs: seq<Context>, c: nat) {
    c < |cs| && cs[c].mode == Writing && forall o :: c < o < |cs| ==> cs[o].mode == Reading
  }

  /** The writer is at the end of the device, with the key offset due there. */
  predicate Current(d: Device, c: nat) {
    && c < |d.contexts|
    && d.contexts[c].keyoff == |Stored(d)|
    && d.contexts[c].next == if |d.buckets| == 0 then None else Some(|d.buckets| - 1)
  }

  /** Every bucket but the last is exactly full. */
  predicate FullBuckets(bs: seq<Bucket>) {
    forall k :: 0 <= k < |bs| ==> |bs[k].bytes| <= BUCKET_SIZE && (k + 1 < |bs| ==> |bs[k].bytes| == BUCKET_SIZE)
  }

  /** The layout of the buckets and, for the latest writer, its place. */
  ghost predicate LaidOut(s: System) {
    && s.device.keylast == |s.accepted| && FullBuckets(s.device.buckets)
    && (forall c: nat :: IsLatestWriter(s.device.contexts, c) ==> Current(s.device, c))
  }

  ghost predicate InOrder(s: System) {
    Follows(s) && LaidOut(s)
  }

  /** The byte at position p of the stream is in bucket p / 256, under key byte p. */
  lemma {:induction false} ByteAt(s: System, p: nat)
    requires Encoded(s) && FullBuckets(s.device.buckets) && p < |s.accepted|
    ensures var k, key := p / 256, s.device.key;
            && k < |s.device.buckets| && p % 256 < |s.device.buckets[k].bytes|
            && s.device.buckets[k].bytes[p % 256] == s.accepted[p] ^ key[p % |key|]
  {
    TailAt(s.device.buckets, 0, p);
    XorAt(s.accepted, s.device.key, 0, p);
  }

  lemma {:induction false} TailAt(bs: seq<Bucket>, i: nat, p: nat)
    requires FullBuckets(bs) && p < |Tail(bs, i, 0)|
    ensures var k := i + p / BUCKET_SIZE;
            && k < |bs| && p % BUCKET_SIZE < |bs[k].bytes|
            && Tail(bs, i, 0)[p] == bs[k].bytes[p % BUCKET_SIZE]
    decreases |bs| - i
  {
    if i < |bs| && p >= BUCKET_SIZE {
      TailAt(bs, i + 1, p - BUCKET_SIZE);
    }
  }

  // ---------- What each step keeps ----------

  lemma {:induction false} ReadKeepsLatestWriter(s: System, t: System, c: nat)
    requires OnlyMoved(s.device, t.device, c) && s.device.contexts[c].mode == Reading
    requires forall w: nat :: IsLatestWriter(s.device.contexts, w) ==> Current(s.device, w)
    ensures forall w: nat :: IsLatestWriter(t.device.contexts, w) ==> Current(t.device, w)
  {
    TailIgnoresRefcounts(s.device.buckets, t.device.buckets, 0, 0);
    forall w: nat | IsLatestWriter(t.device.contexts, w) ensures Current(t.device, w) {
      assert forall o :: 0 <= o < |t.device.contexts| ==> t.device.contexts[o].mode == s.device.contexts[o].mode;
      assert IsLatestWriter(s.device.contexts, w);
    }
  }

  lemma {:induction false} ReadKeepsOrder(s: System, c: nat, count: nat)
    requires InOrder(s)
    ensures InOrder(Next(s, ReadFile(c, count)))
  {
    ReadKeepsFollowing(s, c, count);
    if !s.freed && MayUse(s, c, Reading) && Read(s.device, c, count).Copied? {
      ReadKeepsOthers(s.device, c, count);
      ReadKeepsLatestWriter(s, Next(s, ReadFile(c, count)), c);
    }
  }

  lemma {:induction false} PutKeepsFull(d: Device, c: nat, data: seq<Byte>)
    requires InDevice(d, c) && d.key != [] && FullBuckets(d.buckets)
    requires d.contexts[c].next == if |d.buckets| == 0 then None else Some(|d.buckets| - 1)
    ensures FullBuckets(Put(d, c, data).buckets)
    decreases |data|
  {
    if data != [] {
      var r := WithRoom(d, c);
      var n := FirstChunk(d, c, data);
      PutKeepsFull(Append(r, c, data[..n]), c, data[n..]);
    }
  }

  /** The latest writer is at the end, with the key offset due there. */
  lemma {:induction false} CurrentContinues(s: System, c: nat, data: seq<Byte>)
    requires MayUse(s, c, Writing) && Current(s.device, c)
    ensures WriteContinues(s, c, data)
  {
  }

  lemma {:induction false} WriteKeepsLayout(s: System, c: nat, data: seq<Byte>)
    requires Encoded(s) && FullBuckets(s.device.buckets) && s.device.keylast == |s.accepted|
    requires !s.freed && MayUse(s, c, Writing) && Current(s.device, c)
    ensures var t := Next(s, WriteFile(c, data));
            FullBuckets(t.device.buckets) && t.device.keylast == |t.accepted| && Current(t.device, c)
  {
    var admitted := data[..Admitted(s.device, c, |data|)];
    PutAppends(s.device, c, admitted);
    PutKeepsFull(s.device, c, admitted);
  }

  lemma {:induction false} WriteKeepsOrder(s: System, c: nat, data: seq<Byte>)
    requires InOrder(s) && (MayUse(s, c, Writing) ==> IsLatestWriter(s.device.contexts, c))
    ensures InOrder(Next(s, WriteFile(c, data)))
  {
    if !s.freed && MayUse(s, c, Writing) {
      var t := Next(s, WriteFile(c, data));
      assert Current(s.device, c);
      CurrentContinues(s, c, data);
      WriteKeepsFollowing(s, c, data);
      WriteKeepsLayout(s, c, data);
      WriteKeepsModes(s, c, data);
      assert forall w: nat :: IsLatestWriter(t.device.contexts, w) ==> w == c;
    }
  }

  lemma {:induction false} OpenKeepsOrder(s: System, mode: Mode)
    requires InOrder(s)
    ensures InOrder(Next(s, OpenFile(mode)))
  {
    OpenKeepsFollowing(s, mode);
    if !s.freed {
      var t, n := Next(s, OpenFile(mode)), |s.device.contexts|;
      TailIgnoresRefcounts(s.device.buckets, t.device.buckets, 0, 0);
      forall w: nat | IsLatestWriter(t.device.contexts, w) ensures Current(t.device, w) {
        if w < n {
          assert forall o :: 0 <= o < n ==> t.device.contexts[o] == s.device.contexts[o];
          assert IsLatestWriter(s.device.contexts, w);
        }
      }
    }
  }

  lemma {:induction false} RestartKeepsOrder(s: System, key: seq<Byte>)
    requires |s.received| == |s.device.contexts| && key != []
    ensures InOrder(Restarted(s, key))
  {
    RestartFollows(s, key);
  }

  // ---------- All disciplined runs ----------

  /** Only the writer that opened last writes. */
  predicate Disciplined(s: System, step: Step) {
    step.WriteFile? && MayUse(s, step.context, Writing) ==> IsLatestWriter(s.device.contexts, step.context)
  }

  predicate DisciplinedRun(s: System, steps: seq<Step>) {
    steps == [] ||
    (DisciplinedRun(s, steps[..|steps| - 1]) && Disciplined(Run(s, steps[..|steps| - 1]), steps[|steps| - 1]))
  }

  lemma {:induction false} StepKeepsOrder(s: System, step: Step)
    requires InOrder(s) && Disciplined(s, step)
    ensures InOrder(Next(s, step))
  {
    match step
    case OpenFile(mode) => OpenKeepsOrder(s, mode);
    case ReadFile(c, count) => ReadKeepsOrder(s, c, count);
    case WriteFile(c, data) => WriteKeepsOrder(s, c, data);
    case Clear => RestartKeepsOrder(s, DEFAULT_KEY);
    case SetKey(raw) => if KeyOf(raw) != [] { RestartKeepsOrder(s, KeyOf(raw)); }
  }

  lemma {:induction false} RunsStayInOrder(steps: seq<Step>)
    requires DisciplinedRun(INITIAL, steps)
    ensures InOrder(Run(INITIAL, steps))
  {
    if steps != [] {
      RunsStayInOrder(steps[..|steps| - 1]);
      StepKeepsOrder(Run(INITIAL, steps[..|steps| - 1]), steps[|steps| - 1]);
    }
  }

  /** Runs in which only the latest writer writes continue the stream. */
  lemma {:induction false} DisciplinedRunsContinue(steps: seq<Step>)
    requires DisciplinedRun(INITIAL, steps)
    ensures ContinuedRun(INITIAL, steps)
  {
    if steps != [] {
      var init, step := steps[..|steps| - 1], steps[|steps| - 1];
      DisciplinedRunsContinue(init);
      RunsStayInOrder(init);
      var s := Run(INITIAL, init);
      if step.WriteFile? && MayUse(s, step.context, Writing) {
        assert Current(s.device, step.context);
        CurrentContinues(s, step.context, step.data);
      }
    }
  }

  /** Since the last reset, every reader has received a prefix of what was written. */
  lemma {:induction false} ReceivedIsPrefix(steps: seq<Step>, c: nat)
    requires DisciplinedRun(INITIAL, steps)
    requires var s := Run(INITIAL, steps); c < |s.device.contexts| && s.device.contexts[c].mode == Reading
    ensures var s := Run(INITIAL, steps); c < |s.received| && s.received[c] <= s.accepted
  {
    DisciplinedRunsContinue(steps);
    ContinuedReceivedIsPrefix(steps, c);
  }
}
