/** What readers receive, in every run in which each write continues the stream: the writer
    is at the end and its key offset yields the keystream due there. */
module ContinuedRuns {
  import opened Resources
  import opened Keystream
  import opened CipherDevice
  import opened CipherStream
  import opened CipherRuns

  // ---------- Slices of the keystream ----------

  lemma {:induction false} XorOfSlice(data: seq<Byte>, key: seq<Byte>, from: nat, to: nat)
    requires key != [] && from <= to <= |data|
    ensures Xor(data, key, 0)[from..to] == Xor(data[from..to], key, from)
  {
    var a, b, c := data[..from], data[from..to], data[to..];
    assert data == a + b + c;
    XorConcat(a + b, c, key, 0);
    XorConcat(a, b, key, 0);
  }

  lemma {:induction false} SliceDecrypts(data: seq<Byte>, key: seq<Byte>, from: nat, to: nat)
    requires key != [] && from <= to <= |data|
    ensures Xor(Xor(data, key, 0)[from..to], key, from) == data[from..to]
  {
    XorOfSlice(data, key, from, to);
    XorCancels(data[from..to], key, from);
  }

  lemma {:induction false} RestDecrypts(data: seq<Byte>, key: seq<Byte>, at: nat, count: nat)
    requires key != [] && at <= |data|
    ensures var ahead := Xor(data, key, 0)[at..];
            && |ahead| == |data| - at
            && Xor(ahead[..Min(count, |ahead|)], key, at) == data[at..Min(at + count, |data|)]
  {
    var ahead := Xor(data, key, 0)[at..];
    var m := Min(count, |ahead|);
    assert ahead[..m] == Xor(data, key, 0)[at..at + m];
    SliceDecrypts(data, key, at, at + m);
  }

  // ---------- Readers follow what was accepted ----------

  /** A reader has received what is behind its cursor; without one, some prefix. */
  predicate ReaderInOrder(s: System, o: nat)
    requires o < |s.device.contexts| && o < |s.received|
  {
    var x := s.device.contexts[o];
    if x.next.Some? then
      && Placed(s.device, o)
      && x.keyoff + |Ahead(s.device, o)| == |s.accepted|
      && s.received[o] == s.accepted[..x.keyoff]
    else s.received[o] <= s.accepted
  }

  /** The stored bytes are what was accepted, encrypted from offset 0. */
  predicate Encoded(s: System) {
    var d := s.device;
    d.key != [] && d.keyfirst == 0 && Stored(d) == Xor(s.accepted, d.key, 0)
  }

  ghost predicate Follows(s: System) {
    && Encoded(s)
    && |s.received| == |s.device.contexts|
    && (forall o :: 0 <= o < |s.received| && s.device.contexts[o].mode == Reading ==> ReaderInOrder(s, o))
  }

  // ---------- Reading ----------

  lemma {:induction false} AheadIsRest(s: System, o: nat)
    requires Encoded(s) && o < |s.device.contexts| && o < |s.received|
    requires s.device.contexts[o].next.Some? && ReaderInOrder(s, o)
    ensures s.device.contexts[o].keyoff <= |s.accepted|
    ensures Ahead(s.device, o) == Xor(s.accepted, s.device.key, 0)[s.device.contexts[o].keyoff..]
  {
    var x := s.device.contexts[o];
    TailIsSuffix(s.device.buckets, x.next.value, x.off);
  }

  /** The bytes a read copies are the accepted ones that follow the reader's cursor. */
  lemma {:induction false} ReadDecrypts(s: System, c: nat, count: nat)
    requires Encoded(s) && MayUse(s, c, Reading) && ReaderInOrder(s, c)
    requires s.device.contexts[c].next.Some? && Read(s.device, c, count).Copied?
    ensures var at := s.device.contexts[c].keyoff;
            && at <= |s.accepted| && |Ahead(s.device, c)| == |s.accepted| - at
            && Read(s.device, c, count).bytes == s.accepted[at..Min(at + count, |s.accepted|)]
  {
    var at := s.device.contexts[c].keyoff;
    AheadIsRest(s, c);
    RestDecrypts(s.accepted, s.device.key, at, count);
    ReadCopiesAhead(s.device, c, count);
  }

  lemma {:induction false} PrefixGrows(bytes: seq<Byte>, from: nat, to: nat)
    requires from <= to <= |bytes|
    ensures bytes[..from] + bytes[from..to] == bytes[..to]
  {
  }

  /** A reader with a bucket receives the next accepted bytes, as many as asked for and
      accepted so far; it loses its bucket exactly when that was fewer than asked for. */
  lemma {:induction false} ReadContinues(s: System, c: nat, count: nat)
    requires Encoded(s) && !s.freed && MayUse(s, c, Reading) && ReaderInOrder(s, c)
    requires s.device.contexts[c].next.Some?
    ensures var t, at := Next(s, ReadFile(c, count)), s.device.contexts[c].keyoff;
            !t.freed ==>
              && at <= |s.accepted| && t.accepted == s.accepted && |t.received| == |s.received|
              && OnlyMoved(s.device, t.device, c)
              && t.received == s.received[c := s.accepted[..Min(at + count, |s.accepted|)]]
              && ReaderInOrder(t, c)
              && (t.device.contexts[c].next == None <==> at + count > |s.accepted|)
  {
    var r, at := Read(s.device, c, count), s.device.contexts[c].keyoff;
    if r.Copied? {
      ReadDecrypts(s, c, count);
      ReadCopiesAhead(s.device, c, count);
      PrefixGrows(s.accepted, at, Min(at + count, |s.accepted|));
    }
  }

  lemma {:induction false} OtherReadersStay(s: System, t: System, c: nat, o: nat)
    requires OnlyMoved(s.device, t.device, c) && o != c && o < |s.device.contexts|
    requires |t.received| == |s.received| && o < |s.received| && t.received[o] == s.received[o]
    requires t.accepted == s.accepted && ReaderInOrder(s, o)
    ensures ReaderInOrder(t, o)
  {
    var x := s.device.contexts[o];
    if x.next.Some? {
      TailIgnoresRefcounts(s.device.buckets, t.device.buckets, x.next.value, x.off);
    }
  }

  lemma {:induction false} ReadKeepsFollowing(s: System, c: nat, count: nat)
    requires Follows(s)
    ensures Follows(Next(s, ReadFile(c, count)))
  {
    var t := Next(s, ReadFile(c, count));
    if !s.freed && MayUse(s, c, Reading) && !t.freed {
      assert ReaderInOrder(s, c);
      if s.device.contexts[c].next.Some? {
        ReadContinues(s, c, count);
        TailIgnoresRefcounts(s.device.buckets, t.device.buckets, 0, 0);
        forall o | 0 <= o < |t.received| && t.device.contexts[o].mode == Reading
          ensures ReaderInOrder(t, o)
        {
          if o != c {
            assert ReaderInOrder(s, o);
            OtherReadersStay(s, t, c, o);
          }
        }
      } else {
        ReadOfStranded(s, c, count);
      }
    }
  }

  lemma {:induction false} ReadOfStranded(s: System, c: nat, count: nat)
    requires MayUse(s, c, Reading) && s.device.contexts[c].next == None
    ensures Next(s, ReadFile(c, count)) == s
  {
    assert s.received[c] + [] == s.received[c];
    assert s.received[c := s.received[c]] == s.received;
  }

  // ---------- Writing ----------

  lemma {:induction false} TailGrows(bs: seq<Bucket>, b: Bucket, more: seq<Byte>, i: nat, off: nat)
    requires i < |bs| && off <= |bs[i].bytes| && b.bytes == bs[|bs| - 1].bytes + more
    ensures Tail(bs[|bs| - 1 := b], i, off) == Tail(bs, i, off) + more
    decreases |bs| - i
  {
    var cs, first := bs[|bs| - 1 := b], bs[i].bytes[off..];
    assert Tail(bs, i, off) == first + Tail(bs, i + 1, 0);
    if i + 1 < |bs| {
      TailGrows(bs, b, more, i + 1, 0);
      assert Tail(cs, i, off) == first + Tail(cs, i + 1, 0);
      Associative(first, Tail(bs, i + 1, 0), more);
    } else {
      assert b.bytes[off..] == first + more;
      assert Tail(cs, i, off) == b.bytes[off..] + [];
    }
  }

  /** What is ahead of context o's cursor in d is still there in e, followed by more. */
  ghost predicate GrowsBy(d: Device, e: Device, o: nat, more: seq<Byte>)
    requires Placed(d, o)
  {
    Placed(e, o) && Ahead(e, o) == Ahead(d, o) + more
  }

  lemma {:induction false} GrowsAgain(d: Device, e: Device, f: Device, o: nat, a: seq<Byte>, b: seq<Byte>)
    requires Placed(d, o) && GrowsBy(d, e, o, a) && GrowsBy(e, f, o, b)
    ensures GrowsBy(d, f, o, a + b)
  {
    Associative(Ahead(d, o), a, b);
  }

  lemma {:induction false} NewBucketKeepsReader(d: Device, c: nat, o: nat)
    requires InDevice(d, c) && o != c && Placed(d, o)
    ensures GrowsBy(d, NewBucket(d, c), o, [])
  {
    var e, x, n := NewBucket(d, c), d.contexts[o], |d.buckets|;
    var kept := e.buckets[..n];
    assert e.buckets == kept + [e.buckets[n]];
    TailOfLongerList(kept, e.buckets[n], x.next.value, x.off);
    TailIgnoresRefcounts(d.buckets, kept, x.next.value, x.off);
  }

  lemma {:induction false} AppendKeepsReader(d: Device, c: nat, chunk: seq<Byte>, o: nat)
    requires InDevice(d, c) && d.key != [] && o != c && Placed(d, o)
    requires d.contexts[c].next == Some(|d.buckets| - 1)
    ensures GrowsBy(d, Append(d, c, chunk), o, Xor(chunk, d.key, d.contexts[c].keyoff))
  {
    var last := |d.buckets| - 1;
    TailGrows(d.buckets, Append(d, c, chunk).buckets[last], Xor(chunk, d.key, d.contexts[c].keyoff),
              d.contexts[o].next.value, d.contexts[o].off);
  }

  lemma {:induction false} RoomKeepsReader(d: Device, c: nat, o: nat)
    requires AtEnd(d, c) && o != c && Placed(d, o)
    ensures GrowsBy(d, WithRoom(d, c), o, [])
    ensures WithRoom(d, c).contexts[c].next == Some(|WithRoom(d, c).buckets| - 1)
    ensures WithRoom(d, c).contexts[c].keyoff == d.contexts[c].keyoff
  {
    if NeedsBucket(d, c) {
      NewBucketKeepsReader(d, c, o);
    }
  }

  lemma {:induction false} ChunkKeepsReader(d: Device, c: nat, chunk: seq<Byte>, o: nat)
    requires AtEnd(d, c) && d.key != [] && o != c && Placed(d, o)
    ensures GrowsBy(d, Append(WithRoom(d, c), c, chunk), o, Xor(chunk, d.key, d.contexts[c].keyoff))
  {
    var r := WithRoom(d, c);
    RoomKeepsReader(d, c, o);
    AppendKeepsReader(r, c, chunk, o);
    var added := Xor(chunk, d.key, d.contexts[c].keyoff);
    GrowsAgain(d, r, Append(r, c, chunk), o, [], added);
    assert [] + added == added;
  }

  lemma {:induction false} PutUnfolds(d: Device, c: nat, data: seq<Byte>)
    requires AtEnd(d, c) && d.key != [] && data != []
    ensures var n := FirstChunk(d, c, data);
            var e := Append(WithRoom(d, c), c, data[..n]);
            && AtEnd(e, c) && e.key == d.key && e.contexts[c].keyoff == d.contexts[c].keyoff + n
            && Put(d, c, data) == Put(e, c, data[n..])
  {
  }

  lemma {:induction false} GrowsByChunks(d: Device, e: Device, f: Device, c: nat, o: nat, data: seq<Byte>, n: nat)
    requires c < |d.contexts| && c < |e.contexts| && n <= |data| && Placed(d, o)
    requires d.key != [] && e.key == d.key && e.contexts[c].keyoff == d.contexts[c].keyoff + n
    requires GrowsBy(d, e, o, Xor(data[..n], d.key, d.contexts[c].keyoff))
    requires GrowsBy(e, f, o, Xor(data[n..], e.key, e.contexts[c].keyoff))
    ensures GrowsBy(d, f, o, Xor(data, d.key, d.contexts[c].keyoff))
  {
    var off := d.contexts[c].keyoff;
    GrowsAgain(d, e, f, o, Xor(data[..n], d.key, off), Xor(data[n..], d.key, off + n));
    XorSplit(data, d.key, off, n);
  }

  /** A writer at the end leaves other cursors alone and puts its data ahead of them. */
  lemma {:induction false} PutKeepsReader(d: Device, c: nat, data: seq<Byte>, o: nat)
    requires AtEnd(d, c) && d.key != [] && o != c && Placed(d, o)
    ensures GrowsBy(d, Put(d, c, data), o, Xor(data, d.key, d.contexts[c].keyoff))
    decreases |data|
  {
    if data != [] {
      var n := FirstChunk(d, c, data);
      var e := Append(WithRoom(d, c), c, data[..n]);
      PutUnfolds(d, c, data);
      ChunkKeepsReader(d, c, data[..n], o);
      PutKeepsReader(e, c, data[n..], o);
      GrowsByChunks(d, e, Put(e, c, data[n..]), c, o, data, n);
    }
  }

  /** The writer is at the end, and its key offset yields, for what is admitted, the
      keystream due there. */
  ghost predicate WriteContinues(s: System, c: nat, data: seq<Byte>)
    requires MayUse(s, c, Writing)
  {
    var d := s.device;
    AtEnd(d, c) && Aligned(d.key, d.contexts[c].keyoff, |Stored(d)|, Admitted(d, c, |data|))
  }

  lemma {:induction false} AlignedEncryptsAlike(data: seq<Byte>, key: seq<Byte>, a: nat, b: nat)
    requires key != [] && Aligned(key, a, b, |data|)
    ensures Xor(data, key, a) == Xor(data, key, b)
  {
    forall i | 0 <= i < |data| ensures Xor(data, key, a)[i] == Xor(data, key, b)[i] {
      XorAt(data, key, a, i);
      XorAt(data, key, b, i);
      assert SameKeyByte(key, a, b, i);
    }
  }

  lemma {:induction false} WriteKeepsEncoded(s: System, c: nat, data: seq<Byte>)
    requires Encoded(s) && !s.freed && MayUse(s, c, Writing) && WriteContinues(s, c, data)
    ensures Encoded(Next(s, WriteFile(c, data)))
  {
    var d := s.device;
    var admitted := data[..Admitted(d, c, |data|)];
    PutAppends(d, c, admitted);
    AlignedEncryptsAlike(admitted, d.key, d.contexts[c].keyoff, |s.accepted|);
    XorConcat(s.accepted, admitted, d.key, 0);
  }

  lemma {:induction false} WriteKeepsReader(s: System, c: nat, data: seq<Byte>, o: nat)
    requires !s.freed && MayUse(s, c, Writing) && AtEnd(s.device, c)
    requires |s.received| == |s.device.contexts|
    requires o < |s.received| && s.device.contexts[o].mode == Reading && ReaderInOrder(s, o)
    ensures var t := Next(s, WriteFile(c, data));
            |t.received| == |s.received| && |t.device.contexts| == |s.device.contexts| && ReaderInOrder(t, o)
  {
    var t := Next(s, WriteFile(c, data));
    var admitted := data[..Admitted(s.device, c, |data|)];
    PutKeepsOthers(s.device, c, admitted, o);
    if s.device.contexts[o].next.Some? {
      PutKeepsReader(s.device, c, admitted, o);
      assert t.accepted[..t.device.contexts[o].keyoff] == s.accepted[..t.device.contexts[o].keyoff];
    }
  }

  lemma {:induction false} WriteKeepsModes(s: System, c: nat, data: seq<Byte>)
    requires !s.freed && MayUse(s, c, Writing)
    ensures var t := Next(s, WriteFile(c, data));
            && |t.device.contexts| == |s.device.contexts|
            && forall o :: 0 <= o < |s.device.contexts| ==> t.device.contexts[o].mode == s.device.contexts[o].mode
  {
    var admitted := data[..Admitted(s.device, c, |data|)];
    PutKeepsOthers(s.device, c, admitted, c);
    forall o: nat | o < |s.device.contexts|
      ensures Put(s.device, c, admitted).contexts[o].mode == s.device.contexts[o].mode
    {
      PutKeepsOthers(s.device, c, admitted, o);
    }
  }

  lemma {:induction false} WriteKeepsFollowing(s: System, c: nat, data: seq<Byte>)
    requires Follows(s) && (MayUse(s, c, Writing) ==> WriteContinues(s, c, data))
    ensures Follows(Next(s, WriteFile(c, data)))
  {
    if !s.freed && MayUse(s, c, Writing) {
      var t := Next(s, WriteFile(c, data));
      WriteKeepsEncoded(s, c, data);
      WriteKeepsModes(s, c, data);
      forall o | 0 <= o < |t.received| && t.device.contexts[o].mode == Reading
        ensures ReaderInOrder(t, o)
      {
        WriteKeepsReader(s, c, data, o);
      }
    }
  }

  // ---------- Opening and resetting ----------

  lemma {:induction false} OpenKeepsFollowing(s: System, mode: Mode)
    requires Follows(s)
    ensures Follows(Next(s, OpenFile(mode)))
  {
    if !s.freed {
      var d, t, n := s.device, Next(s, OpenFile(mode)), |s.device.contexts|;
      TailIgnoresRefcounts(d.buckets, t.device.buckets, 0, 0);
      forall o | 0 <= o < |t.received| && t.device.contexts[o].mode == Reading
        ensures ReaderInOrder(t, o)
      {
        if o < n {
          assert ReaderInOrder(s, o);
          if d.contexts[o].next.Some? {
            TailIgnoresRefcounts(d.buckets, t.device.buckets, d.contexts[o].next.value, d.contexts[o].off);
          }
        }
      }
    }
  }

  lemma {:induction false} RestartFollows(s: System, key: seq<Byte>)
    requires |s.received| == |s.device.contexts| && key != []
    ensures Follows(Restarted(s, key))
  {
  }

  // ---------- All runs in which every write continues the stream ----------

  ghost predicate Continues(s: System, step: Step) {
    step.WriteFile? && MayUse(s, step.context, Writing) ==> WriteContinues(s, step.context, step.data)
  }

  ghost predicate ContinuedRun(s: System, steps: seq<Step>) {
    steps == [] ||
    (ContinuedRun(s, steps[..|steps| - 1]) && Continues(Run(s, steps[..|steps| - 1]), steps[|steps| - 1]))
  }

  lemma {:induction false} StepKeepsFollowing(s: System, step: Step)
    requires Follows(s) && Continues(s, step)
    ensures Follows(Next(s, step))
  {
    match step
    case OpenFile(mode) => OpenKeepsFollowing(s, mode);
    case ReadFile(c, count) => ReadKeepsFollowing(s, c, count);
    case WriteFile(c, data) => WriteKeepsFollowing(s, c, data);
    case Clear => RestartFollows(s, DEFAULT_KEY);
    case SetKey(raw) => if KeyOf(raw) != [] { RestartFollows(s, KeyOf(raw)); }
  }

  lemma {:induction false} ContinuedRunsFollow(steps: seq<Step>)
    requires ContinuedRun(INITIAL, steps)
    ensures Follows(Run(INITIAL, steps))
  {
    if steps != [] {
      ContinuedRunsFollow(steps[..|steps| - 1]);
      StepKeepsFollowing(Run(INITIAL, steps[..|steps| - 1]), steps[|steps| - 1]);
    }
  }

  /** Since the last reset, every reader has received a prefix of what was written,
      whichever writers wrote it. */
  lemma {:induction false} ContinuedReceivedIsPrefix(steps: seq<Step>, c: nat)
    requires ContinuedRun(INITIAL, steps)
    requires var s := Run(INITIAL, steps); c < |s.device.contexts| && s.device.contexts[c].mode == Reading
    ensures var s := Run(INITIAL, steps); c < |s.received| && s.received[c] <= s.accepted
  {
    ContinuedRunsFollow(steps);
    var s := Run(INITIAL, steps);
    assert ReaderInOrder(s, c);
    if s.device.contexts[c].next.Some? {
      AheadIsRest(s, c);
    }
  }

  /** A read that frees nothing and asks for more than is left gets a reader everything
      written, exactly when it still had a bucket or needed nothing: a reader that opened an
      empty device, already met the end, or was open at a reset gets no later bytes. */
  lemma {:induction false} LongReadCompletesExactly(steps: seq<Step>, c: nat, count: nat)
    requires ContinuedRun(INITIAL, steps)
    requires var s := Run(INITIAL, steps);
             && MayUse(s, c, Reading) && !s.freed && !Next(s, ReadFile(c, count)).freed
             && count > Remaining(s.device, c)
    ensures var s := Run(INITIAL, steps); var t := Next(s, ReadFile(c, count));
            && t.accepted == s.accepted && |t.received| == |s.received|
            && (t.received[c] == t.accepted <==>
                s.device.contexts[c].next.Some? || s.received[c] == s.accepted)
  {
    ContinuedRunsFollow(steps);
    var s := Run(INITIAL, steps);
    assert ReaderInOrder(s, c);
    if s.device.contexts[c].next.Some? {
      ReadContinues(s, c, count);
      assert s.accepted[..|s.accepted|] == s.accepted;
    }
  }

  /** A reader that still has a bucket gets nothing from a read exactly when it already
      received everything written. */
  lemma {:induction false} EmptyReadExactlyAtEnd(steps: seq<Step>, c: nat, count: nat)
    requires ContinuedRun(INITIAL, steps) && count > 0
    requires var s := Run(INITIAL, steps);
             && MayUse(s, c, Reading) && !s.freed && !Next(s, ReadFile(c, count)).freed
             && s.device.contexts[c].next.Some?
    ensures var s := Run(INITIAL, steps); var t := Next(s, ReadFile(c, count));
            && |t.received| == |s.received|
            && (t.received[c] == s.received[c] <==> s.received[c] == s.accepted)
  {
    ContinuedRunsFollow(steps);
    var s := Run(INITIAL, steps);
    assert ReaderInOrder(s, c);
    ReadContinues(s, c, count);
    var at := s.device.contexts[c].keyoff;
    assert |s.received[c]| == at;
    assert s.accepted[..|s.accepted|] == s.accepted;
  }

  // ---------- Reading until 0 ----------

  predicate OpensOrReads(step: Step) {
    step.OpenFile? || step.ReadFile?
  }

  /** Reader c has a bucket, or has received everything. */
  predicate CanComplete(s: System, c: nat) {
    && c < |s.device.contexts| && c < |s.received| && c < |s.requested| && s.device.contexts[c].mode == Reading
    && (s.device.contexts[c].next.Some? || s.received[c] == s.accepted)
  }

  lemma {:induction false} OwnReadCanComplete(s: System, c: nat, count: nat)
    requires Follows(s) && CanComplete(s, c) && !s.freed && !Next(s, ReadFile(c, count)).freed
    ensures CanComplete(Next(s, ReadFile(c, count)), c) && Next(s, ReadFile(c, count)).accepted == s.accepted
    ensures count > 0 ==> (Next(s, ReadFile(c, count)).received[c] == s.received[c] <==> s.received[c] == s.accepted)
  {
    assert ReaderInOrder(s, c);
    if s.device.contexts[c].next.Some? {
      ReadContinues(s, c, count);
      var at := s.device.contexts[c].keyoff;
      assert |s.received[c]| == at && s.accepted[..|s.accepted|] == s.accepted;
    } else {
      assert s.received[c] + [] == s.received[c];
    }
  }

  lemma {:induction false} StepCanComplete(s: System, step: Step, c: nat)
    requires Follows(s) && CanComplete(s, c) && OpensOrReads(step) && !Next(s, step).freed
    ensures Follows(Next(s, step)) && CanComplete(Next(s, step), c) && Next(s, step).accepted == s.accepted
  {
    StepKeepsFollowing(s, step);
    if step.ReadFile? {
      if step.context == c {
        OwnReadCanComplete(s, c, step.count);
      } else if MayUse(s, step.context, Reading) {
        ReadKeepsOthers(s.device, step.context, step.count);
      }
    }
  }

  lemma {:induction false} RunCanComplete(s: System, after: seq<Step>, c: nat)
    requires Follows(s) && CanComplete(s, c) && !Run(s, after).freed
    requires forall n :: 0 <= n < |after| ==> OpensOrReads(after[n])
    ensures var t := Run(s, after); Follows(t) && CanComplete(t, c) && t.accepted == s.accepted
    decreases |after|
  {
    if after != [] {
      var init := after[..|after| - 1];
      RunCanComplete(s, init, c);
      StepCanComplete(Run(s, init), after[|after| - 1], c);
    }
  }

  lemma {:induction false} ReadingAcceptsNothing(s: System, after: seq<Step>)
    requires forall n :: 0 <= n < |after| ==> OpensOrReads(after[n])
    ensures Run(s, after).accepted == s.accepted && (!Run(s, after).freed ==> !ResetDuring(s, after))
    decreases |after|
  {
    if after != [] {
      ReadingAcceptsNothing(s, after[..|after| - 1]);
    }
  }

  /** Writing has finished; anybody opens and reads, and nothing is freed. When a read of
      reader c then returns 0 bytes, it has received everything written, if and only if it
      had a bucket, or everything already, when the writing finished. */
  lemma {:induction false} ReadingUntilEmptyCompletesExactly(before: seq<Step>, after: seq<Step>, c: nat, count: nat)
    requires ContinuedRun(INITIAL, before) && count > 0
    requires forall n :: 0 <= n < |after| ==> OpensOrReads(after[n])
    requires var s := Run(INITIAL, before);
             c < |s.device.contexts| && c < |s.received| && s.device.contexts[c].mode == Reading
    requires var t := Run(Run(INITIAL, before), after);
             && !t.freed && !Next(t, ReadFile(c, count)).freed
             && c < |t.received| && c < |Next(t, ReadFile(c, count)).received|
             && Next(t, ReadFile(c, count)).received[c] == t.received[c]
    ensures var s, t := Run(INITIAL, before), Run(Run(INITIAL, before), after);
            && t.accepted == s.accepted
            && (t.received[c] == t.accepted <==> CanComplete(s, c))
  {
    ContinuedRunsFollow(before);
    RunsKeepAccountsAndQuotas(before);
    var s, t := Run(INITIAL, before), Run(Run(INITIAL, before), after);
    ReadingAcceptsNothing(s, after);
    if CanComplete(s, c) {
      RunCanComplete(s, after, c);
      OwnReadCanComplete(t, c, count);
    } else {
      StrandedReadersStayStranded(before, after, c);
    }
  }
}
