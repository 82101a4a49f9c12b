/** Exactly which buckets each context has a share in, and whom that protects: a stranded
    reader keeps every bucket made after it lost its own from ever being freed. */
module CipherHolders {
  import opened Resources
  import opened Keystream
  import opened CipherDevice
  import opened CipherStream
  import opened CipherAccounts
  import opened CipherRuns

  // ---------- What every context holds ----------

  /** Of n buckets, a reader holds those from its own on, or from m on when it has none; a
      writer holds its own, and those before m that were there, in front of its own, when
      it opened. */
  predicate HoldsFrom(x: Context, m: nat, n: nat) {
    match x.mode
    case Reading =>
      (match x.next
       case None => m <= n && x.holds == Range(m, n)
       case Some(i) => i < n && x.holds == Range(i, n))
    case Writing =>
      (match x.next
       case None => x.holds == {}
       case Some(i) => m <= i < n && x.holds == Range(0, m) + {i})
  }

  ghost predicate HoldsExactly(x: Context, n: nat) {
    exists m: nat :: HoldsFrom(x, m, n)
  }

  ghost predicate AllHoldExactly(d: Device) {
    forall c :: 0 <= c < |d.contexts| ==> HoldsExactly(d.contexts[c], |d.buckets|)
  }

  lemma {:induction false} OpenHoldsExactly(d: Device, mode: Mode)
    requires AllHoldExactly(d)
    ensures AllHoldExactly(Open(d, mode))
  {
    var x, n := NewContext(d, mode), |d.buckets|;
    var m := if mode == Writing && n > 0 then n - 1 else 0;
    assert HoldsFrom(x, m, n);
    assert |Open(d, mode).buckets| == n;
  }

  lemma {:induction false} PassHoldsExactly(d: Device, c: nat)
    requires AllHoldExactly(d) && InDevice(d, c) && d.contexts[c].next.Some? && d.contexts[c].mode == Reading
    ensures InDevice(Pass(d, c), c) && AllHoldExactly(Pass(d, c))
  {
    var n, x := |d.buckets|, Pass(d, c).contexts[c];
    assert HoldsExactly(d.contexts[c], n);
    assert HoldsFrom(x, n, n);
  }

  lemma {:induction false} AdvanceHoldsExactly(d: Device, c: nat, n: nat)
    requires AllHoldExactly(d) && InDevice(d, c)
    ensures AllHoldExactly(Advance(d, c, n))
  {
    assert HoldsExactly(d.contexts[c], |d.buckets|);
    var m: nat :| HoldsFrom(d.contexts[c], m, |d.buckets|);
    assert HoldsFrom(Advance(d, c, n).contexts[c], m, |d.buckets|);
  }

  lemma {:induction false} ReadHoldsExactly(d: Device, c: nat, count: nat)
    requires AllHoldExactly(d) && InDevice(d, c) && d.key != [] && d.contexts[c].mode == Reading
    ensures Read(d, c, count).Copied? ==> AllHoldExactly(Read(d, c, count).device)
    decreases count, if d.contexts[c].next.Some? then |d.buckets| - d.contexts[c].next.value else 0
  {
    var x := d.contexts[c];
    if count > 0 && x.next.Some? {
      var b := d.buckets[x.next.value];
      if |b.bytes| <= x.off {
        if b.refcount != 1 {
          PassHoldsExactly(d, c);
          ReadHoldsExactly(Pass(d, c), c, count);
        }
      } else {
        var n := Min(|b.bytes| - x.off, count);
        AdvanceHoldsExactly(d, c, n);
        ReadHoldsExactly(Advance(d, c, n), c, count - n);
      }
    }
  }

  lemma {:induction false} RangeGrows(lo: nat, hi: nat)
    requires lo <= hi
    ensures Range(lo, hi) + {hi} == Range(lo, hi + 1)
  {
  }

  lemma {:induction false} SharedHoldsExactly(d: Device, c: nat, o: nat)
    requires AllHoldExactly(d) && InDevice(d, c) && d.contexts[c].mode == Writing && o < |d.contexts|
    ensures HoldsExactly(Shared(d.contexts, c, |d.buckets|)[o], |d.buckets| + 1)
  {
    var n, x, y := |d.buckets|, d.contexts[o], Shared(d.contexts, c, |d.buckets|)[o];
    assert HoldsExactly(x, n);
    var m: nat :| HoldsFrom(x, m, n);
    if o == c {
      if x.next == None {
        assert y.holds == Range(0, 0) + {n};
        assert HoldsFrom(y, 0, n + 1);
      } else {
        assert y.holds == Range(0, m) + {n};
        assert HoldsFrom(y, m, n + 1);
      }
    } else {
      if x.mode == Reading {
        RangeGrows(if x.next == None then m else x.next.value, n);
      }
      assert HoldsFrom(y, m, n + 1);
    }
  }

  lemma {:induction false} NewBucketHoldsExactly(d: Device, c: nat)
    requires AllHoldExactly(d) && InDevice(d, c) && d.contexts[c].mode == Writing
    ensures AllHoldExactly(NewBucket(d, c))
  {
    forall o: nat | o < |d.contexts|
      ensures HoldsExactly(NewBucket(d, c).contexts[o], |d.buckets| + 1)
    {
      SharedHoldsExactly(d, c, o);
    }
  }

  lemma {:induction false} AppendHoldsExactly(d: Device, c: nat, chunk: seq<Byte>)
    requires AllHoldExactly(d) && InDevice(d, c) && d.contexts[c].next.Some? && d.key != []
    ensures AllHoldExactly(Append(d, c, chunk))
  {
    assert HoldsExactly(d.contexts[c], |d.buckets|);
    var m: nat :| HoldsFrom(d.contexts[c], m, |d.buckets|);
    assert HoldsFrom(Append(d, c, chunk).contexts[c], m, |d.buckets|);
  }

  lemma {:induction false} PutHoldsExactly(d: Device, c: nat, data: seq<Byte>)
    requires AllHoldExactly(d) && InDevice(d, c) && d.contexts[c].mode == Writing && d.key != []
    ensures AllHoldExactly(Put(d, c, data))
    decreases |data|
  {
    if data != [] {
      var r, n := WithRoom(d, c), FirstChunk(d, c, data);
      if NeedsBucket(d, c) {
        NewBucketHoldsExactly(d, c);
      }
      AppendHoldsExactly(r, c, data[..n]);
      PutHoldsExactly(Append(r, c, data[..n]), c, data[n..]);
    }
  }

  lemma {:induction false} ResetHoldsExactly(d: Device, key: seq<Byte>)
    ensures AllHoldExactly(Reset(d, key))
  {
    forall c | 0 <= c < |d.contexts| ensures HoldsExactly(Reset(d, key).contexts[c], 0) {
      assert HoldsFrom(Reset(d, key).contexts[c], 0, 0);
    }
  }

  /** In every run, what each context holds is known exactly. */
  lemma {:induction false} RunsHoldExactly(steps: seq<Step>)
    ensures AllHoldExactly(Run(INITIAL, steps).device)
  {
    if steps != [] {
      var init, step := steps[..|steps| - 1], steps[|steps| - 1];
      RunsHoldExactly(init);
      var s := Run(INITIAL, init);
      match step
      case OpenFile(mode) => OpenHoldsExactly(s.device, mode);
      case ReadFile(c, count) =>
        if MayUse(s, c, Reading) {
          ReadHoldsExactly(s.device, c, count);
        }
      case WriteFile(c, data) =>
        if MayUse(s, c, Writing) {
          PutHoldsExactly(s.device, c, data[..Admitted(s.device, c, |data|)]);
        }
      case Clear => ResetHoldsExactly(s.device, DEFAULT_KEY);
      case SetKey(raw) => ResetHoldsExactly(s.device, KeyOf(raw));
    }
  }

  // ---------- Whom a stranded reader protects ----------

  /** Context c holds every bucket from m on. */
  predicate HoldsAllFrom(d: Device, c: nat, m: nat)
    requires c < |d.contexts|
  {
    m <= |d.buckets| && forall k :: m <= k < |d.buckets| ==> k in d.contexts[c].holds
  }

  lemma {:induction false} PutSharesWithReader(d: Device, c: nat, data: seq<Byte>, o: nat, m: nat)
    requires InDevice(d, c) && d.key != [] && o != c && o < |d.contexts| && d.contexts[o].mode == Reading
    requires HoldsAllFrom(d, o, m)
    ensures o < |Put(d, c, data).contexts| && HoldsAllFrom(Put(d, c, data), o, m)
    decreases |data|
  {
    if data != [] {
      var n := FirstChunk(d, c, data);
      PutSharesWithReader(Append(WithRoom(d, c), c, data[..n]), c, data[n..], o, m);
    }
  }

  lemma {:induction false} StrandedKeepsHolding(t: System, step: Step, c: nat, m: nat)
    requires Kept(t) && Stranded(t, c) && HoldsAllFrom(t.device, c, m) && (IsReset(step) ==> t.freed)
    ensures c < |Next(t, step).device.contexts| && HoldsAllFrom(Next(t, step).device, c, m)
  {
    match step
    case ReadFile(o, count) =>
      if MayUse(t, o, Reading) && Read(t.device, o, count).Copied? {
        ReadKeepsOthers(t.device, o, count);
      }
    case WriteFile(o, data) =>
      if MayUse(t, o, Writing) {
        PutSharesWithReader(t.device, o, data[..Admitted(t.device, o, |data|)], c, m);
      }
    case _ =>
  }

  /** Until the next reset, a stranded reader has a share in every bucket made after it was
      seen without one. */
  lemma {:induction false} StrandedHoldsLaterBuckets(before: seq<Step>, after: seq<Step>, c: nat)
    requires Stranded(Run(INITIAL, before), c) && !ResetDuring(Run(INITIAL, before), after)
    ensures var s, t := Run(INITIAL, before), Run(Run(INITIAL, before), after);
            && Stranded(t, c) && Kept(t) && HoldsAllFrom(t.device, c, |s.device.buckets|)
    decreases |after|
  {
    StrandedReadersStayStranded(before, after, c);
    if after != [] {
      var init, step := after[..|after| - 1], after[|after| - 1];
      StrandedHoldsLaterBuckets(before, init, c);
      StrandedKeepsHolding(Run(Run(INITIAL, before), init), step, c, |Run(INITIAL, before).device.buckets|);
    }
  }

  lemma {:induction false} RunOfBoth(s: System, before: seq<Step>, after: seq<Step>)
    ensures Run(s, before + after) == Run(Run(s, before), after)
    decreases |after|
  {
    if after == [] {
      assert before + after == before;
    } else {
      var init := after[..|after| - 1];
      assert (before + after)[..|before + after| - 1] == before + init;
      RunOfBoth(s, before, init);
    }
  }

  /** So no read frees such a bucket: what a read frees is older than the moment the reader
      was stranded. A reader that opened an empty device thus protects every bucket. */
  lemma {:induction false} StrandedReaderProtectsLaterBuckets(before: seq<Step>, after: seq<Step>, c: nat, o: nat,
                                                              count: nat)
    requires Stranded(Run(INITIAL, before), c) && !ResetDuring(Run(INITIAL, before), after)
    requires var t := Run(Run(INITIAL, before), after);
             !t.freed && MayUse(t, o, Reading) && t.device.contexts[o].next.Some?
    ensures var s, t := Run(INITIAL, before), Run(Run(INITIAL, before), after);
            && Placed(t.device, o)
            && (Next(t, ReadFile(o, count)).freed <==>
                exists k: nat :: k < |s.device.buckets| && k + 1 < |t.device.buckets| && Crosses(t.device, o, count, k)
                  && forall p :: 0 <= p < |t.device.contexts| && p != o ==> k !in t.device.contexts[p].holds)
  {
    StrandedHoldsLaterBuckets(before, after, c);
    RunOfBoth(INITIAL, before, after);
    RunsFreeExactly(before + after, o, count);
  }
}
