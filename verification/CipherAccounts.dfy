/** Who holds which bucket: in every run without a close, each reference count is the
    number of contexts holding the bucket, which decides when a read frees one. */
module CipherAccounts {
  import opened Resources
  import opened Keystream
  import opened CipherDevice
  import opened CipherStream

  function HolderCount(cs: seq<Context>, k: nat): nat {
    if cs == [] then 0 else (if k in cs[0].holds then 1 else 0) + HolderCount(cs[1..], k)
  }

  // ---------- Counting ----------

  lemma {:induction false} CountOfUpdate(cs: seq<Context>, c: nat, x: Context, k: nat)
    requires c < |cs|
    ensures HolderCount(cs[c := x], k)
            == HolderCount(cs, k) - (if k in cs[c].holds then 1 else 0) + (if k in x.holds then 1 else 0)
  {
    if c == 0 {
      assert cs[0 := x][1..] == cs[1..];
    } else {
      assert cs[c := x][1..] == cs[1..][c - 1 := x];
      CountOfUpdate(cs[1..], c - 1, x, k);
    }
  }

  lemma {:induction false} CountOfNewContext(cs: seq<Context>, x: Context, k: nat)
    ensures HolderCount(cs + [x], k) == HolderCount(cs, k) + if k in x.holds then 1 else 0
  {
    if cs == [] {
      assert [x][1..] == [];
    } else {
      assert (cs + [x])[1..] == cs[1..] + [x];
      CountOfNewContext(cs[1..], x, k);
    }
  }

  /** Contexts that differ in nothing but buckets other than k hold k alike. */
  lemma {:induction false} CountOfAlike(cs: seq<Context>, ds: seq<Context>, k: nat)
    requires |cs| == |ds| && forall i :: 0 <= i < |cs| ==> (k in cs[i].holds <==> k in ds[i].holds)
    ensures HolderCount(cs, k) == HolderCount(ds, k)
  {
    if cs != [] {
      CountOfAlike(cs[1..], ds[1..], k);
    }
  }

  lemma {:induction false} CountOfReaders(cs: seq<Context>, k: nat)
    requires forall i :: 0 <= i < |cs| ==> (k in cs[i].holds <==> cs[i].mode == Reading)
    ensures HolderCount(cs, k) == Readers(cs)
  {
    if cs != [] {
      CountOfReaders(cs[1..], k);
    }
  }

  lemma {:induction false} SoleHolder(cs: seq<Context>, c: nat, k: nat)
    requires c < |cs| && k in cs[c].holds
    ensures HolderCount(cs, k) >= 1
    ensures HolderCount(cs, k) == 1 <==> forall o :: 0 <= o < |cs| && o != c ==> k !in cs[o].holds
    decreases |cs|
  {
    if c > 0 {
      SoleHolder(cs[1..], c - 1, k);
      assert cs[1..][c - 1] == cs[c];
      assert forall o :: 0 < o < |cs| ==> cs[o] == cs[1..][o - 1];
      assert forall o :: 0 <= o < |cs| - 1 ==> cs[1..][o] == cs[o + 1];
    } else {
      NobodyHolds(cs[1..], k);
      assert forall o :: 0 < o < |cs| ==> cs[o] == cs[1..][o - 1];
      assert forall o :: 0 <= o < |cs| - 1 ==> cs[1..][o] == cs[o + 1];
    }
  }

  lemma {:induction false} NobodyHolds(cs: seq<Context>, k: nat)
    ensures HolderCount(cs, k) == 0 <==> forall o :: 0 <= o < |cs| ==> k !in cs[o].holds
  {
    if cs != [] {
      NobodyHolds(cs[1..], k);
      assert forall o :: 0 < o < |cs| ==> cs[o] == cs[1..][o - 1];
      assert forall o :: 0 <= o < |cs| - 1 ==> cs[1..][o] == cs[o + 1];
    }
  }

  // ---------- The accounting invariant ----------

  /** A reader in bucket i holds exactly the buckets from i on; a writer holds its own. */
  predicate HoldsRightly(d: Device, x: Context) {
    && (forall k :: k in x.holds ==> k < |d.buckets|)
    && match x.next
       case None => true
       case Some(i) => i < |d.buckets| && (if x.mode == Reading then x.holds == Range(i, |d.buckets|) else i in x.holds)
  }

  /** The last bucket is still the one its writer is in. */
  ghost predicate LastIsWritten(d: Device) {
    |d.buckets| > 0 ==>
      exists c :: 0 <= c < |d.contexts| && d.contexts[c].mode == Writing && d.contexts[c].next == Some(|d.buckets| - 1)
  }

  ghost predicate Accounted(d: Device) {
    && (forall c :: 0 <= c < |d.contexts| ==> HoldsRightly(d, d.contexts[c]))
    && (forall k :: 0 <= k < |d.buckets| ==> d.buckets[k].refcount == HolderCount(d.contexts, k))
    && LastIsWritten(d)
  }

  lemma {:induction false} OpenKeepsAccounts(d: Device, mode: Mode)
    requires Accounted(d)
    ensures Accounted(Open(d, mode))
  {
    var e := Open(d, mode);
    var n := |d.buckets|;
    forall k | 0 <= k < n ensures e.buckets[k].refcount == HolderCount(e.contexts, k) {
      CountOfNewContext(d.contexts, NewContext(d, mode), k);
    }
    forall c | 0 <= c < |e.contexts| ensures HoldsRightly(e, e.contexts[c]) {
      assert c < |d.contexts| ==> HoldsRightly(d, d.contexts[c]);
    }
    if n > 0 {
      var c :| 0 <= c < |d.contexts| && d.contexts[c].mode == Writing && d.contexts[c].next == Some(n - 1);
      assert e.contexts[c] == d.contexts[c];
    }
  }

  lemma {:induction false} PassKeepsAccounts(d: Device, c: nat)
    requires Accounted(d) && InDevice(d, c) && d.contexts[c].next.Some? && d.contexts[c].mode == Reading
    ensures InDevice(Pass(d, c), c) && Accounted(Pass(d, c))
  {
    var e, i := Pass(d, c), d.contexts[c].next.value;
    assert HoldsRightly(d, d.contexts[c]);
    forall k | 0 <= k < |e.buckets| ensures e.buckets[k].refcount == HolderCount(e.contexts, k) {
      CountOfUpdate(d.contexts, c, e.contexts[c], k);
    }
    forall o | 0 <= o < |e.contexts| ensures HoldsRightly(e, e.contexts[o]) {
      assert HoldsRightly(d, d.contexts[o]);
      if o == c {
        assert e.contexts[c].holds == Range(i + 1, |d.buckets|);
      }
    }
    var w :| 0 <= w < |d.contexts| && d.contexts[w].mode == Writing && d.contexts[w].next == Some(|d.buckets| - 1);
    assert e.contexts[w] == d.contexts[w];
  }

  lemma {:induction false} AdvanceKeepsAccounts(d: Device, c: nat, n: nat)
    requires Accounted(d) && InDevice(d, c)
    ensures Accounted(Advance(d, c, n))
  {
    var e := Advance(d, c, n);
    forall k | 0 <= k < |e.buckets| ensures e.buckets[k].refcount == HolderCount(e.contexts, k) {
      CountOfUpdate(d.contexts, c, e.contexts[c], k);
    }
    forall o | 0 <= o < |e.contexts| ensures HoldsRightly(e, e.contexts[o]) {
      assert HoldsRightly(d, d.contexts[o]);
    }
    if |d.buckets| > 0 {
      var w :| 0 <= w < |d.contexts| && d.contexts[w].mode == Writing && d.contexts[w].next == Some(|d.buckets| - 1);
      assert e.contexts[w].mode == Writing && e.contexts[w].next == d.contexts[w].next;
    }
  }

  // ---------- When a read frees a bucket ----------

  /** The bytes between a reader's cursor and the end of bucket k. */
  function Between(d: Device, c: nat, k: nat): int
    requires Placed(d, c)
  {
    |Ahead(d, c)| - |Tail(d.buckets, k + 1, 0)|
  }

  /** A read of count bytes moves on from bucket k: it still wants more at its end. */
  predicate Crosses(d: Device, c: nat, count: nat, k: nat)
    requires Placed(d, c)
  {
    d.contexts[c].next.value <= k < |d.buckets| && Between(d, c, k) < count
  }

  lemma {:induction false} PassCrosses(d: Device, c: nat, count: nat, k: nat)
    requires Placed(d, c) && d.contexts[c].off == |d.buckets[d.contexts[c].next.value].bytes| && count > 0
    ensures var i, e := d.contexts[c].next.value, Pass(d, c);
            Crosses(d, c, count, k) <==> k == i || (e.contexts[c].next.Some? && Placed(e, c) && Crosses(e, c, count, k))
  {
    PassKeepsAhead(d, c);
    TailIgnoresRefcounts(d.buckets, Pass(d, c).buckets, k + 1, 0);
  }

  lemma {:induction false} TailShrinks(bs: seq<Bucket>, i: nat, j: nat)
    requires i <= j
    ensures |Tail(bs, j, 0)| <= |Tail(bs, i, 0)|
    decreases j - i
  {
    if i < j {
      TailShrinks(bs, i + 1, j);
    }
  }

  lemma {:induction false} AdvanceCrosses(d: Device, c: nat, n: nat, count: nat, k: nat)
    requires Placed(d, c) && n <= count && n <= |d.buckets[d.contexts[c].next.value].bytes| - d.contexts[c].off
    ensures Placed(Advance(d, c, n), c)
    ensures Crosses(d, c, count, k) <==> Crosses(Advance(d, c, n), c, count - n, k)
  {
    AdvanceMovesAhead(d, c, n);
  }

  /** A read frees a bucket exactly when it moves on from one whose last share is its own. */
  lemma {:induction false} ReadFreesExactly(d: Device, c: nat, count: nat)
    requires Placed(d, c) && d.key != []
    ensures Read(d, c, count).Freed? <==>
            exists k: nat :: k < |d.buckets| && Crosses(d, c, count, k) && d.buckets[k].refcount == 1
    decreases count, |d.buckets| - d.contexts[c].next.value
  {
    var x := d.contexts[c];
    var i := x.next.value;
    var b := d.buckets[i];
    if count == 0 || |b.bytes| - x.off >= count {
      forall k: nat | k < |d.buckets| && Crosses(d, c, count, k) ensures false {
        TailShrinks(d.buckets, i + 1, k + 1);
      }
      if count > 0 {
        assert Read(Advance(d, c, count), c, 0).Copied?;
      }
    } else if |b.bytes| <= x.off {
      PassCrosses(d, c, count, i);
      if b.refcount != 1 {
        var e := Pass(d, c);
        PassKeepsAhead(d, c);
        forall k: nat
          ensures Crosses(d, c, count, k) <==>
                  k == i || (e.contexts[c].next.Some? && Placed(e, c) && Crosses(e, c, count, k))
        {
          PassCrosses(d, c, count, k);
        }
        if e.contexts[c].next.Some? {
          ReadFreesExactly(e, c, count);
          assert !Crosses(e, c, count, i);
        }
      }
    } else {
      var n := |b.bytes| - x.off;
      forall k: nat
        ensures Placed(Advance(d, c, n), c) && (Crosses(d, c, count, k) <==> Crosses(Advance(d, c, n), c, count - n, k))
      {
        AdvanceCrosses(d, c, n, count, k);
      }
      ReadFreesExactly(Advance(d, c, n), c, count - n);
    }
  }

  /** In an accounted device, a read frees a bucket exactly when it moves on from one
      that no other context holds; that is never the last one. */
  lemma {:induction false} ReadFreesOnlySolelyHeld(d: Device, c: nat, count: nat)
    requires Accounted(d) && Placed(d, c) && d.key != [] && d.contexts[c].mode == Reading
    ensures Read(d, c, count).Freed? <==>
            exists k: nat :: k + 1 < |d.buckets| && Crosses(d, c, count, k)
                             && forall o :: 0 <= o < |d.contexts| && o != c ==> k !in d.contexts[o].holds
  {
    ReadFreesExactly(d, c, count);
    assert HoldsRightly(d, d.contexts[c]);
    forall k: nat | k < |d.buckets| && Crosses(d, c, count, k)
      ensures d.buckets[k].refcount == 1 <==> forall o :: 0 <= o < |d.contexts| && o != c ==> k !in d.contexts[o].holds
      ensures d.buckets[k].refcount == 1 ==> k + 1 < |d.buckets|
    {
      SoleHolder(d.contexts, c, k);
      var w :| 0 <= w < |d.contexts| && d.contexts[w].mode == Writing && d.contexts[w].next == Some(|d.buckets| - 1);
      assert HoldsRightly(d, d.contexts[w]);
    }
  }

  lemma {:induction false} ReadKeepsAccounts(d: Device, c: nat, count: nat)
    requires Accounted(d) && InDevice(d, c) && d.key != [] && d.contexts[c].mode == Reading
    ensures var r := Read(d, c, count);
            r.Copied? ==> Accounted(r.device) && |r.device.contexts| == |d.contexts| && r.device.key == d.key
    decreases count, if d.contexts[c].next.Some? then |d.buckets| - d.contexts[c].next.value else 0
  {
    var x := d.contexts[c];
    if count > 0 && x.next.Some? {
      var b := d.buckets[x.next.value];
      if |b.bytes| <= x.off {
        if b.refcount != 1 {
          PassKeepsAccounts(d, c);
          ReadKeepsAccounts(Pass(d, c), c, count);
        }
      } else {
        var n := Min(|b.bytes| - x.off, count);
        AdvanceKeepsAccounts(d, c, n);
        ReadKeepsAccounts(Advance(d, c, n), c, count - n);
      }
    }
  }

  // ---------- Writing ----------

  /** An old bucket loses the writer's share when the writer was in it. */
  lemma {:induction false} SharesOfOldBucket(d: Device, c: nat, k: nat)
    requires Accounted(d) && InDevice(d, c) && k < |d.buckets|
    ensures HolderCount(Shared(d.contexts, c, |d.buckets|), k)
            == HolderCount(d.contexts, k) - if d.contexts[c].next == Some(k) && k in d.contexts[c].holds then 1 else 0
  {
    var shared := Shared(d.contexts, c, |d.buckets|);
    CountOfUpdate(d.contexts, c, shared[c], k);
    CountOfAlike(d.contexts[c := shared[c]], shared, k);
  }

  /** The new bucket is shared by all readers and its writer. */
  lemma {:induction false} SharesOfNewBucket(d: Device, c: nat)
    requires Accounted(d) && InDevice(d, c) && d.contexts[c].mode == Writing
    ensures HolderCount(Shared(d.contexts, c, |d.buckets|), |d.buckets|) == 1 + Readers(d.contexts)
  {
    var n := |d.buckets|;
    var shared := Shared(d.contexts, c, n);
    var without := shared[c := shared[c].(holds := {})];
    forall i | 0 <= i < |without|
      ensures n in without[i].holds <==> without[i].mode == Reading
      ensures without[i].mode == d.contexts[i].mode
    {
      assert HoldsRightly(d, d.contexts[i]);
    }
    CountOfReaders(without, n);
    CountOfUpdate(without, c, shared[c], n);
    assert without[c := shared[c]] == shared;
    ReadersOfSameModes(without, d.contexts);
  }

  lemma {:induction false} NewBucketKeepsAccounts(d: Device, c: nat)
    requires Accounted(d) && InDevice(d, c) && d.contexts[c].mode == Writing
    ensures Accounted(NewBucket(d, c))
  {
    var e, n := NewBucket(d, c), |d.buckets|;
    forall o | 0 <= o < |e.contexts| ensures HoldsRightly(e, e.contexts[o]) {
      assert HoldsRightly(d, d.contexts[o]);
      if o != c && e.contexts[o].mode == Reading && e.contexts[o].next.Some? {
        assert e.contexts[o].holds == Range(e.contexts[o].next.value, n + 1);
      }
    }
    forall k | 0 <= k <= n ensures e.buckets[k].refcount == HolderCount(e.contexts, k) {
      assert HoldsRightly(d, d.contexts[c]);
      if k < n {
        SharesOfOldBucket(d, c, k);
      } else {
        SharesOfNewBucket(d, c);
      }
    }
    assert e.contexts[c].mode == Writing && e.contexts[c].next == Some(|e.buckets| - 1);
  }

  lemma {:induction false} ReadersOfSameModes(cs: seq<Context>, ds: seq<Context>)
    requires |cs| == |ds| && forall i :: 0 <= i < |cs| ==> cs[i].mode == ds[i].mode
    ensures Readers(cs) == Readers(ds)
  {
    if cs != [] {
      ReadersOfSameModes(cs[1..], ds[1..]);
    }
  }

  lemma {:induction false} AppendKeepsAccounts(d: Device, c: nat, chunk: seq<Byte>)
    requires Accounted(d) && InDevice(d, c) && d.contexts[c].next.Some? && d.key != []
    ensures Accounted(Append(d, c, chunk))
  {
    var e := Append(d, c, chunk);
    forall k | 0 <= k < |e.buckets| ensures e.buckets[k].refcount == HolderCount(e.contexts, k) {
      CountOfUpdate(d.contexts, c, e.contexts[c], k);
    }
    forall o | 0 <= o < |e.contexts| ensures HoldsRightly(e, e.contexts[o]) {
      assert HoldsRightly(d, d.contexts[o]);
    }
    var w :| 0 <= w < |d.contexts| && d.contexts[w].mode == Writing && d.contexts[w].next == Some(|d.buckets| - 1);
    assert e.contexts[w].mode == Writing && e.contexts[w].next == d.contexts[w].next;
  }

  lemma {:induction false} PutKeepsAccounts(d: Device, c: nat, data: seq<Byte>)
    requires Accounted(d) && InDevice(d, c) && d.contexts[c].mode == Writing && d.key != []
    ensures Accounted(Put(d, c, data))
    decreases |data|
  {
    if data != [] {
      if NeedsBucket(d, c) {
        NewBucketKeepsAccounts(d, c);
      }
      var r := WithRoom(d, c);
      var n := FirstChunk(d, c, data);
      AppendKeepsAccounts(r, c, data[..n]);
      PutKeepsAccounts(Append(r, c, data[..n]), c, data[n..]);
    }
  }

  lemma {:induction false} ResetKeepsAccounts(d: Device, key: seq<Byte>)
    ensures Accounted(Reset(d, key))
  {
  }
}
