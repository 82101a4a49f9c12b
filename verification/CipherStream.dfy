/** What reading and writing do to the stream a device stores: reads copy and decrypt
    from the cursor, writes encrypt and append. */
module CipherStream {
  import opened Resources
  import opened Keystream
  import opened CipherDevice

  // ---------- Bytes behind a cursor ----------

  ghost predicate SameBytes(bs: seq<Bucket>, cs: seq<Bucket>) {
    |bs| == |cs| && forall k :: 0 <= k < |bs| ==> bs[k].bytes == cs[k].bytes
  }

  lemma {:induction false} TailIgnoresRefcounts(bs: seq<Bucket>, cs: seq<Bucket>, i: nat, off: nat)
    requires SameBytes(bs, cs)
    ensures Tail(bs, i, off) == Tail(cs, i, off)
    decreases |bs| - i
  {
    if i < |bs| {
      TailIgnoresRefcounts(bs, cs, i + 1, 0);
    }
  }

  /** All stored bytes, encrypted. */
  function Stored(d: Device): seq<Byte> {
    Tail(d.buckets, 0, 0)
  }

  /** The plaintext the device stands for. */
  function Plain(d: Device): seq<Byte>
    requires d.key != []
  {
    Xor(Stored(d), d.key, d.keyfirst)
  }

  ghost predicate IsSuffix(t: seq<Byte>, s: seq<Byte>) {
    |t| <= |s| && t == s[|s| - |t|..]
  }

  lemma {:induction false} SuffixTrans(a: seq<Byte>, b: seq<Byte>, c: seq<Byte>)
    requires IsSuffix(a, b) && IsSuffix(b, c)
    ensures IsSuffix(a, c)
  {
    assert c[|c| - |b|..][|b| - |a|..] == c[|c| - |a|..];
  }

  /** A cursor at (i, off) has exactly the end of the stream before it. */
  lemma {:induction false} TailIsSuffix(bs: seq<Bucket>, i: nat, off: nat)
    requires i < |bs| && off <= |bs[i].bytes|
    ensures IsSuffix(Tail(bs, i, off), Tail(bs, 0, 0))
    decreases i
  {
    assert IsSuffix(Tail(bs, i, off), Tail(bs, i, 0));
    if i > 0 {
      TailIsSuffix(bs, i - 1, |bs[i - 1].bytes|);
      assert Tail(bs, i - 1, |bs[i - 1].bytes|) == Tail(bs, i, 0);
      SuffixTrans(Tail(bs, i, off), Tail(bs, i, 0), Tail(bs, 0, 0));
    }
  }

  // ---------- Reading ----------

  /** The reader's cursor is in a bucket, not behind its bytes. */
  predicate Placed(d: Device, c: nat) {
    && InDevice(d, c) && d.contexts[c].next.Some?
    && d.contexts[c].off <= |d.buckets[d.contexts[c].next.value].bytes|
  }

  function Ahead(d: Device, c: nat): seq<Byte>
    requires Placed(d, c)
  {
    Tail(d.buckets, d.contexts[c].next.value, d.contexts[c].off)
  }

  lemma {:induction false} PassKeepsAhead(d: Device, c: nat)
    requires Placed(d, c) && |d.buckets[d.contexts[c].next.value].bytes| == d.contexts[c].off
    ensures InDevice(Pass(d, c), c) && SameBytes(d.buckets, Pass(d, c).buckets)
    ensures if Pass(d, c).contexts[c].next.Some? then Placed(Pass(d, c), c) && Ahead(Pass(d, c), c) == Ahead(d, c)
            else Ahead(d, c) == []
  {
    var i := d.contexts[c].next.value;
    TailIgnoresRefcounts(d.buckets, Pass(d, c).buckets, i + 1, 0);
    assert Tail(d.buckets, i, d.contexts[c].off) == [] + Tail(d.buckets, i + 1, 0);
  }

  lemma {:induction false} AdvanceMovesAhead(d: Device, c: nat, n: nat)
    requires Placed(d, c) && n <= |d.buckets[d.contexts[c].next.value].bytes| - d.contexts[c].off
    ensures Placed(Advance(d, c, n), c)
    ensures var x := d.contexts[c];
            Ahead(d, c) == d.buckets[x.next.value].bytes[x.off..x.off + n] + Ahead(Advance(d, c, n), c)
  {
    var x := d.contexts[c];
    var b := d.buckets[x.next.value].bytes;
    assert b[x.off..] == b[x.off..x.off + n] + b[x.off + n..];
  }

  /** A new reader has the whole stream ahead of it, under the key offset of its start; a new
      writer none of it, under the key offset of its end. */
  lemma {:induction false} OpeningPlacesCursor(d: Device, mode: Mode)
    requires d.buckets != []
    ensures var e, c := Open(d, mode), |d.contexts|;
            && |e.contexts| == c + 1 && e.contexts[..c] == d.contexts
            && e.contexts[c].mode == mode && e.contexts[c].written == 0
            && Placed(e, c) && SameBytes(d.buckets, e.buckets)
            && (mode == Reading ==> Ahead(e, c) == Stored(d) && e.contexts[c].keyoff == d.keyfirst)
            && (mode == Writing ==> Ahead(e, c) == [] && e.contexts[c].keyoff == d.keylast)
  {
    var e := Open(d, mode);
    TailIgnoresRefcounts(d.buckets, e.buckets, 0, 0);
    if mode == Writing {
      assert Tail(e.buckets, |e.buckets|, 0) == [];
    }
  }

  /** What a read that frees nothing leaves of the device: the same bytes, and all other
      contexts as they were. */
  ghost predicate OnlyMoved(d: Device, e: Device, c: nat) {
    && SameBytes(d.buckets, e.buckets)
    && e.key == d.key && e.keyfirst == d.keyfirst && e.keylast == d.keylast
    && |e.contexts| == |d.contexts| && c < |d.contexts|
    && (forall o :: 0 <= o < |d.contexts| && o != c ==> e.contexts[o] == d.contexts[o])
    && e.contexts[c].mode == d.contexts[c].mode && e.contexts[c].written == d.contexts[c].written
  }

  /** A read copies what is ahead of the cursor, decrypted, as far as asked for, and
      leaves the cursor behind it; it leaves the reader without a bucket when there was
      not as much as asked for. */
  ghost predicate ReadsAhead(d: Device, c: nat, count: nat, r: ReadResult)
    requires Placed(d, c) && d.key != []
  {
    var ahead, x := Ahead(d, c), d.contexts[c];
    r.Copied? ==>
      && OnlyMoved(d, r.device, c)
      && r.bytes == Xor(ahead[..Min(count, |ahead|)], d.key, x.keyoff)
      && if count <= |ahead| then
           && Placed(r.device, c) && Ahead(r.device, c) == ahead[count..]
           && r.device.contexts[c].keyoff == x.keyoff + count
         else r.device.contexts[c].next == None
  }

  lemma {:induction false} ReadsAheadAfterCopy(d: Device, c: nat, count: nat, n: nat, r: ReadResult)
    requires Placed(d, c) && d.key != [] && n <= count
    requires n <= |d.buckets[d.contexts[c].next.value].bytes| - d.contexts[c].off
    requires Placed(Advance(d, c, n), c) && ReadsAhead(Advance(d, c, n), c, count - n, r)
    ensures var x := d.contexts[c];
            ReadsAhead(d, c, count,
                       Prepend(Xor(d.buckets[x.next.value].bytes[x.off..x.off + n], d.key, x.keyoff), r))
  {
    AdvanceMovesAhead(d, c, n);
    if r.Copied? {
      var ahead, x, later := Ahead(d, c), d.contexts[c], Ahead(Advance(d, c, n), c);
      var chunk, m := d.buckets[x.next.value].bytes[x.off..x.off + n], Min(count - n, |later|);
      assert ahead == chunk + later;
      assert Min(count, |ahead|) == n + m;
      assert ahead[..n + m] == chunk + later[..m];
      XorConcat(chunk, later[..m], d.key, x.keyoff);
      if count <= |ahead| {
        assert ahead[count..] == later[count - n..];
      }
    }
  }

  lemma {:induction false} ReadCopiesAhead(d: Device, c: nat, count: nat)
    requires Placed(d, c) && d.key != []
    ensures ReadsAhead(d, c, count, Read(d, c, count))
    decreases count, |d.buckets| - d.contexts[c].next.value
  {
    var x := d.contexts[c];
    var b := d.buckets[x.next.value];
    if count == 0 {
      assert Ahead(d, c)[0..] == Ahead(d, c) && Xor(Ahead(d, c)[..0], d.key, x.keyoff) == [];
    } else if |b.bytes| <= x.off {
      if b.refcount != 1 {
        PassKeepsAhead(d, c);
        if Pass(d, c).contexts[c].next.Some? {
          ReadCopiesAhead(Pass(d, c), c, count);
        }
      }
    } else {
      var n := Min(|b.bytes| - x.off, count);
      AdvanceMovesAhead(d, c, n);
      ReadCopiesAhead(Advance(d, c, n), c, count - n);
      ReadsAheadAfterCopy(d, c, count, n, Read(Advance(d, c, n), c, count - n));
    }
  }

  // ---------- QREM agrees with read ----------

  /** If QREM reports r, a read of count bytes that frees nothing returns min(count, r)
      of them, and QREM then reports r - min(count, r). */
  lemma {:induction false} RemainingPredictsRead(d: Device, c: nat, count: nat)
    requires InDevice(d, c) && d.key != [] && d.contexts[c].mode == Reading
    requires d.contexts[c].next.Some? ==> Placed(d, c)
    requires Read(d, c, count).Copied?
    ensures var got, r := Read(d, c, count), Remaining(d, c);
            && c < |got.device.contexts|
            && |got.bytes| == Min(count, r)
            && Remaining(got.device, c) == r - Min(count, r)
  {
    if d.contexts[c].next.Some? {
      ReadCopiesAhead(d, c, count);
    }
  }

  // ---------- Writing ----------

  /** Whatever the writer appends comes behind everything stored. */
  predicate AtEnd(d: Device, c: nat) {
    && InDevice(d, c)
    && (NeedsBucket(d, c) || d.contexts[c].next == Some(|d.buckets| - 1))
  }

  lemma {:induction false} TailOfLongerList(bs: seq<Bucket>, b: Bucket, i: nat, off: nat)
    requires i < |bs|
    ensures Tail(bs + [b], i, off) == Tail(bs, i, off) + b.bytes
    decreases |bs| - i
  {
    if i + 1 < |bs| {
      TailOfLongerList(bs, b, i + 1, 0);
    } else {
      assert Tail(bs + [b], i + 1, 0) == b.bytes + [];
    }
  }

  lemma {:induction false} StoredOfLongerList(bs: seq<Bucket>, b: Bucket)
    ensures Tail(bs + [b], 0, 0) == Tail(bs, 0, 0) + b.bytes
  {
    if bs == [] {
      assert Tail([b], 0, 0) == b.bytes + Tail([b], 1, 0);
    } else {
      TailOfLongerList(bs, b, 0, 0);
    }
  }

  lemma {:induction false} NewBucketStoresNothing(d: Device, c: nat)
    requires InDevice(d, c)
    ensures Stored(NewBucket(d, c)) == Stored(d)
  {
    var e := NewBucket(d, c);
    var kept := e.buckets[..|d.buckets|];
    assert e.buckets == kept + [e.buckets[|d.buckets|]];
    StoredOfLongerList(kept, e.buckets[|d.buckets|]);
    TailIgnoresRefcounts(d.buckets, kept, 0, 0);
  }

  lemma {:induction false} AppendStoresChunk(d: Device, c: nat, chunk: seq<Byte>)
    requires InDevice(d, c) && d.key != [] && d.contexts[c].next == Some(|d.buckets| - 1)
    ensures Stored(Append(d, c, chunk)) == Stored(d) + Xor(chunk, d.key, d.contexts[c].keyoff)
  {
    var last := |d.buckets| - 1;
    var init, b, b' := d.buckets[..last], d.buckets[last], Append(d, c, chunk).buckets[last];
    StoredOfLongerList(init, b);
    StoredOfLongerList(init, b');
    assert d.buckets == init + [b] && Append(d, c, chunk).buckets == init + [b'];
  }

  /** e is d with the data appended, encrypted at the writer's own key offset. */
  ghost predicate Appends(d: Device, c: nat, data: seq<Byte>, e: Device)
    requires c < |d.contexts| && d.key != []
  {
    var x := d.contexts[c];
    && Stored(e) == Stored(d) + Xor(data, d.key, x.keyoff)
    && e.key == d.key && e.keyfirst == d.keyfirst && |e.contexts| == |d.contexts|
    && e.contexts[c].mode == x.mode
    && e.contexts[c].keyoff == x.keyoff + |data|
    && e.contexts[c].written == x.written + |data|
    && (data == [] ==> e.keylast == d.keylast)
    && (data != [] ==> e.keylast == e.contexts[c].keyoff && |e.buckets| > 0
                       && e.contexts[c].next == Some(|e.buckets| - 1))
  }

  lemma {:induction false} RoomAppendsNothing(d: Device, c: nat)
    requires AtEnd(d, c) && d.key != []
    ensures var r := WithRoom(d, c);
            && Appends(d, c, [], r) && r.contexts[c].next == Some(|r.buckets| - 1)
  {
    if NeedsBucket(d, c) {
      NewBucketStoresNothing(d, c);
    }
  }

  lemma {:induction false} Associative(a: seq<Byte>, b: seq<Byte>, c: seq<Byte>)
    ensures (a + b) + c == a + (b + c)
  {
  }

  lemma {:induction false} AppendsAfterChunk(d: Device, c: nat, chunk: seq<Byte>, data: seq<Byte>, e: Device)
    requires InDevice(d, c) && d.key != [] && d.contexts[c].next == Some(|d.buckets| - 1)
    requires chunk != [] && Appends(Append(d, c, chunk), c, data, e)
    requires data == [] ==> e == Append(d, c, chunk)
    ensures Appends(d, c, chunk + data, e)
  {
    AppendStoresChunk(d, c, chunk);
    var off := d.contexts[c].keyoff;
    XorConcat(chunk, data, d.key, off);
    Associative(Stored(d), Xor(chunk, d.key, off), Xor(data, d.key, off + |chunk|));
  }

  lemma {:induction false} PutAppends(d: Device, c: nat, data: seq<Byte>)
    requires AtEnd(d, c) && d.key != []
    ensures Appends(d, c, data, Put(d, c, data))
    ensures data == [] ==> Put(d, c, data) == d
    decreases |data|
  {
    if data != [] {
      RoomAppendsNothing(d, c);
      var r := WithRoom(d, c);
      var n := FirstChunk(d, c, data);
      PutAppends(Append(r, c, data[..n]), c, data[n..]);
      assert data == data[..n] + data[n..];
      AppendsAfterChunk(r, c, data[..n], data[n..], Put(d, c, data));
      assert Stored(r) == Stored(d);
    }
  }
}
