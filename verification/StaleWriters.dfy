/** Writers that are not the latest: where their data goes, when it is still readable, and
    runs in which it is not. */
module StaleWriters {
  import opened Resources
  import opened Keystream
  import opened CipherDevice
  import opened CipherStream

  // ---------- Where a write puts its data ----------

  lemma {:induction false} TailCut(bs: seq<Bucket>, j: nat, i: nat)
    requires j <= i <= |bs|
    ensures Tail(bs, j, 0) == Tail(bs[..i], j, 0) + Tail(bs, i, 0)
    decreases i - j
  {
    if j < i {
      TailCut(bs, j + 1, i);
      Associative(bs[j].bytes, Tail(bs[..i], j + 1, 0), Tail(bs, i, 0));
      assert Tail(bs, j, 0) == bs[j].bytes + Tail(bs, j + 1, 0);
      assert Tail(bs[..i], j, 0) == bs[j].bytes + Tail(bs[..i], j + 1, 0);
    }
  }

  /** The stream is what comes before bucket i, the bucket, and what comes behind it. */
  lemma {:induction false} TailAround(bs: seq<Bucket>, i: nat)
    requires i < |bs|
    ensures Tail(bs, 0, 0) == Tail(bs[..i], 0, 0) + (bs[i].bytes + Tail(bs, i + 1, 0))
  {
    TailCut(bs, 0, i);
    assert Tail(bs, i, 0) == bs[i].bytes + Tail(bs, i + 1, 0);
  }

  /** The stored bytes behind the place where the writer writes next. */
  function Behind(d: Device, c: nat): seq<Byte>
    requires InDevice(d, c)
  {
    if NeedsBucket(d, c) then [] else Tail(d.buckets, d.contexts[c].next.value + 1, 0)
  }

  lemma {:induction false} BehindIsSuffix(d: Device, c: nat)
    requires InDevice(d, c)
    ensures IsSuffix(Behind(d, c), Stored(d))
  {
    if !NeedsBucket(d, c) {
      var i := d.contexts[c].next.value;
      TailCut(d.buckets, 0, i + 1);
    } else {
      assert Stored(d)[|Stored(d)|..] == [];
    }
  }

  /** The stored bytes before that place. */
  function InFront(d: Device, c: nat): seq<Byte>
    requires InDevice(d, c)
  {
    BehindIsSuffix(d, c);
    Stored(d)[..|Stored(d)| - |Behind(d, c)|]
  }

  lemma {:induction false} StoredAround(d: Device, c: nat)
    requires InDevice(d, c)
    ensures Stored(d) == InFront(d, c) + Behind(d, c)
  {
    BehindIsSuffix(d, c);
  }

  lemma {:induction false} InFrontOfRoom(d: Device, c: nat)
    requires InDevice(d, c) && !NeedsBucket(d, c)
    ensures var i := d.contexts[c].next.value;
            InFront(d, c) == Tail(d.buckets[..i], 0, 0) + d.buckets[i].bytes
  {
    var i := d.contexts[c].next.value;
    TailAround(d.buckets, i);
    var a, b, z := Tail(d.buckets[..i], 0, 0), d.buckets[i].bytes, Behind(d, c);
    assert Stored(d) == (a + b) + z;
    BehindIsSuffix(d, c);
    assert Stored(d)[..|a + b|] == a + b;
  }

  lemma {:induction false} TailOfRest(bs: seq<Bucket>, cs: seq<Bucket>, i: nat)
    requires |bs| == |cs| && forall k :: i <= k < |bs| ==> bs[k] == cs[k]
    ensures Tail(bs, i, 0) == Tail(cs, i, 0)
    decreases |bs| - i
  {
    if i < |bs| {
      TailOfRest(bs, cs, i + 1);
    }
  }

  lemma {:induction false} Regroup(a: seq<Byte>, b: seq<Byte>, x: seq<Byte>, z: seq<Byte>)
    ensures a + ((b + x) + z) == ((a + b) + x) + z
  {
  }

  lemma {:induction false} AppendInserts(d: Device, c: nat, chunk: seq<Byte>)
    requires InDevice(d, c) && d.key != [] && !NeedsBucket(d, c)
    ensures Stored(Append(d, c, chunk)) == (InFront(d, c) + Xor(chunk, d.key, d.contexts[c].keyoff)) + Behind(d, c)
  {
    var i, e := d.contexts[c].next.value, Append(d, c, chunk);
    var bytes := Xor(chunk, d.key, d.contexts[c].keyoff);
    InFrontOfRoom(d, c);
    TailAround(e.buckets, i);
    assert e.buckets[..i] == d.buckets[..i] && e.buckets[i].bytes == d.buckets[i].bytes + bytes;
    TailOfRest(d.buckets, e.buckets, i + 1);
    Regroup(Tail(d.buckets[..i], 0, 0), d.buckets[i].bytes, bytes, Behind(d, c));
  }

  /** How much of the data goes where the writer is; the rest goes to new buckets. */
  function Here(d: Device, c: nat, data: seq<Byte>): (n: nat)
    requires InDevice(d, c)
    ensures n <= |data| && (data != [] ==> n > 0)
  {
    if data == [] then 0 else FirstChunk(d, c, data)
  }

  lemma {:induction false} NothingBehind(a: seq<Byte>, x: seq<Byte>, y: seq<Byte>)
    ensures ((a + x) + []) + y == a + (x + y)
  {
  }

  /** e is d with the first n bytes put between InFront and Behind and the rest at the end. */
  ghost predicate Inserts(d: Device, c: nat, data: seq<Byte>, n: nat, e: Device)
    requires InDevice(d, c) && d.key != [] && n <= |data|
  {
    var off := d.contexts[c].keyoff;
    && e.key == d.key && e.keyfirst == d.keyfirst
    && Stored(e) == ((InFront(d, c) + Xor(data[..n], d.key, off)) + Behind(d, c)) + Xor(data[n..], d.key, off + n)
  }

  lemma {:induction false} InFrontOfNothing(d: Device, c: nat)
    requires InDevice(d, c) && Behind(d, c) == []
    ensures InFront(d, c) == Stored(d)
  {
  }

  lemma {:induction false} PutInsertsAtEnd(d: Device, c: nat, data: seq<Byte>, n: nat)
    requires InDevice(d, c) && d.key != [] && NeedsBucket(d, c) && n <= |data|
    ensures Inserts(d, c, data, n, Put(d, c, data))
  {
    var off := d.contexts[c].keyoff;
    PutAppends(d, c, data);
    XorSplit(data, d.key, off, n);
    StoredAround(d, c);
    InFrontOfNothing(d, c);
    NothingBehind(Stored(d), Xor(data[..n], d.key, off), Xor(data[n..], d.key, off + n));
  }

  /** A writer that was not at the end has filled its bucket when data is left over. */
  lemma {:induction false} RestIsAppended(d: Device, c: nat, data: seq<Byte>, n: nat, e: Device)
    requires InDevice(d, c) && d.key != [] && !NeedsBucket(d, c) && data != []
    requires n == FirstChunk(d, c, data) && e == Append(d, c, data[..n])
    ensures Put(d, c, data).key == d.key && Put(d, c, data).keyfirst == d.keyfirst
    ensures Stored(Put(d, c, data)) == Stored(e) + Xor(data[n..], d.key, d.contexts[c].keyoff + n)
  {
    var rest := data[n..];
    assert Put(d, c, data) == Put(e, c, rest);
    if rest == [] {
      assert Put(e, c, rest) == e && Stored(e) + [] == Stored(e);
    } else {
      assert AtEnd(e, c);
      PutAppends(e, c, rest);
    }
  }

  lemma {:induction false} PutInsertsAtRoom(d: Device, c: nat, data: seq<Byte>)
    requires InDevice(d, c) && d.key != [] && !NeedsBucket(d, c) && data != []
    ensures Inserts(d, c, data, FirstChunk(d, c, data), Put(d, c, data))
  {
    var n := FirstChunk(d, c, data);
    AppendInserts(d, c, data[..n]);
    RestIsAppended(d, c, data, n, Append(d, c, data[..n]));
  }

  /** For any writer, latest or not: as much of its data as its bucket takes goes between
      what is in front of its place and what is behind, and the rest goes to the end. */
  lemma {:induction false} PutInserts(d: Device, c: nat, data: seq<Byte>)
    requires InDevice(d, c) && d.key != []
    ensures Inserts(d, c, data, Here(d, c, data), Put(d, c, data))
  {
    if NeedsBucket(d, c) {
      PutInsertsAtEnd(d, c, data, Here(d, c, data));
    } else if data == [] {
      StoredAround(d, c);
      var off := d.contexts[c].keyoff;
      assert Xor(data[..0], d.key, off) == [] && Xor(data[0..], d.key, off + 0) == [];
      assert ((InFront(d, c) + []) + Behind(d, c)) + [] == InFront(d, c) + Behind(d, c);
    } else {
      PutInsertsAtRoom(d, c, data);
    }
  }

  // ---------- When a write extends the plaintext ----------

  /** Nothing is stored behind the place where the writer writes next. */
  predicate AtStreamEnd(d: Device, c: nat) {
    InDevice(d, c) && Behind(d, c) == []
  }

  /** The plaintext of the device grows by exactly the data. */
  predicate Extends(d: Device, c: nat, data: seq<Byte>)
    requires InDevice(d, c) && d.key != []
  {
    var e := Put(d, c, data);
    e.key == d.key && Plain(e) == Plain(d) + data
  }

  lemma {:induction false} InsertsAtStreamEnd(d: Device, c: nat, data: seq<Byte>, n: nat, e: Device)
    requires AtStreamEnd(d, c) && d.key != [] && n <= |data| && Inserts(d, c, data, n, e)
    ensures Stored(e) == Stored(d) + Xor(data, d.key, d.contexts[c].keyoff)
  {
    var off := d.contexts[c].keyoff;
    InFrontOfNothing(d, c);
    XorSplit(data, d.key, off, n);
    InsertedAtTheEnd(Stored(d), InFront(d, c), Xor(data[..n], d.key, off),
                     Behind(d, c), Xor(data[n..], d.key, off + n), Stored(e));
  }

  lemma {:induction false} StoredAtStreamEnd(d: Device, c: nat, data: seq<Byte>)
    requires AtStreamEnd(d, c) && d.key != []
    ensures var e := Put(d, c, data);
            e.key == d.key && e.keyfirst == d.keyfirst
            && Stored(e) == Stored(d) + Xor(data, d.key, d.contexts[c].keyoff)
  {
    PutInserts(d, c, data);
    InsertsAtStreamEnd(d, c, data, Here(d, c, data), Put(d, c, data));
  }

  lemma {:induction false} InsertedAtTheEnd(s: seq<Byte>, front: seq<Byte>, x: seq<Byte>, behind: seq<Byte>,
                                            y: seq<Byte>, r: seq<Byte>)
    requires behind == [] && front == s && r == ((front + x) + behind) + y
    ensures r == s + (x + y)
  {
    NothingBehind(s, x, y);
  }

  lemma {:induction false} PlainAfterPut(d: Device, c: nat, data: seq<Byte>)
    requires AtStreamEnd(d, c) && d.key != []
    ensures Put(d, c, data).key == d.key
    ensures Plain(Put(d, c, data))
            == Plain(d) + Xor(Xor(data, d.key, d.contexts[c].keyoff), d.key, d.keyfirst + |Stored(d)|)
  {
    StoredAtStreamEnd(d, c, data);
    XorConcat(Stored(d), Xor(data, d.key, d.contexts[c].keyoff), d.key, d.keyfirst);
  }

  lemma {:induction false} SamePrefixSameRest(p: seq<Byte>, a: seq<Byte>, b: seq<Byte>)
    ensures p + a == p + b <==> a == b
  {
    assert (p + a)[|p|..] == a && (p + b)[|p|..] == b;
  }

  /** A write at the end of the stream extends the plaintext exactly when the writer's key
      offset yields, for as long as the data, the keystream due there. */
  lemma {:induction false} PutExtendsPlainExactlyWhenAligned(d: Device, c: nat, data: seq<Byte>)
    requires AtStreamEnd(d, c) && d.key != []
    ensures Extends(d, c, data) <==> Aligned(d.key, d.contexts[c].keyoff, d.keyfirst + |Stored(d)|, |data|)
  {
    var used, due := d.contexts[c].keyoff, d.keyfirst + |Stored(d)|;
    PlainAfterPut(d, c, data);
    DecryptsExactlyWhenAligned(data, d.key, used, due);
    SamePrefixSameRest(Plain(d), Xor(Xor(data, d.key, used), d.key, due), data);
  }

  /** A byte that does not encrypt to b. */
  function Unlike(b: Byte, k: Byte): Byte { Mix(Mix(b, k), 1) }

  lemma {:induction false} UnlikeDiffers(b: Byte, k: Byte)
    ensures Mix(Unlike(b, k), k) != b
  {
    assert ((b ^ k) ^ 1) ^ k != b;
  }

  lemma {:induction false} MixKeepsApart(a: Byte, b: Byte, k: Byte)
    requires a != b
    ensures Mix(a, k) != Mix(b, k)
  {
    MixCancels(a, k);
    MixCancels(b, k);
  }

  lemma {:induction false} StoredWhereWritten(d: Device, c: nat, data: seq<Byte>)
    requires InDevice(d, c) && d.key != [] && Behind(d, c) != [] && data != []
    ensures var at, e := |InFront(d, c)|, Put(d, c, data);
            && at < |Stored(d)| && Stored(d)[at] == Behind(d, c)[0]
            && at < |Stored(e)| && Stored(e)[at] == Mix(data[0], KeyByte(d.key, d.contexts[c].keyoff))
            && e.key == d.key && e.keyfirst == d.keyfirst
  {
    PutInserts(d, c, data);
    StoredAround(d, c);
    XorAt(data[..Here(d, c, data)], d.key, d.contexts[c].keyoff, 0);
  }

  /** In the middle of the stream the first byte written takes the place of the one that
      was there; data that encrypts to something else does not extend the plaintext. */
  lemma {:induction false} InsertionDisplaces(d: Device, c: nat, data: seq<Byte>)
    requires InDevice(d, c) && d.key != [] && Behind(d, c) != [] && data != []
    requires Mix(data[0], KeyByte(d.key, d.contexts[c].keyoff)) != Behind(d, c)[0]
    ensures !Extends(d, c, data)
  {
    var at, e := |InFront(d, c)|, Put(d, c, data);
    StoredWhereWritten(d, c, data);
    XorAt(Stored(d), d.key, d.keyfirst, at);
    XorAt(Stored(e), d.key, d.keyfirst, at);
    MixKeepsApart(Stored(e)[at], Stored(d)[at], KeyByte(d.key, d.keyfirst + at));
    assert Plain(e)[at] != Plain(d)[at] && (Plain(d) + data)[at] == Plain(d)[at];
  }

  /** For any writer of a device: all data of a length extends the plaintext if and only if
      nothing is stored behind the writer's place and its key offset yields the keystream
      due at the end for that length. */
  lemma {:induction false} WritesExtendPlainExactly(d: Device, c: nat, length: nat)
    requires InDevice(d, c) && d.key != [] && length > 0
    ensures (forall data: seq<Byte> :: |data| == length ==> Extends(d, c, data))
            <==> AtStreamEnd(d, c) && Aligned(d.key, d.contexts[c].keyoff, d.keyfirst + |Stored(d)|, length)
  {
    if AtStreamEnd(d, c) {
      forall data: seq<Byte> | |data| == length
        ensures Extends(d, c, data) <==> Aligned(d.key, d.contexts[c].keyoff, d.keyfirst + |Stored(d)|, length)
      {
        PutExtendsPlainExactlyWhenAligned(d, c, data);
      }
      var some: seq<Byte> := seq(length, _ => 0);
      assert |some| == length;
    } else {
      var k := KeyByte(d.key, d.contexts[c].keyoff);
      var data: seq<Byte> := seq(length, _ => Unlike(Behind(d, c)[0], k));
      UnlikeDiffers(Behind(d, c)[0], k);
      InsertionDisplaces(d, c, data);
      assert |data| == length;
    }
  }

  /** What a reader that opens now reads, unless it frees a bucket, is the plaintext. */
  lemma {:induction false} NewReaderReadsPlain(d: Device, count: nat)
    requires d.key != []
    ensures var e, c := Open(d, Reading), |d.contexts|;
            && InDevice(e, c) && e.key == d.key
            && (Read(e, c, count).Copied? ==> Read(e, c, count).bytes == Plain(d)[..Min(count, |Plain(d)|)])
  {
    var e, c := Open(d, Reading), |d.contexts|;
    if d.buckets != [] {
      TailIgnoresRefcounts(d.buckets, e.buckets, 0, 0);
      assert Ahead(e, c) == Stored(d);
      ReadCopiesAhead(e, c, count);
      var n := Min(count, |Stored(d)|);
      XorSplit(Stored(d), d.key, d.keyfirst, n);
      assert Plain(d)[..n] == Xor(Stored(d)[..n], d.key, d.keyfirst);
    } else {
      assert Stored(d) == [] && Plain(d)[..0] == [];
    }
  }
}
