/** The cipher device in place: a linked list of bucket nodes and a list of contexts
    that point into it. Every method is proved against its meaning on values. */
module CipherDriver {
  import opened Resources
  import opened Keystream
  import opened CipherDevice
  import CipherRuns

  class BucketNode {
    const buffer: array<Byte>
    var end: nat
    var refcount: int
    var succ: BucketNode?
    ghost const pos: nat  // its place in the list

    constructor (refcount: int, ghost pos: nat)
      ensures this.refcount == refcount && this.pos == pos && end == 0 && succ == null
      ensures fresh(buffer) && buffer.Length == BUCKET_SIZE
    {
      buffer := new Byte[BUCKET_SIZE](_ => 0);
      this.end, this.refcount, this.succ, this.pos := 0, refcount, null, pos;
    }

    /** memcpy to the end of the buffer. */
    method Store(bytes: seq<Byte>)
      requires end + |bytes| <= buffer.Length
      modifies this`end, buffer
      ensures end == old(end) + |bytes| && buffer[..end] == old(buffer[..end]) + bytes
    {
      forall i | 0 <= i < |bytes| {
        buffer[end + i] := bytes[i];
      }
      end := end + |bytes|;
    }

    ghost predicate Is(b: Bucket)
      reads this`end, this`refcount, buffer
    {
      buffer.Length == BUCKET_SIZE && end <= BUCKET_SIZE && buffer[..end] == b.bytes && refcount == b.refcount
    }
  }

  class FileContext {
    const mode: Mode
    var next: BucketNode?
    var off: nat
    var keyoff: nat
    var written: nat
    ghost var holds: set<nat>
    ghost const place: nat  // its place among the contexts

    constructor (mode: Mode, next: BucketNode?, off: nat, keyoff: nat, ghost holds: set<nat>, ghost place: nat)
      ensures this.place == place
      ensures Value() == Context(mode, if next == null then None else Some(next.pos), off, keyoff, 0, holds)
      ensures this.next == next
    {
      this.mode, this.next, this.off, this.keyoff, this.written := mode, next, off, keyoff, 0;
      this.holds, this.place := holds, place;
    }

    method Move(next: BucketNode?, off: nat, keyoff: nat, ghost holds: set<nat>)
      modifies `next, `off, `keyoff, `holds
      ensures this.next == next
      ensures Value() == old(Value()).(next := if next == null then None else Some(next.pos),
                                       off := off, keyoff := keyoff, holds := holds)
    {
      this.next, this.off, this.keyoff, this.holds := next, off, keyoff, holds;
    }

    /** The effect of having written n more bytes. */
    method Wrote(n: nat)
      modifies `keyoff, `written
      ensures next == old(next)
      ensures Value() == old(Value()).(keyoff := old(keyoff) + n, written := old(written) + n)
    {
      keyoff, written := keyoff + n, written + n;
    }

    method Reset()
      modifies this
      ensures next == null && Value() == Context(mode, None, 0, 0, 0, {})
    {
      next, off, keyoff, written, holds := null, 0, 0, 0, {};
    }

    ghost function Value(): Context
      reads this
    {
      Context(mode, if next == null then None else Some(next.pos), off, keyoff, written, holds)
    }
  }

  datatype Access = ReadOnly | WriteOnly | ReadWrite

  class CipherDriver {
    var head: BucketNode?
    var last: BucketNode?
    const cipher: array<Byte>
    var cipherlen: nat
    var keyfirst: nat
    var keylast: nat
    var contexts: seq<FileContext>
    ghost var list: seq<BucketNode>
    ghost var device: Device  // the value all of this stands for

    ghost function Buffers(): set<array<Byte>>
      reads this`list
    {
      set b | b in list :: b.buffer
    }

    /** head, last and the succ links spell out list, whose nodes share no buffer. */
    ghost predicate Linked()
      reads this`list, this`head, this`last, list`succ
    {
      && head == (if list == [] then null else list[0])
      && last == (if list == [] then null else list[|list| - 1])
      && (forall k :: 0 <= k < |list| ==>
            && list[k].pos == k && list[k].buffer != cipher
            && list[k].succ == if k + 1 < |list| then list[k + 1] else null)
      && (forall j, k :: 0 <= j < k < |list| ==> list[j].buffer != list[k].buffer)
    }

    ghost predicate InList(b: BucketNode)
      reads this`list
    {
      b.pos < |list| && list[b.pos] == b
    }

    ghost predicate BucketsAre(bs: seq<Bucket>)
      reads this`list, list`end, list`refcount, Buffers()
    {
      |bs| == |list| && forall k :: 0 <= k < |list| ==> list[k].Is(bs[k])
    }

    ghost predicate ContextsAre(cs: seq<Context>)
      reads this`contexts, this`list, contexts
    {
      && |cs| == |contexts|
      && (forall i :: 0 <= i < |contexts| ==> contexts[i].place == i && contexts[i].Value() == cs[i])
      && (forall i :: 0 <= i < |contexts| ==> contexts[i].next != null ==> InList(contexts[i].next))
    }

    ghost predicate KeyIs(key: seq<Byte>)
      reads this`cipherlen, cipher
    {
      0 < cipherlen < cipher.Length == CIPHER_SIZE && key == cipher[..cipherlen]
    }

    ghost predicate Valid()
      reads this, list, contexts, cipher, Buffers()
    {
      && Linked() && KeyIs(device.key) && BucketsAre(device.buckets) && ContextsAre(device.contexts)
      && device.keyfirst == keyfirst && device.keylast == keylast
    }

    constructor ()
      ensures Valid() && device == CipherRuns.INITIAL.device
    {
      var key := CipherRuns.DEFAULT_KEY;
      cipher := new Byte[CIPHER_SIZE](i requires 0 <= i => if i < |key| then key[i] else 0);
      cipherlen := |key|;
      head, last, list, contexts := null, null, [], [];
      keyfirst, keylast := 0, 0;
      device := CipherRuns.INITIAL.device;
      new;
      assert cipher[..cipherlen] == key;
    }

    /** Change the share count of a bucket. */
    method AddShare(b: BucketNode, delta: int)
      requires Valid() && InList(b)
      modifies this`device, b`refcount
      ensures Valid() && b.pos < |old(device).buckets| && device == Reshared(old(device), b.pos, delta)
      ensures b.refcount == old(b.refcount) + delta
    {
      assert b.Is(device.buckets[b.pos]);
      b.refcount := b.refcount + delta;
      device := Reshared(device, b.pos, delta);
      assert b.Is(device.buckets[b.pos]);
    }

    /** Move the cursor of a context. */
    method MoveCursor(c: nat, next: BucketNode?, off: nat, keyoff: nat, ghost holds: set<nat>)
      requires Valid() && c < |contexts| && (next != null ==> InList(next))
      modifies this`device, {contexts[c]}`next, {contexts[c]}`off, {contexts[c]}`keyoff, {contexts[c]}`holds
      ensures Valid() && c < |old(device).contexts|
      ensures device == Moved(old(device), c, if next == null then None else Some(next.pos), off, keyoff, holds)
    {
      var x := contexts[c];
      assert x.Value() == device.contexts[c];
      device := Moved(device, c, if next == null then None else Some(next.pos), off, keyoff, holds);
      x.Move(next, off, keyoff, holds);
    }

    lemma {:induction false} AboutCursor(c: nat)
      requires Valid() && c < |contexts|
      ensures InDevice(device, c) && device.contexts[c] == contexts[c].Value()
      ensures contexts[c].next != null ==>
                var b := contexts[c].next;
                && InList(b) && b.Is(device.buckets[b.pos])
                && (if b.succ == null then b.pos + 1 == |device.buckets| else InList(b.succ) && b.succ.pos == b.pos + 1)
    {
      if contexts[c].next != null {
        var b := contexts[c].next;
        assert list[b.pos] == b;
        assert b.pos + 1 < |list| ==> list[b.pos + 1].pos == b.pos + 1;
      }
    }

    // ---------- Read ----------

    /** n bytes of a buffer, copied and XOR-ed. */
    method Decrypt(buffer: array<Byte>, from: nat, n: nat, keyoff: nat) returns (out: seq<Byte>, off: nat)
      requires 0 < cipherlen <= cipher.Length && from + n <= buffer.Length
      ensures out == Xor(buffer[from..from + n], cipher[..cipherlen], keyoff) && off == keyoff + n
    {
      var temp := new Byte[n];
      forall i | 0 <= i < n {
        temp[i] := buffer[from + i];
      }
      assert temp[..n] == buffer[from..from + n];
      off := XorBuffer(cipher, cipherlen, temp, n, keyoff);
      out := temp[..n];
    }

    /** Up to n bytes from the bucket the reader is in, decrypted. */
    method Peek(c: nat, n: nat) returns (out: seq<Byte>, off: nat)
      requires Valid() && c < |contexts| && contexts[c].next != null && contexts[c].off + n <= contexts[c].next.end
      ensures Valid() && InDevice(device, c)
      ensures var x := device.contexts[c]; var b := device.buckets[x.next.value];
              && x.off + n <= |b.bytes| && off == x.keyoff + n
              && out == Xor(b.bytes[x.off..x.off + n], device.key, x.keyoff)
    {
      AboutCursor(c);
      var x := contexts[c];
      var b := x.next;
      assert b.buffer[..b.end][x.off..x.off + n] == b.buffer[x.off..x.off + n];
      out, off := Decrypt(b.buffer, x.off, n, x.keyoff);
    }

    /** The reader gives up its share in the bucket it is in and moves on, unless it
        was the last. */
    method Cross(c: nat) returns (freed: bool)
      requires Valid() && c < |contexts| && contexts[c].next != null
      modifies this`device, contexts[c], contexts[c].next`refcount
      ensures contexts == old(contexts) && list == old(list)
      ensures InDevice(old(device), c)
      ensures freed <==> old(device.buckets[device.contexts[c].next.value].refcount) == 1
      ensures !freed ==> Valid() && device == Pass(old(device), c)
    {
      AboutCursor(c);
      var x := contexts[c];
      var b := x.next;
      AddShare(b, -1);
      freed := b.refcount == 0;
      if !freed {
        MoveCursor(c, b.succ, 0, x.keyoff, x.holds - {b.pos});
      }
    }

    method CopyOut(c: nat, n: nat) returns (out: seq<Byte>)
      requires Valid() && c < |contexts| && contexts[c].next != null && contexts[c].off + n <= contexts[c].next.end
      modifies this`device, contexts[c]
      ensures contexts == old(contexts) && list == old(list)
      ensures Valid() && InDevice(old(device), c) && device == Advance(old(device), c, n)
      ensures var x := old(device).contexts[c]; var b := old(device).buckets[x.next.value];
              x.off + n <= |b.bytes| && out == Xor(b.bytes[x.off..x.off + n], old(device).key, x.keyoff)
    {
      AboutCursor(c);
      var x := contexts[c];
      var off;
      out, off := Peek(c, n);
      MoveCursor(c, x.next, x.off + n, off, x.holds);
    }

    /** A round of the read loop at the end of a bucket. */
    method MoveOn(c: nat, left: nat) returns (freed: bool)
      requires Valid() && c < |contexts| && contexts[c].next != null && left > 0
      requires contexts[c].next.end <= contexts[c].off
      modifies this`device, contexts[c], contexts[c].next`refcount
      ensures contexts == old(contexts) && list == old(list)
      ensures InDevice(old(device), c) && (freed ==> Read(old(device), c, left).Freed?)
      ensures !freed ==> Valid() && InDevice(device, c)
                         && Read(old(device), c, left) == Prepend([], Read(device, c, left))
      ensures !freed ==> contexts[c].next == null || contexts[c].next.pos > old(contexts[c].next.pos)
    {
      AboutCursor(c);
      ReadCrosses(device, c, left);
      freed := Cross(c);
      if !freed {
        AboutCursor(c);
      }
    }

    /** A round of the read loop inside a bucket. */
    method TakeChunk(c: nat, left: nat) returns (chunk: seq<Byte>, more: nat)
      requires Valid() && c < |contexts| && contexts[c].next != null && left > 0
      requires contexts[c].off < contexts[c].next.end
      modifies this`device, contexts[c]
      ensures contexts == old(contexts) && list == old(list)
      ensures Valid() && InDevice(old(device), c) && InDevice(device, c) && chunk != [] && more + |chunk| == left
      ensures Read(old(device), c, left) == Prepend(chunk, Read(device, c, more))
    {
      AboutCursor(c);
      var x := contexts[c];
      var n := Min(x.next.end - x.off, left);
      more := left - n;
      ReadCopies(device, c, left, n, more);
      chunk := CopyOut(c, n);
      AboutCursor(c);
    }

    /** One round of the read loop: on to the next bucket, or a copy out of this one. */
    method ReadRound(c: nat, left: nat, ghost done: seq<Byte>) returns (chunk: seq<Byte>, more: nat, freed: bool)
      requires Valid() && c < |contexts| && contexts[c].next != null && left > 0
      modifies this`device, contexts[c], contexts[c].next`refcount
      ensures contexts == old(contexts) && list == old(list)
      ensures InDevice(old(device), c) && (freed ==> Read(old(device), c, left).Freed?)
      ensures !freed ==>
                && Valid() && InDevice(device, c) && more + |chunk| == left
                && Prepend(done, Read(old(device), c, left)) == Prepend(done + chunk, Read(device, c, more))
                && (chunk == [] ==> contexts[c].next == null || contexts[c].next.pos > old(contexts[c].next.pos))
    {
      if contexts[c].next.end <= contexts[c].off {
        chunk, more := [], left;
        freed := MoveOn(c, left);
        if !freed {
          PrependTwice(done, chunk, Read(device, c, more));
        }
      } else {
        chunk, more := TakeChunk(c, left);
        freed := false;
        PrependTwice(done, chunk, Read(device, c, more));
      }
    }

    /** Reads up to count bytes; freed when that gave up the last share in a bucket. */
    method ReadFile(c: nat, count: nat) returns (out: seq<Byte>, freed: bool)
      requires Valid() && c < |contexts|
      modifies this`device, contexts[c], list`refcount
      ensures InDevice(old(device), c) && freed == Read(old(device), c, count).Freed?
      ensures !freed ==> Valid() && Read(old(device), c, count) == Copied(device, out)
    {
      AboutCursor(c);
      var x := contexts[c];
      out, freed := [], false;
      var left: nat := count;
      ghost var goal := Read(device, c, count);
      PrependNothing(goal);
      while left > 0 && x.next != null
        invariant Valid() && contexts == old(contexts) && list == old(list) && InDevice(device, c)
        invariant goal == Prepend(out, Read(device, c, left))
        decreases left, if x.next == null then 0 else |list| - x.next.pos
      {
        AboutCursor(c);
        var chunk;
        chunk, left, freed := ReadRound(c, left, out);
        if freed {
          return;
        }
        out := out + chunk;
      }
      AboutCursor(c);
      assert out + [] == out;
    }

    // ---------- Open ----------

    lemma {:induction false} AboutNode(k: nat)
      requires Valid() && k < |list|
      ensures InList(list[k]) && list[k].pos == k && list[k].Is(device.buckets[k])
      ensures list[k].succ == if k + 1 < |list| then list[k + 1] else null
    {
    }

    /** Every bucket gets one more share. */
    method RetainAll()
      requires Valid()
      modifies this`device, list`refcount
      ensures Valid() && device == RetainedUpTo(old(device), |list|)
    {
      var b := head;
      ghost var k := 0;
      RetainedBounds(device);
      while b != null
        invariant Valid() && k <= |list|
        invariant b == if k < |list| then list[k] else null
        invariant device == RetainedUpTo(old(device), k)
        decreases |list| - k
      {
        AboutNode(k);
        ghost var i := k;
        k := k + 1;
        RetainOne(old(device), i, k);
        AddShare(b, 1);
        b := b.succ;
      }
    }

    method InsertContext(x: FileContext)
      requires Valid() && x.place == |contexts| && (x.next != null ==> InList(x.next))
      modifies this`device, this`contexts
      ensures Valid() && device == old(device).(contexts := old(device).contexts + [x.Value()])
      ensures |contexts| == old(|contexts|) + 1
    {
      device := device.(contexts := device.contexts + [x.Value()]);
      contexts := contexts + [x];
    }

    /** A new context starts at the head for a reader, at the end for a writer. */
    method AddContext(mode: Mode)
      requires Valid()
      modifies this`device, this`contexts
      ensures Valid() && device == old(device).(contexts := old(device).contexts + [NewContext(old(device), mode)])
      ensures |contexts| == old(|contexts|) + 1
    {
      var next, off, keyoff := null, 0, 0;
      if head != null {
        if mode == Reading {
          AboutNode(0);
          next, keyoff := head, keyfirst;
        } else {
          AboutNode(|list| - 1);
          next, off, keyoff := last, last.end, keylast;
        }
      }
      var x := new FileContext(mode, next, off, keyoff, Range(0, |list|), |contexts|);
      assert x.Value() == NewContext(device, mode);
      InsertContext(x);
    }

    /** Opening for reading or writing; a request for both is refused. */
    method OpenFile(access: Access) returns (fd: Option<nat>)
      requires Valid()
      modifies this`device, this`contexts, list`refcount
      ensures Valid() && (fd == None <==> access == ReadWrite)
      ensures fd == None ==> device == old(device)
      ensures fd.Some? ==> fd.value == old(|contexts|)
                           && device == Open(old(device), if access == ReadOnly then Reading else Writing)
    {
      if access == ReadWrite {
        return None;
      }
      fd := Some(|contexts|);
      RetainAll();
      OpenAfterRetaining(old(device), if access == ReadOnly then Reading else Writing);
      AddContext(if access == ReadOnly then Reading else Writing);
    }

    // ---------- Write ----------

    method StoreBytes(b: BucketNode, bytes: seq<Byte>)
      requires Valid() && InList(b) && b.end + |bytes| <= BUCKET_SIZE
      modifies this`device, b`end, b.buffer
      ensures Valid() && b.pos < |old(device).buckets| && device == Extended(old(device), b.pos, bytes)
    {
      AboutNode(b.pos);
      b.Store(bytes);
      device := Extended(device, b.pos, bytes);
      assert b.Is(device.buckets[b.pos]);
    }

    /** The writer's own counters, which are all that is missing from the new value. */
    method AdvanceCounters(c: nat, n: nat, ghost cs: seq<Context>)
      requires Linked() && KeyIs(device.key) && BucketsAre(device.buckets) && ContextsAre(cs) && c < |contexts|
      requires device.keyfirst == keyfirst && device.keylast == keylast
      requires c < |cs| && device.contexts == cs[c := cs[c].(keyoff := cs[c].keyoff + n, written := cs[c].written + n)]
      modifies {contexts[c]}`keyoff, {contexts[c]}`written
      ensures Valid()
    {
      assert contexts[c].Value() == cs[c];
      contexts[c].Wrote(n);
    }

    method NoteWritten(c: nat, n: nat)
      requires Valid() && c < |contexts|
      modifies this`device, this`keylast, {contexts[c]}`keyoff, {contexts[c]}`written
      ensures Valid() && c < |old(device).contexts| && device == Noted(old(device), c, n)
    {
      ghost var cs := device.contexts;
      assert contexts[c].Value() == cs[c];
      keylast := contexts[c].keyoff + n;
      device := Noted(device, c, n);
      AdvanceCounters(c, n, cs);
    }

    method EncryptCopy(chunk: seq<Byte>, keyoff: nat) returns (bytes: seq<Byte>)
      requires 0 < cipherlen <= cipher.Length
      ensures bytes == Xor(chunk, cipher[..cipherlen], keyoff)
    {
      var temp := new Byte[|chunk|];
      forall i | 0 <= i < |chunk| {
        temp[i] := chunk[i];
      }
      assert temp[..|chunk|] == chunk;
      var _ := XorBuffer(cipher, cipherlen, temp, |chunk|, keyoff);
      bytes := temp[..|chunk|];
    }

    method Encrypt(chunk: seq<Byte>, keyoff: nat) returns (bytes: seq<Byte>)
      requires Valid()
      ensures Valid() && bytes == Xor(chunk, device.key, keyoff)
    {
      bytes := EncryptCopy(chunk, keyoff);
      assert Valid() == old(Valid());
    }

    /** Encrypts a chunk that fits and appends it to the writer's bucket. */
    method AppendChunk(c: nat, chunk: seq<Byte>)
      requires Valid() && c < |contexts| && contexts[c].next != null && contexts[c].next.end + |chunk| <= BUCKET_SIZE
      modifies this`device, this`keylast, contexts[c], contexts[c].next`end, contexts[c].next.buffer
      ensures Valid() && InDevice(old(device), c) && device == Append(old(device), c, chunk) && InDevice(device, c)
      ensures list == old(list) && contexts == old(contexts)
    {
      AboutCursor(c);
      AppendInSteps(device, c, chunk);
      var bytes := Encrypt(chunk, contexts[c].keyoff);
      StoreBytes(contexts[c].next, bytes);
      NoteWritten(c, |chunk|);
      AboutCursor(c);
    }

    method CountReaders() returns (n: nat)
      requires Valid()
      ensures n == Readers(device.contexts)
    {
      n := 0;
      for i := 0 to |contexts|
        invariant n + Readers(device.contexts[i..]) == Readers(device.contexts)
      {
        assert contexts[i].Value() == device.contexts[i] && device.contexts[i..][1..] == device.contexts[i + 1..];
        if contexts[i].mode == Reading {
          n := n + 1;
        }
      }
    }

    ghost predicate Unlinked(b: BucketNode)
      reads this`list, list, b
    {
      && b !in list && b.buffer !in Buffers() && b.buffer != cipher
      && b.pos == |list| && b.succ == null && b.end == 0 && b.buffer.Length == BUCKET_SIZE
    }

    /** list_add_tail to an empty list. */
    method LinkFirst(b: BucketNode, ghost bs: seq<Bucket>, ghost cs: seq<Context>)
      requires Linked() && BucketsAre(bs) && ContextsAre(cs) && Unlinked(b) && list == []
      modifies this`head, this`last, this`list
      ensures Linked() && BucketsAre(bs + [Bucket([], b.refcount)]) && ContextsAre(cs) && list == old(list) + [b]
    {
      head, last, list := b, b, [b];
    }

    /** list_add_tail behind the last bucket. */
    method LinkAfter(b: BucketNode, ghost bs: seq<Bucket>, ghost cs: seq<Context>)
      requires Linked() && BucketsAre(bs) && ContextsAre(cs) && Unlinked(b) && last != null
      modifies this`last, this`list, last`succ
      ensures Linked() && BucketsAre(bs + [Bucket([], b.refcount)]) && ContextsAre(cs) && list == old(list) + [b]
    {
      last.succ := b;
      last, list := b, list + [b];
      assert Linked();
    }

    /** list_add_tail. */
    method LinkBucket(b: BucketNode)
      requires Valid() && Unlinked(b)
      modifies this`device, this`head, this`last, this`list, (if last == null then {} else {last})`succ
      ensures Valid() && list == old(list) + [b] && device == Lengthened(old(device), b.refcount)
    {
      ghost var bs, cs := device.buckets, device.contexts;
      device := Lengthened(device, b.refcount);
      if last == null {
        LinkFirst(b, bs, cs);
      } else {
        LinkAfter(b, bs, cs);
      }
    }

    ghost method ShareWithReaders(k: nat)
      requires Valid()
      modifies this`device, contexts`holds
      ensures Valid() && device == SharedByReaders(old(device), k)
    {
      assert forall i :: 0 <= i < |contexts| ==> contexts[i].Value() == device.contexts[i];
      device := SharedByReaders(device, k);
      forall i | 0 <= i < |contexts| && contexts[i].mode == Reading {
        contexts[i].holds := contexts[i].holds + {k};
      }
      assert Linked() == old(Linked()) && BucketsAre(device.buckets) == old(BucketsAre(device.buckets));
      assert ContextsAre(device.contexts);
    }

    /** The writer gives up its bucket, if it has one. */
    method GiveUpBucket(c: nat)
      requires Valid() && c < |contexts|
      modifies this`device, (if contexts[c].next == null then {} else {contexts[c].next})`refcount
      ensures Valid() && InDevice(old(device), c) && device == Released(old(device), c)
      ensures device.contexts == old(device).contexts
    {
      AboutCursor(c);
      if contexts[c].next != null {
        AddShare(contexts[c].next, -1);
      }
    }

    /** shares is what the writer's next bucket starts with. */
    method ReleaseBucket(c: nat) returns (shares: nat)
      requires Valid() && c < |contexts|
      modifies this`device, (if contexts[c].next == null then {} else {contexts[c].next})`refcount
      ensures Valid() && InDevice(old(device), c) && device == Released(old(device), c)
      ensures shares == 1 + Readers(old(device).contexts)
    {
      shares := CountReaders();
      shares := 1 + shares;
      GiveUpBucket(c);
    }

    /** A fresh bucket at the end of the list. */
    method NewNode(refcount: int) returns (b: BucketNode)
      requires Valid()
      modifies this`device, this`head, this`last, this`list, (if last == null then {} else {last})`succ
      ensures Valid() && list == old(list) + [b] && fresh(b) && fresh(b.buffer)
      ensures device == Lengthened(old(device), refcount)
    {
      b := new BucketNode(refcount, |list|);
      LinkBucket(b);
    }

    /** A writer takes bucket b as its own, beside the readers. */
    method Occupy(c: nat, b: BucketNode)
      requires Valid() && c < |contexts| && contexts[c].mode == Writing && InList(b)
      modifies this`device, contexts`next, contexts`off, contexts`keyoff, contexts`holds
      ensures Valid() && c < |old(device).contexts| && device == Occupied(old(device), c, b.pos)
      ensures list == old(list) && contexts == old(contexts)
    {
      AboutCursor(c);
      OccupiedInSteps(device, c, b.pos);
      var x := contexts[c];
      var keyoff := x.keyoff;
      ghost var holds := HoldsOnly(x.Value(), b.pos);
      ShareWithReaders(b.pos);
      MoveCursor(c, b, 0, keyoff, holds);
    }

    /** A fresh bucket at the end becomes the writer's, and every reader's too. */
    method MoveToNewBucket(c: nat, shares: nat) returns (b: BucketNode)
      requires Valid() && c < |contexts| && contexts[c].mode == Writing
      modifies this`device, this`head, this`last, this`list, (if last == null then {} else {last})`succ
      modifies contexts`next, contexts`off, contexts`keyoff, contexts`holds
      ensures c < |old(device).contexts|
      ensures Valid() && device == Occupied(Lengthened(old(device), shares), c, |old(list)|)
      ensures fresh(b) && fresh(b.buffer) && list == old(list) + [b]
    {
      ghost var n := |list|;
      b := NewNode(shares);
      AboutNode(n);
      Occupy(c, b);
    }

    /** A writer without a bucket, or with a full one, gets a new one at the end. */
    method AddBucket(c: nat) returns (b: BucketNode)
      requires Valid() && c < |contexts| && contexts[c].mode == Writing
      modifies this`device, this`head, this`last, this`list, contexts, list`refcount, list`succ
      ensures Valid() && InDevice(old(device), c) && device == NewBucket(old(device), c)
      ensures fresh(b) && fresh(b.buffer) && list == old(list) + [b]
    {
      AboutCursor(c);
      ghost var n := |list|;
      var shares := ReleaseBucket(c);
      NewBucketInSteps(old(device), c, shares, n);
      b := MoveToNewBucket(c, shares);
    }

    /** Buckets are only ever added behind the ones that were there. */
    twostate predicate Grown()
      reads this`list
    {
      && old(list) <= list
      && forall k: nat :: |old(list)| <= k < |list| ==> fresh(list[k]) && fresh(list[k].buffer)
    }

    method EnsureRoom(c: nat)
      requires Valid() && c < |contexts| && contexts[c].mode == Writing
      modifies this`device, this`head, this`last, this`list, contexts, list`refcount, list`succ
      ensures Valid() && Grown() && InDevice(old(device), c) && device == WithRoom(old(device), c)
      ensures contexts == old(contexts) && contexts[c].next != null && contexts[c].next.end < BUCKET_SIZE
    {
      AboutCursor(c);
      if contexts[c].next == null || contexts[c].next.end >= BUCKET_SIZE {
        var _ := AddBucket(c);
      }
      AboutCursor(c);
    }

    /** One round of the write loop: as much of the data as one bucket takes. */
    method WriteRound(c: nat, data: seq<Byte>) returns (n: nat, rest: seq<Byte>)
      requires Valid() && c < |contexts| && contexts[c].mode == Writing && data != []
      modifies this`device, this`head, this`last, this`list, this`keylast, contexts,
        list`refcount, list`succ, list`end, Buffers()
      ensures Valid() && Grown() && InDevice(old(device), c) && InDevice(device, c)
      ensures contexts == old(contexts) && 0 < n && n + |rest| == |data|
      ensures Put(old(device), c, data) == Put(device, c, rest)
    {
      EnsureRoom(c);
      AboutCursor(c);
      n := Min(BUCKET_SIZE - contexts[c].next.end, |data|);
      rest := data[n..];
      PutRound(old(device), c, data, n);
      AppendChunk(c, data[..n]);
    }

    /** The write loop. */
    method PutAll(c: nat, data: seq<Byte>) returns (written: nat)
      requires Valid() && c < |contexts| && contexts[c].mode == Writing
      modifies this`device, this`head, this`last, this`list, this`keylast, contexts,
        list`refcount, list`succ, list`end, Buffers()
      ensures Valid() && InDevice(old(device), c) && device == Put(old(device), c, data)
      ensures written == |data|
    {
      AboutCursor(c);
      var n, rest := 0, data;
      ghost var goal := Put(device, c, rest);
      written := 0;
      while rest != []
        invariant Valid() && Grown() && contexts == old(contexts) && InDevice(device, c)
        invariant written + |rest| == |data| && goal == Put(device, c, rest)
        decreases |rest|
      {
        n, rest := WriteRound(c, rest);
        written := written + n;
      }
    }

    /** Writes what the writer's quota admits of the data. */
    method WriteFile(c: nat, data: seq<Byte>) returns (written: nat)
      requires Valid() && c < |contexts| && contexts[c].mode == Writing
      modifies this`device, this`head, this`last, this`list, this`keylast, contexts,
        list`refcount, list`succ, list`end, Buffers()
      ensures Valid() && InDevice(old(device), c) && device == Write(old(device), c, data)
      ensures written == Admitted(old(device), c, |data|)
    {
      AboutCursor(c);
      if contexts[c].written >= MAX_WRITE_LEN {
        WriteNothing(device, c, data);
        return 0;
      }
      var count := |data|;
      if contexts[c].written + count > MAX_WRITE_LEN {
        count := MAX_WRITE_LEN - contexts[c].written;
      }
      written := PutAll(c, data[..count]);
    }

    // ---------- Reset and query ----------

    /** strncpy into a zeroed key buffer, and strnlen of the result. */
    method LoadKey(raw: seq<Byte>)
      requires cipher.Length == CIPHER_SIZE
      modifies this`cipherlen, cipher
      ensures cipherlen < CIPHER_SIZE && cipher[..cipherlen] == CipherRuns.KeyOf(raw)
    {
      forall i | 0 <= i < cipher.Length {
        cipher[i] := 0;
      }
      var n := 0;
      while n < |raw| && n < CIPHER_SIZE - 1 && raw[n] != 0
        invariant n <= |raw| && n < CIPHER_SIZE
        invariant forall j :: 0 <= j < CIPHER_SIZE ==> cipher[j] == if j < n then raw[j] else 0
        invariant forall j :: 0 <= j < n ==> raw[j] != 0
      {
        cipher[n] := raw[n];
        n := n + 1;
      }
      KeyEndsAt(raw, n);
      cipherlen := 0;
      while cipher[cipherlen] != 0
        invariant cipherlen <= n
        invariant forall j :: 0 <= j < CIPHER_SIZE ==> cipher[j] == if j < n then raw[j] else 0
        decreases n - cipherlen
      {
        cipherlen := cipherlen + 1;
      }
    }

    method ResetContexts()
      requires forall i :: 0 <= i < |contexts| ==> contexts[i].place == i
      modifies contexts
      ensures forall i :: 0 <= i < |contexts| ==> contexts[i].next == null
      ensures forall i :: 0 <= i < |contexts| ==> contexts[i].Value() == Context(contexts[i].mode, None, 0, 0, 0, {})
    {
      for i := 0 to |contexts|
        invariant forall j :: 0 <= j < i ==> contexts[j].next == null
        invariant forall j :: 0 <= j < i ==> contexts[j].Value() == Context(contexts[j].mode, None, 0, 0, 0, {})
      {
        contexts[i].Reset();
      }
    }

    /** Drops every bucket, takes the key in raw and brings every context back to the
        start. */
    method EmptyDevice(raw: seq<Byte>, ghost cs: seq<Context>)
      requires ContextsAre(cs) && cipher.Length == CIPHER_SIZE
      modifies this`head, this`last, this`list, this`keyfirst, this`keylast, this`cipherlen, contexts, cipher
      ensures list == [] && Linked() && ContextsAre(Cleared(cs)) && keyfirst == keylast == 0
      ensures cipherlen < cipher.Length && cipher[..cipherlen] == CipherRuns.KeyOf(raw)
    {
      assert forall i :: 0 <= i < |contexts| ==> contexts[i].Value() == cs[i];
      head, last, list := null, null, [];
      keyfirst, keylast := 0, 0;
      LoadKey(raw);
      ResetContexts();
    }

    /** Reset under the key in raw. An empty key leaves a device that cannot encrypt. */
    method Restart(raw: seq<Byte>)
      requires Valid()
      modifies this`device, this`head, this`last, this`list,
        this`keyfirst, this`keylast, this`cipherlen, contexts, cipher
      ensures device == Reset(old(device), CipherRuns.KeyOf(raw))
      ensures Linked() && BucketsAre(device.buckets) && ContextsAre(device.contexts) && keyfirst == keylast == 0
      ensures cipherlen < cipher.Length && cipher[..cipherlen] == device.key
      ensures CipherRuns.KeyOf(raw) != [] ==> Valid()
    {
      ghost var cs := device.contexts;
      device := Reset(device, CipherRuns.KeyOf(raw));
      EmptyDevice(raw, cs);
    }

    /** Back to an empty device under the default key. */
    method Clear()
      requires Valid()
      modifies this`device, this`head, this`last, this`list,
        this`keyfirst, this`keylast, this`cipherlen, contexts, cipher
      ensures Valid() && device == Reset(old(device), CipherRuns.DEFAULT_KEY)
    {
      DefaultKeyLoads();
      Restart(CipherRuns.DEFAULT_KEY);
    }

    lemma {:induction false} NodeLength(k: nat)
      requires Valid() && k < |list|
      ensures |list| == |device.buckets| && list[k].end == |device.buckets[k].bytes|
      ensures list[k].succ == if k + 1 < |list| then list[k + 1] else null
    {
      AboutNode(k);
    }

    /** The bytes in the bucket list from node b and an offset in it on. */
    method CountAhead(start: BucketNode?, from: nat, ghost first: nat) returns (val: nat)
      requires Valid() && first <= |list| && start == if first < |list| then list[first] else null
      ensures val == |Tail(device.buckets, first, from)|
    {
      var b, off := start, from;
      ghost var k := first;
      val := 0;
      while b != null
        invariant k <= |list| && b == if k < |list| then list[k] else null
        invariant val + |Tail(device.buckets, k, off)| == |Tail(device.buckets, first, from)|
        decreases |list| - k
      {
        NodeLength(k);
        TailStep(device.buckets, k, off);
        var remain := b.end - off;
        if remain > 0 {
          val := val + remain;
        }
        off := 0;
        b, k := b.succ, k + 1;
      }
    }

    /** QREM. */
    method QueryRemaining(c: nat) returns (val: nat)
      requires Valid() && c < |contexts|
      ensures c < |device.contexts| && val == Remaining(device, c)
    {
      AboutCursor(c);
      var x := contexts[c];
      val := 0;
      if x.mode == Reading {
        val := CountAhead(x.next, x.off, if x.next == null then |list| else x.next.pos);
      } else if x.written < MAX_WRITE_LEN {
        val := MAX_WRITE_LEN - x.written;
      }
    }
  }

  lemma {:induction false} ReadCopies(d: Device, c: nat, count: nat, n: nat, more: nat)
    requires InDevice(d, c) && d.key != [] && d.contexts[c].next.Some? && count > 0
    requires d.contexts[c].off < |d.buckets[d.contexts[c].next.value].bytes|
    requires n == Min(|d.buckets[d.contexts[c].next.value].bytes| - d.contexts[c].off, count) && more == count - n
    ensures InDevice(Advance(d, c, n), c)
    ensures var x := d.contexts[c];
            var chunk := Xor(d.buckets[x.next.value].bytes[x.off..x.off + n], d.key, x.keyoff);
            Read(d, c, count) == Prepend(chunk, Read(Advance(d, c, n), c, more))
  {
  }

  lemma {:induction false} ReadCrosses(d: Device, c: nat, count: nat)
    requires InDevice(d, c) && d.key != [] && d.contexts[c].next.Some? && count > 0
    requires d.contexts[c].off >= |d.buckets[d.contexts[c].next.value].bytes|
    ensures if d.buckets[d.contexts[c].next.value].refcount == 1 then Read(d, c, count).Freed?
            else InDevice(Pass(d, c), c) && Read(d, c, count) == Prepend([], Read(Pass(d, c), c, count))
  {
    if d.buckets[d.contexts[c].next.value].refcount != 1 {
      PrependNothing(Read(Pass(d, c), c, count));
    }
  }

  lemma {:induction false} PrependNothing(r: ReadResult)
    ensures Prepend([], r) == r
  {
  }

  lemma {:induction false} PrependTwice(a: seq<Byte>, b: seq<Byte>, r: ReadResult)
    ensures Prepend(a, Prepend(b, r)) == Prepend(a + b, r)
  {
    if r.Copied? {
      assert a + (b + r.bytes) == (a + b) + r.bytes;
    }
  }

  ghost function Reshared(d: Device, k: nat, delta: int): Device
    requires k < |d.buckets|
  {
    d.(buckets := d.buckets[k := d.buckets[k].(refcount := d.buckets[k].refcount + delta)])
  }

  /** The device once the first k buckets have got one more share. */
  ghost function RetainedUpTo(d: Device, k: nat): Device {
    d.(buckets := seq(|d.buckets|, i requires 0 <= i < |d.buckets| =>
         if i < k then d.buckets[i].(refcount := d.buckets[i].refcount + 1) else d.buckets[i]))
  }

  lemma {:induction false} RetainedBounds(d: Device)
    ensures RetainedUpTo(d, 0) == d
    ensures RetainedUpTo(d, |d.buckets|) == d.(buckets := Retained(d.buckets))
  {
    assert RetainedUpTo(d, 0).buckets == d.buckets;
    assert RetainedUpTo(d, |d.buckets|).buckets == Retained(d.buckets);
  }

  lemma {:induction false} RetainOne(d: Device, i: nat, k: nat)
    requires i < |d.buckets| && k == i + 1
    ensures var e := RetainedUpTo(d, i);
            && |e.buckets| == |d.buckets|
            && RetainedUpTo(d, k) == Reshared(e, i, 1)
  {
  }

  lemma {:induction false} OpenAfterRetaining(d: Device, mode: Mode)
    ensures var e := RetainedUpTo(d, |d.buckets|);
            Open(d, mode) == e.(contexts := e.contexts + [NewContext(e, mode)])
  {
    RetainedBounds(d);
  }

  ghost function Extended(d: Device, k: nat, bytes: seq<Byte>): Device
    requires k < |d.buckets|
  {
    d.(buckets := d.buckets[k := d.buckets[k].(bytes := d.buckets[k].bytes + bytes)])
  }

  ghost function Noted(d: Device, c: nat, n: nat): Device
    requires c < |d.contexts|
  {
    var x := d.contexts[c];
    d.(keylast := x.keyoff + n, contexts := d.contexts[c := x.(keyoff := x.keyoff + n, written := x.written + n)])
  }

  ghost function SharedByReaders(d: Device, k: nat): Device {
    d.(contexts := seq(|d.contexts|, i requires 0 <= i < |d.contexts| =>
         if d.contexts[i].mode == Reading then d.contexts[i].(holds := d.contexts[i].holds + {k}) else d.contexts[i]))
  }

  ghost function Moved(d: Device, c: nat, next: Option<nat>, off: nat, keyoff: nat, holds: set<nat>): Device
    requires c < |d.contexts|
  {
    d.(contexts := d.contexts[c := d.contexts[c].(next := next, off := off, keyoff := keyoff, holds := holds)])
  }

  ghost function Lengthened(d: Device, refcount: int): Device {
    d.(buckets := d.buckets + [Bucket([], refcount)])
  }

  ghost function Released(d: Device, c: nat): Device
    requires InDevice(d, c)
  {
    var x := d.contexts[c];
    if x.next == None then d else Reshared(d, x.next.value, -1)
  }

  ghost function HoldsOnly(x: Context, n: nat): set<nat> {
    (if x.next == None then x.holds else x.holds - {x.next.value}) + {n}
  }

  ghost function Occupied(d: Device, c: nat, n: nat): Device
    requires c < |d.contexts|
  {
    d.(contexts := Shared(d.contexts, c, n))
  }

  lemma {:induction false} OccupiedInSteps(d: Device, c: nat, n: nat)
    requires c < |d.contexts| && d.contexts[c].mode == Writing
    ensures var e := SharedByReaders(d, n);
            && |e.contexts| == |d.contexts|
            && Occupied(d, c, n) == Moved(e, c, Some(n), 0, d.contexts[c].keyoff, HoldsOnly(d.contexts[c], n))
  {
  }

  lemma {:induction false} NewBucketInSteps(d: Device, c: nat, shares: nat, n: nat)
    requires InDevice(d, c) && shares == 1 + Readers(d.contexts) && n == |d.buckets|
    ensures var e := Lengthened(Released(d, c), shares);
            |e.contexts| == |d.contexts| && NewBucket(d, c) == Occupied(e, c, n)
  {
  }

  lemma {:induction false} TailStep(bs: seq<Bucket>, k: nat, off: nat)
    requires k < |bs|
    ensures |Tail(bs, k, off)| == (if off <= |bs[k].bytes| then |bs[k].bytes| - off else 0) + |Tail(bs, k + 1, 0)|
  {
  }

  lemma {:induction false} WriteNothing(d: Device, c: nat, data: seq<Byte>)
    requires InDevice(d, c) && d.key != [] && d.contexts[c].written >= MAX_WRITE_LEN
    ensures Write(d, c, data) == d && Admitted(d, c, |data|) == 0
  {
    assert data[..0] == [];
  }

  lemma {:induction false} PutRound(d: Device, c: nat, data: seq<Byte>, n: nat)
    requires InDevice(d, c) && d.key != [] && data != []
    requires var r := WithRoom(d, c); n == Min(BUCKET_SIZE - |r.buckets[r.contexts[c].next.value].bytes|, |data|)
    ensures 0 < n <= |data|
    ensures Put(d, c, data) == Put(Append(WithRoom(d, c), c, data[..n]), c, data[n..])
  {
  }

  lemma {:induction false} KeyEndsAt(raw: seq<Byte>, n: nat)
    requires n <= |raw| && n < CIPHER_SIZE && forall j :: 0 <= j < n ==> raw[j] != 0
    requires n == |raw| || n == CIPHER_SIZE - 1 || raw[n] == 0
    ensures CipherRuns.KeyOf(raw) == raw[..n]
  {
  }

  lemma {:induction false} DefaultKeyLoads()
    ensures CipherRuns.KeyOf(CipherRuns.DEFAULT_KEY) == CipherRuns.DEFAULT_KEY
  {
    var key := CipherRuns.DEFAULT_KEY;
    assert |key| == 24;
    KeyEndsAt(key, 24);
    assert key[..24] == key;
  }

  lemma {:induction false} AppendInSteps(d: Device, c: nat, chunk: seq<Byte>)
    requires InDevice(d, c) && d.contexts[c].next.Some? && d.key != []
    ensures var x := d.contexts[c];
            Append(d, c, chunk) == Noted(Extended(d, x.next.value, Xor(chunk, d.key, x.keyoff)), c, |chunk|)
  {
  }
}
