/** The cipher device as a value: an append-only encrypted byte stream in buckets, and
    the open contexts with their own cursors into it. Closing is not modelled. */
module CipherDevice {
  import opened Resources
  import opened Keystream

  const BUCKET_SIZE := 256
  const MAX_WRITE_LEN := 8192
  const CIPHER_SIZE := 4096

  /** The bytes in use, still encrypted, and how many contexts hold the bucket. */
  datatype Bucket = Bucket(bytes: seq<Byte>, refcount: int)

  datatype Mode = Reading | Writing

  /** next is the bucket the cursor is in; holds records which buckets' reference
      counts this context has a share in. */
  datatype Context = Context(
    mode: Mode, next: Option<nat>, off: nat, keyoff: nat, written: nat, holds: set<nat>)

  datatype Device = Device(
    buckets: seq<Bucket>, key: seq<Byte>, keyfirst: nat, keylast: nat, contexts: seq<Context>)

  /** The numbers from lo up to but not including hi. */
  function Range(lo: nat, hi: nat): (r: set<nat>)
    ensures forall k :: k in r <==> lo <= k < hi
    decreases hi - lo
  {
    if hi <= lo then {} else {lo} + Range(lo + 1, hi)
  }

  /** The cursor is in an existing bucket, or nowhere. */
  predicate InDevice(d: Device, c: nat) {
    c < |d.contexts| && (d.contexts[c].next.Some? ==> d.contexts[c].next.value < |d.buckets|)
  }

  // ---------- Open ----------

  function Retained(bs: seq<Bucket>): seq<Bucket> {
    seq(|bs|, k requires 0 <= k < |bs| => bs[k].(refcount := bs[k].refcount + 1))
  }

  function NewContext(d: Device, mode: Mode): Context {
    var n := |d.buckets|;
    if n == 0 then Context(mode, None, 0, 0, 0, {})
    else match mode
      case Reading => Context(mode, Some(0), 0, d.keyfirst, 0, Range(0, n))
      case Writing => Context(mode, Some(n - 1), |d.buckets[n - 1].bytes|, d.keylast, 0, Range(0, n))
  }

  function Open(d: Device, mode: Mode): Device {
    d.(buckets := Retained(d.buckets), contexts := d.contexts + [NewContext(d, mode)])
  }

  // ---------- Read ----------

  /** Moving on from bucket i gives up the share in it. */
  function Pass(d: Device, c: nat): Device
    requires InDevice(d, c) && d.contexts[c].next.Some?
  {
    var i := d.contexts[c].next.value;
    var next := if i + 1 < |d.buckets| then Some(i + 1) else None;
    d.(buckets := d.buckets[i := d.buckets[i].(refcount := d.buckets[i].refcount - 1)],
       contexts := d.contexts[c := d.contexts[c].(next := next, off := 0, holds := d.contexts[c].holds - {i})])
  }

  function Advance(d: Device, c: nat, n: nat): Device
    requires InDevice(d, c)
  {
    var x := d.contexts[c];
    d.(contexts := d.contexts[c := x.(off := x.off + n, keyoff := x.keyoff + n)])
  }

  /** Freed: the reader gave up the last share in a bucket, which frees it, and goes on
      to look for the successor of a bucket that is no longer there. Nothing is said
      about what happens then. */
  datatype ReadResult = Copied(device: Device, bytes: seq<Byte>) | Freed

  function Prepend(out: seq<Byte>, r: ReadResult): ReadResult {
    if r.Freed? then r else r.(bytes := out + r.bytes)
  }

  function Read(d: Device, c: nat, count: nat): ReadResult
    requires InDevice(d, c) && d.key != []
    decreases count, if d.contexts[c].next.Some? then |d.buckets| - d.contexts[c].next.value else 0
  {
    var x := d.contexts[c];
    if count == 0 || x.next == None then Copied(d, [])
    else
      var b := d.buckets[x.next.value];
      if |b.bytes| <= x.off then
        if b.refcount == 1 then Freed else Read(Pass(d, c), c, count)
      else
        var n := Min(|b.bytes| - x.off, count);
        Prepend(Xor(b.bytes[x.off..x.off + n], d.key, x.keyoff), Read(Advance(d, c, n), c, count - n))
  }

  // ---------- Write ----------

  function Readers(cs: seq<Context>): nat {
    if cs == [] then 0 else (if cs[0].mode == Reading then 1 else 0) + Readers(cs[1..])
  }

  /** Every reader gets a share in new bucket n, and so does its writer c, which gives
      up the one in the bucket it was in. */
  function Shared(cs: seq<Context>, c: nat, n: nat): seq<Context>
    requires c < |cs|
  {
    seq(|cs|, i requires 0 <= i < |cs| =>
      if i == c then
        cs[c].(next := Some(n), off := 0,
               holds := (if cs[c].next == None then cs[c].holds else cs[c].holds - {cs[c].next.value}) + {n})
      else if cs[i].mode == Reading then cs[i].(holds := cs[i].holds + {n})
      else cs[i])
  }

  function NewBucket(d: Device, c: nat): Device
    requires InDevice(d, c)
  {
    var next := d.contexts[c].next;
    var kept := if next == None then d.buckets
                else d.buckets[next.value := d.buckets[next.value].(refcount := d.buckets[next.value].refcount - 1)];
    d.(buckets := kept + [Bucket([], 1 + Readers(d.contexts))],
       contexts := Shared(d.contexts, c, |d.buckets|))
  }

  function Append(d: Device, c: nat, chunk: seq<Byte>): Device
    requires InDevice(d, c) && d.contexts[c].next.Some? && d.key != []
  {
    var x := d.contexts[c];
    var i := x.next.value;
    d.(buckets := d.buckets[i := d.buckets[i].(bytes := d.buckets[i].bytes + Xor(chunk, d.key, x.keyoff))],
       keylast := x.keyoff + |chunk|,
       contexts := d.contexts[c := x.(keyoff := x.keyoff + |chunk|, written := x.written + |chunk|)])
  }

  predicate NeedsBucket(d: Device, c: nat)
    requires InDevice(d, c)
  {
    d.contexts[c].next == None || |d.buckets[d.contexts[c].next.value].bytes| >= BUCKET_SIZE
  }

  /** The writer's context with room in its bucket. */
  function WithRoom(d: Device, c: nat): (r: Device)
    requires InDevice(d, c)
    ensures InDevice(r, c) && r.contexts[c].next.Some? && r.key == d.key
    ensures |r.buckets[r.contexts[c].next.value].bytes| < BUCKET_SIZE
  {
    if NeedsBucket(d, c) then NewBucket(d, c) else d
  }

  /** How many bytes of the data still fit the bucket with room. */
  function FirstChunk(d: Device, c: nat, data: seq<Byte>): (n: nat)
    requires InDevice(d, c)
    ensures n <= |data| && (data != [] ==> n > 0)
  {
    var r := WithRoom(d, c);
    Min(BUCKET_SIZE - |r.buckets[r.contexts[c].next.value].bytes|, |data|)
  }

  function Put(d: Device, c: nat, data: seq<Byte>): Device
    requires InDevice(d, c) && d.key != []
    decreases |data|
  {
    if data == [] then d
    else
      var n := FirstChunk(d, c, data);
      Put(Append(WithRoom(d, c), c, data[..n]), c, data[n..])
  }

  /** How much of a request the writer's quota still admits. */
  function Admitted(d: Device, c: nat, count: nat): nat
    requires c < |d.contexts|
  {
    if d.contexts[c].written >= MAX_WRITE_LEN then 0
    else Min(count, MAX_WRITE_LEN - d.contexts[c].written)
  }

  function Write(d: Device, c: nat, data: seq<Byte>): Device
    requires InDevice(d, c) && d.key != []
  {
    Put(d, c, data[..Admitted(d, c, |data|)])
  }

  // ---------- Reset and query ----------

  function Cleared(cs: seq<Context>): seq<Context> {
    seq(|cs|, i requires 0 <= i < |cs| => Context(cs[i].mode, None, 0, 0, 0, {}))
  }

  function Reset(d: Device, key: seq<Byte>): Device {
    Device([], key, 0, 0, Cleared(d.contexts))
  }

  /** The bytes from a cursor to the end of the device, still encrypted. */
  function Tail(bs: seq<Bucket>, i: nat, off: nat): seq<Byte>
    decreases |bs| - i
  {
    if i >= |bs| then []
    else (if off <= |bs[i].bytes| then bs[i].bytes[off..] else []) + Tail(bs, i + 1, 0)
  }

  /** QREM: what a reader can still read, or what a writer can still write. */
  function Remaining(d: Device, c: nat): nat
    requires c < |d.contexts|
  {
    var x := d.contexts[c];
    match x.mode
    case Reading => if x.next == None then 0 else |Tail(d.buckets, x.next.value, x.off)|
    case Writing => if x.written < MAX_WRITE_LEN then MAX_WRITE_LEN - x.written else 0
  }
}
