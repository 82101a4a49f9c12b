/** Runs in which the cipher device falls short of what it is for: a second writer spoils
    the stream, and a lone reader frees the bucket it reads on from. */
module CipherLimits {
  import opened Resources
  import opened Keystream
  import opened CipherDevice
  import opened CipherStream
  import opened CipherAccounts
  import opened CipherRuns
  import opened ContinuedRuns
  import opened CipherRoundTrip
  import StaleWriters

  // ---------- Two writers ----------

  /** Two writers open an empty device and the first writes a byte. */
  function TwoWriters(raw: seq<Byte>, x: Byte): seq<Step> {
    [SetKey(raw), OpenFile(Writing), OpenFile(Writing), WriteFile(0, [x])]
  }

  function Encrypted(x: Byte, key: seq<Byte>, off: nat): Bucket
    requires key != []
  {
    Bucket(Xor([x], key, off), 1)
  }

  lemma {:induction false} FirstByteInNewBucket(d: Device, c: nat, x: Byte)
    requires c < |d.contexts| && d.contexts[c] == Context(Writing, None, 0, 0, 0, {}) && d.key != []
    requires Readers(d.contexts) == 0
    ensures var n := |d.buckets|;
            Write(d, c, [x]) == Device(d.buckets + [Encrypted(x, d.key, 0)], d.key, d.keyfirst, 1,
                                       d.contexts[c := Context(Writing, Some(n), 0, 1, 1, {n})])
  {
    var n := |d.buckets|;
    var e := NewBucket(d, c);
    assert [x][..1] == [x] && [x][1..] == [];
    NoReadersShare(d.contexts, c, n);
    assert e == Device(d.buckets + [Bucket([], 1)], d.key, d.keyfirst, d.keylast,
                       d.contexts[c := Context(Writing, Some(n), 0, 0, 0, {n})]);
    var f := Append(e, c, [x]);
    assert [] + Xor([x], d.key, 0) == Xor([x], d.key, 0);
    assert f.buckets == d.buckets + [Encrypted(x, d.key, 0)];
    assert Put(d, c, [x]) == Put(f, c, []);
  }

  lemma {:induction false} NoReadersShare(cs: seq<Context>, c: nat, n: nat)
    requires c < |cs| && cs[c] == Context(Writing, None, 0, 0, 0, {}) && Readers(cs) == 0
    ensures Shared(cs, c, n) == cs[c := Context(Writing, Some(n), 0, 0, 0, {n})]
  {
    NoReaders(cs);
    assert {} + {n} == {n};
  }

  lemma {:induction false} NoReaders(cs: seq<Context>)
    requires Readers(cs) == 0
    ensures forall i :: 0 <= i < |cs| ==> cs[i].mode == Writing
  {
    if cs != [] {
      NoReaders(cs[1..]);
      assert forall i :: 0 < i < |cs| ==> cs[i] == cs[1..][i - 1];
    }
  }

  function Fresh(): Context { Context(Writing, None, 0, 0, 0, {}) }

  function InBucket(k: nat): Context { Context(Writing, Some(k), 0, 1, 1, {k}) }

  lemma {:induction false} OpenWriterOnEmpty(d: Device)
    requires d.buckets == []
    ensures Open(d, Writing) == d.(contexts := d.contexts + [Fresh()])
  {
  }

  lemma {:induction false} RunOneMore(s: System, steps: seq<Step>, step: Step)
    ensures Run(s, steps + [step]) == Next(Run(s, steps), step)
  {
    assert (steps + [step])[..|steps|] == steps;
  }

  lemma {:induction false} RunTwoMore(s: System, steps: seq<Step>, a: Step, b: Step)
    ensures Run(s, steps + [a] + [b]) == Next(Next(Run(s, steps), a), b)
  {
    RunOneMore(s, steps, a);
    RunOneMore(s, steps + [a], b);
  }

  /** Two fresh writers on an empty device. */
  ghost predicate Ready(s: System, key: seq<Byte>) {
    && !s.freed && |s.received| == |s.requested| == 2 && s.accepted == []
    && s.device == Device([], key, 0, 0, [Fresh(), Fresh()])
  }

  lemma {:induction false} BothOpen(raw: seq<Byte>)
    requires KeyOf(raw) != []
    ensures Ready(Run(INITIAL, [SetKey(raw), OpenFile(Writing), OpenFile(Writing)]), KeyOf(raw))
  {
    var key := KeyOf(raw);
    assert Run(INITIAL, []) == INITIAL;
    RunOneMore(INITIAL, [], SetKey(raw));
    var s := Run(INITIAL, [] + [SetKey(raw)]);
    assert s.device == Device([], key, 0, 0, []);
    OpenWriterOnEmpty(s.device);
    OpenWriterOnEmpty(Open(s.device, Writing));
    RunTwoMore(INITIAL, [] + [SetKey(raw)], OpenFile(Writing), OpenFile(Writing));
    assert [] + [SetKey(raw)] + [OpenFile(Writing)] + [OpenFile(Writing)]
        == [SetKey(raw), OpenFile(Writing), OpenFile(Writing)];
  }

  /** The state after the first writer's byte. */
  ghost predicate OneWritten(s: System, key: seq<Byte>, x: Byte) {
    && key != [] && !s.freed && |s.received| == |s.requested| == 2 && s.accepted == [x]
    && s.device == Device([Encrypted(x, key, 0)], key, 0, 1, [InBucket(0), Fresh()])
  }

  lemma {:induction false} FirstWrites(s: System, key: seq<Byte>, x: Byte)
    requires key != [] && Ready(s, key)
    ensures OneWritten(Next(s, WriteFile(0, [x])), key, x)
  {
    FirstByteInNewBucket(s.device, 0, x);
    assert s.device.contexts[0 := InBucket(0)] == [InBucket(0), Fresh()];
    assert [] + [Encrypted(x, key, 0)] == [Encrypted(x, key, 0)];
    assert s.accepted + [x][..1] == [x];
  }

  ghost predicate BothWritten(s: System, key: seq<Byte>, x: Byte, y: Byte) {
    && key != [] && !s.freed && |s.received| == |s.requested| == 2 && s.accepted == [x] + [y]
    && s.device == Device([Encrypted(x, key, 0), Encrypted(y, key, 0)], key, 0, 1, [InBucket(0), InBucket(1)])
  }

  lemma {:induction false} SecondWrites(s: System, key: seq<Byte>, x: Byte, y: Byte)
    requires OneWritten(s, key, x)
    ensures BothWritten(Next(s, WriteFile(1, [y])), key, x, y)
  {
    FirstByteInNewBucket(s.device, 1, y);
    assert s.device.contexts[1 := InBucket(1)] == [InBucket(0), InBucket(1)];
    assert [Encrypted(x, key, 0)] + [Encrypted(y, key, 0)] == [Encrypted(x, key, 0), Encrypted(y, key, 0)];
    assert [y][..1] == [y];
  }

  lemma {:induction false} TwoWritersRun(raw: seq<Byte>, x: Byte, y: Byte)
    requires KeyOf(raw) != []
    ensures OneWritten(Run(INITIAL, TwoWriters(raw, x)), KeyOf(raw), x)
    ensures BothWritten(Run(INITIAL, TwoWriters(raw, x) + [WriteFile(1, [y])]), KeyOf(raw), x, y)
  {
    var steps := [SetKey(raw), OpenFile(Writing), OpenFile(Writing)];
    BothOpen(raw);
    assert steps + [WriteFile(0, [x])] == TwoWriters(raw, x);
    RunOneMore(INITIAL, steps, WriteFile(0, [x]));
    FirstWrites(Run(INITIAL, steps), KeyOf(raw), x);
    RunOneMore(INITIAL, TwoWriters(raw, x), WriteFile(1, [y]));
    SecondWrites(Run(INITIAL, TwoWriters(raw, x)), KeyOf(raw), x, y);
  }

  /** The second writer appends its byte, but under the key offset it opened with: the
      stream is what was written if and only if the first two key bytes are equal. */
  lemma {:induction false} SecondWriterReadableExactly(raw: seq<Byte>, x: Byte, y: Byte)
    requires KeyOf(raw) != []
    ensures var s, key := Run(INITIAL, TwoWriters(raw, x) + [WriteFile(1, [y])]), KeyOf(raw);
            && s.device.key == key && s.accepted == [x, y]
            && (Plain(s.device) == s.accepted <==> key[0] == key[1 % |key|])
  {
    TwoWritersRun(raw, x, y);
    var s, t := Run(INITIAL, TwoWriters(raw, x)), Run(INITIAL, TwoWriters(raw, x) + [WriteFile(1, [y])]);
    var key := KeyOf(raw);
    PlainOfTwo(key, x, y, t.device);
    MixCancels(x, KeyByte(key, 0));
    if KeyByte(key, 0) == KeyByte(key, 1) {
      MixCancels(y, KeyByte(key, 0));
    } else {
      MixDiffers(y, KeyByte(key, 0), KeyByte(key, 1));
    }
  }

  lemma {:induction false} PlainOfTwo(key: seq<Byte>, x: Byte, y: Byte, d: Device)
    requires key != [] && d.key == key && d.keyfirst == 0
    requires d.buckets == [Encrypted(x, key, 0), Encrypted(y, key, 0)]
    ensures Plain(d) == [Mix(Mix(x, KeyByte(key, 0)), KeyByte(key, 0)), Mix(Mix(y, KeyByte(key, 0)), KeyByte(key, 1))]
  {
    var a, b := Mix(x, KeyByte(key, 0)), Mix(y, KeyByte(key, 0));
    assert Xor([x], key, 0) == [a] && Xor([y], key, 0) == [b];
    assert Tail(d.buckets, 1, 0) == [b] + [];
    assert Stored(d) == [a] + ([b] + []);
    XorAt([a, b], key, 0, 0);
    XorAt([a, b], key, 0, 1);
  }

  /** The first writer is now in the middle of the stream: however long its next write is,
      some data does not end up behind what was written before. */
  lemma {:induction false} FirstWriterInserts(raw: seq<Byte>, x: Byte, y: Byte, length: nat)
    requires KeyOf(raw) != [] && length > 0
    ensures var d := Run(INITIAL, TwoWriters(raw, x) + [WriteFile(1, [y])]).device;
            && InDevice(d, 0) && d.key != [] && !StaleWriters.AtStreamEnd(d, 0)
            && exists data: seq<Byte> :: |data| == length && !StaleWriters.Extends(d, 0, data)
  {
    TwoWritersRun(raw, x, y);
    var d := Run(INITIAL, TwoWriters(raw, x) + [WriteFile(1, [y])]).device;
    assert Tail(d.buckets, 1, 0) == d.buckets[1].bytes + [];
    StaleWriters.WritesExtendPlainExactly(d, 0, length);
  }

  // ---------- A lone reader ----------

  /** A reader in the first bucket that shares it with nobody frees it by reading beyond
      it, as soon as there is a second bucket. */
  lemma {:induction false} LoneReaderFrees(steps: seq<Step>, c: nat, count: nat)
    requires var s := Run(INITIAL, steps);
             && !s.freed && MayUse(s, c, Reading) && s.device.contexts[c].next == Some(0) && |s.device.buckets| >= 2
             && count > |s.device.buckets[0].bytes| - s.device.contexts[c].off
             && forall o :: 0 <= o < |s.device.contexts| && o != c ==> 0 !in s.device.contexts[o].holds
    ensures Next(Run(INITIAL, steps), ReadFile(c, count)).freed
  {
    RunsFreeExactly(steps, c, count);
    var d := Run(INITIAL, steps).device;
    assert Ahead(d, c) == d.buckets[0].bytes[d.contexts[c].off..] + Tail(d.buckets, 1, 0);
    assert Crosses(d, c, count, 0);
  }

  /** A writer that opened an empty device holds the bucket it is in and no other. */
  lemma {:induction false} WriterHoldsItsBucket(d: Device, c: nat, data: seq<Byte>)
    requires InDevice(d, c) && d.key != []
    requires d.contexts[c].holds == if d.contexts[c].next == None then {} else {d.contexts[c].next.value}
    ensures var x := Put(d, c, data).contexts;
            c < |x| && x[c].holds == if x[c].next == None then {} else {x[c].next.value}
    decreases |data|
  {
    if data != [] {
      var n := FirstChunk(d, c, data);
      WriterHoldsItsBucket(Append(WithRoom(d, c), c, data[..n]), c, data[n..]);
    }
  }

  /** One writer, then one reader. */
  function WriteThenOpen(data: seq<Byte>): seq<Step> {
    [OpenFile(Writing), WriteFile(0, data), OpenFile(Reading)]
  }

  lemma {:induction false} DisciplinedOneMore(steps: seq<Step>, step: Step)
    requires DisciplinedRun(INITIAL, steps) && Disciplined(Run(INITIAL, steps), step)
    ensures DisciplinedRun(INITIAL, steps + [step])
  {
    assert (steps + [step])[..|steps|] == steps;
  }

  ghost predicate OneWriter(s: System) {
    && !s.freed && |s.requested| == |s.received| == 1 && s.accepted == []
    && s.device == Device([], DEFAULT_KEY, 0, 0, [Fresh()])
  }

  lemma {:induction false} OneOpens()
    ensures OneWriter(Run(INITIAL, [] + [OpenFile(Writing)])) && DisciplinedRun(INITIAL, [] + [OpenFile(Writing)])
  {
    assert Run(INITIAL, []) == INITIAL;
    RunOneMore(INITIAL, [], OpenFile(Writing));
    OpenWriterOnEmpty(INITIAL.device);
    DisciplinedOneMore([], OpenFile(Writing));
  }

  /** A device that one writer wrote more than a bucket to. */
  ghost predicate WrittenAlone(s: System) {
    && !s.freed && |s.device.contexts| == |s.requested| == |s.received| == 1 && |s.accepted| > BUCKET_SIZE
    && s.device.contexts[0].mode == Writing && s.device.contexts[0].next.Some?
    && s.device.contexts[0].holds == {s.device.contexts[0].next.value}
  }

  lemma {:induction false} OneWrites(s: System, data: seq<Byte>)
    requires OneWriter(s) && |data| > BUCKET_SIZE
    ensures WrittenAlone(Next(s, WriteFile(0, data)))
  {
    var admitted := data[..Admitted(s.device, 0, |data|)];
    WriterHoldsItsBucket(s.device, 0, admitted);
    PutAppends(s.device, 0, admitted);
  }

  lemma {:induction false} OneReaderOpens(s: System)
    requires WrittenAlone(s) && InOrder(s)
    ensures var t := Next(s, OpenFile(Reading));
            && !t.freed && MayUse(t, 1, Reading) && t.device.contexts[1].next == Some(0)
            && t.device.contexts[1].off == 0
            && |t.device.buckets| >= 2 && |t.device.buckets[0].bytes| == BUCKET_SIZE
            && |t.device.contexts| == 2 && 0 !in t.device.contexts[0].holds
  {
    ByteAt(s, BUCKET_SIZE);
    assert IsLatestWriter(s.device.contexts, 0) && Current(s.device, 0);
  }

  /** The plainest use of the device: one writer writes more than a bucket, one reader then
      opens it and reads on beyond the first bucket. That frees the bucket. */
  lemma {:induction false} OneWriterOneReaderFrees(data: seq<Byte>, count: nat)
    requires |data| > 256 && count > 256
    ensures Next(Run(INITIAL, WriteThenOpen(data)), ReadFile(1, count)).freed
  {
    var open, steps := [] + [OpenFile(Writing)], [] + [OpenFile(Writing)] + [WriteFile(0, data)];
    OneOpens();
    RunOneMore(INITIAL, open, WriteFile(0, data));
    OneWrites(Run(INITIAL, open), data);
    DisciplinedOneMore(open, WriteFile(0, data));
    RunsStayInOrder(steps);
    RunOneMore(INITIAL, steps, OpenFile(Reading));
    OneReaderOpens(Run(INITIAL, steps));
    assert steps + [OpenFile(Reading)] == WriteThenOpen(data);
    LoneReaderFrees(WriteThenOpen(data), 1, count);
  }

  // ---------- A reader that came too early ----------

  /** A reader opens the empty device, then a writer opens it and writes a byte. */
  function OpenThenWrite(x: Byte): seq<Step> {
    [OpenFile(Reading)] + [OpenFile(Writing)] + [WriteFile(1, [x])]
  }

  lemma {:induction false} EarlyReaderIsStranded()
    ensures Stranded(Run(INITIAL, [OpenFile(Reading)]), 0)
    ensures DisciplinedRun(INITIAL, [OpenFile(Reading)])
    ensures var s := Run(INITIAL, [OpenFile(Reading)]);
            && !s.freed && s.accepted == [] && s.received == [[]] && s.requested == [0]
            && s.device.buckets == [] && s.device.key == DEFAULT_KEY && |s.device.contexts| == 1
  {
    var steps := [OpenFile(Reading)];
    assert Run(INITIAL, []) == INITIAL && [] + steps == steps;
    RunOneMore(INITIAL, [], OpenFile(Reading));
    DisciplinedOneMore([], OpenFile(Reading));
  }

  /** The run is as it should be, and yet the reader misses the byte for good. */
  lemma {:induction false} EarlyReaderMissesEverything(x: Byte)
    ensures DisciplinedRun(INITIAL, OpenThenWrite(x))
    ensures var s := Run(INITIAL, OpenThenWrite(x));
            && Stranded(s, 0) && !CanComplete(s, 0)
            && s.accepted == [x] && s.received[0] == []
  {
    var first, second := [OpenFile(Reading)], [OpenFile(Reading)] + [OpenFile(Writing)];
    EarlyReaderIsStranded();
    var s := Run(INITIAL, first);
    OpenWriterOnEmpty(s.device);
    RunOneMore(INITIAL, first, OpenFile(Writing));
    RunOneMore(INITIAL, second, WriteFile(1, [x]));
    DisciplinedOneMore(first, OpenFile(Writing));
    var t := Run(INITIAL, second);
    assert IsLatestWriter(t.device.contexts, 1);
    DisciplinedOneMore(second, WriteFile(1, [x]));
    RunsKeepAccountsAndQuotas(first);
    StepKeeps(s, OpenFile(Writing));
    StrandedStep(s, OpenFile(Writing), 0);
    StrandedStep(t, WriteFile(1, [x]), 0);
    assert [x][..1] == [x] && [] + [x] == [x];
  }
}
