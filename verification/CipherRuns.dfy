/** Runs of the cipher device: any interleaving of opens, reads, writes and resets,
    without a close. */
module CipherRuns {
  import opened Resources
  import opened Keystream
  import opened CipherDevice
  import opened CipherStream
  import opened CipherAccounts

  /** The bytes of DEFAULT_TEXT. */
  const DEFAULT_KEY: seq<Byte> :=
    [67, 69, 78, 71, 53, 51, 54, 32, 73, 83, 32, 84, 72, 69, 32, 66, 69, 83, 84, 33, 33, 33, 33, 33]

  const DEFAULT_TEXT := "CENG536 IS THE BEST!!!!!"

  predicate Spells(key: seq<Byte>, text: string) {
    |key| == |text| && forall i :: 0 <= i < |text| ==> key[i] as int == text[i] as int
  }

  lemma {:induction false} SpellsConcat(k: seq<Byte>, l: seq<Byte>, t: string, u: string)
    requires Spells(k, t) && Spells(l, u)
    ensures Spells(k + l, t + u)
  {
  }

  lemma {:induction false} FirstPartSpelt()
    ensures Spells([67, 69, 78, 71, 53, 51, 54, 32], "CENG536 ")
  {
  }

  lemma {:induction false} SecondPartSpelt()
    ensures Spells([73, 83, 32, 84, 72, 69, 32, 66], "IS THE B")
  {
  }

  lemma {:induction false} ThirdPartSpelt()
    ensures Spells([69, 83, 84, 33, 33, 33, 33, 33], "EST!!!!!")
  {
  }

  lemma {:induction false} PartsMakeText()
    ensures ("CENG536 " + "IS THE B") + "EST!!!!!" == DEFAULT_TEXT
  {
  }

  lemma {:induction false} PartsMakeKey()
    ensures ([67, 69, 78, 71, 53, 51, 54, 32] + [73, 83, 32, 84, 72, 69, 32, 66]) + [69, 83, 84, 33, 33, 33, 33, 33]
            == DEFAULT_KEY
  {
  }

  /** The default key is the text of the source, byte by byte. */
  lemma {:induction false} DefaultKeySpellsText()
    ensures Spells(DEFAULT_KEY, DEFAULT_TEXT)
  {
    var k, l: seq<Byte> := [67, 69, 78, 71, 53, 51, 54, 32], [73, 83, 32, 84, 72, 69, 32, 66];
    FirstPartSpelt();
    SecondPartSpelt();
    ThirdPartSpelt();
    SpellsConcat(k, l, "CENG536 ", "IS THE B");
    SpellsConcat(k + l, [69, 83, 84, 33, 33, 33, 33, 33], "CENG536 " + "IS THE B", "EST!!!!!");
    PartsMakeText();
    PartsMakeKey();
  }

  /** Since the last reset: what writers had accepted, what each context received, and
      how much each asked to write. freed is set when a read freed a bucket. */
  datatype System = System(
    device: Device, accepted: seq<Byte>, received: seq<seq<Byte>>, requested: seq<nat>, freed: bool)

  datatype Step =
    | OpenFile(mode: Mode)
    | ReadFile(context: nat, count: nat)
    | WriteFile(context: nat, data: seq<Byte>)
    | Clear
    | SetKey(raw: seq<Byte>)

  const INITIAL := System(Device([], DEFAULT_KEY, 0, 0, []), [], [], [], false)

  /** The key string a user's buffer holds: up to its first NUL, and room for one. */
  function KeyOf(raw: seq<Byte>): (key: seq<Byte>)
    ensures |key| < CIPHER_SIZE && 0 !in key && key <= raw
    ensures |key| == |raw| || |key| == 4095 || raw[|key|] == 0
  {
    var n := FirstWhere(raw, (b: Byte) => b == 0);
    raw[..Min(n, CIPHER_SIZE - 1)]
  }

  function Restarted(s: System, key: seq<Byte>): System {
    System(Reset(s.device, key), [], seq(|s.received|, _ => []), seq(|s.requested|, _ => 0), s.freed)
  }

  predicate MayUse(s: System, c: nat, mode: Mode) {
    && InDevice(s.device, c) && c < |s.received| && c < |s.requested|
    && s.device.contexts[c].mode == mode && s.device.key != []
  }

  function Next(s: System, step: Step): System {
    if s.freed then s
    else match step
      case OpenFile(mode) =>
        s.(device := Open(s.device, mode), received := s.received + [[]], requested := s.requested + [0])
      case ReadFile(c, count) =>
        if !MayUse(s, c, Reading) then s
        else (
          match Read(s.device, c, count)
          case Freed => s.(freed := true)
          case Copied(d, bytes) => s.(device := d, received := s.received[c := s.received[c] + bytes])
        )
      case WriteFile(c, data) =>
        if !MayUse(s, c, Writing) then s
        else s.(device := Write(s.device, c, data),
                accepted := s.accepted + data[..Admitted(s.device, c, |data|)],
                requested := s.requested[c := s.requested[c] + |data|])
      case Clear => Restarted(s, DEFAULT_KEY)
      case SetKey(raw) => if KeyOf(raw) == [] then s else Restarted(s, KeyOf(raw))
  }

  function Run(s: System, steps: seq<Step>): System {
    if steps == [] then s
    else Next(Run(s, steps[..|steps| - 1]), steps[|steps| - 1])
  }

  // ---------- What all runs keep: accounts and quotas ----------

  ghost predicate Kept(s: System) {
    && s.device.key != []
    && |s.received| == |s.requested| == |s.device.contexts|
    && Accounted(s.device)
    && (forall c :: 0 <= c < |s.device.contexts| && s.device.contexts[c].mode == Writing ==>
          s.device.contexts[c].written == Min(s.requested[c], MAX_WRITE_LEN))
    && (forall c: nat :: c < |s.device.contexts| && s.device.contexts[c].mode == Reading ==> Behind(s.device, c))
  }

  /** A cursor that is in a bucket is not behind its bytes. */
  predicate Behind(d: Device, c: nat) {
    InDevice(d, c) && (d.contexts[c].next.Some? ==> Placed(d, c))
  }

  lemma {:induction false} PutKeepsOthers(d: Device, c: nat, data: seq<Byte>, o: nat)
    requires InDevice(d, c) && d.key != [] && o < |d.contexts|
    ensures var e := Put(d, c, data);
            && |e.contexts| == |d.contexts| && e.key == d.key && e.keyfirst == d.keyfirst
            && (o != c ==> e.contexts[o] == d.contexts[o].(holds := e.contexts[o].holds))
            && e.contexts[c].mode == d.contexts[c].mode
            && e.contexts[c].written == d.contexts[c].written + |data|
    decreases |data|
  {
    if data != [] {
      var r := WithRoom(d, c);
      var n := FirstChunk(d, c, data);
      PutKeepsOthers(Append(r, c, data[..n]), c, data[n..], o);
    }
  }

  lemma {:induction false} ReadKeepsOthers(d: Device, c: nat, count: nat)
    requires InDevice(d, c) && d.key != []
    ensures Read(d, c, count).Copied? ==> OnlyMoved(d, Read(d, c, count).device, c)
    decreases count, if d.contexts[c].next.Some? then |d.buckets| - d.contexts[c].next.value else 0
  {
    var x := d.contexts[c];
    if count > 0 && x.next.Some? {
      var b := d.buckets[x.next.value];
      if |b.bytes| <= x.off {
        if b.refcount != 1 {
          ReadKeepsOthers(Pass(d, c), c, count);
        }
      } else {
        var n := Min(|b.bytes| - x.off, count);
        ReadKeepsOthers(Advance(d, c, n), c, count - n);
      }
    }
  }

  ghost predicate BytesGrow(bs: seq<Bucket>, cs: seq<Bucket>) {
    |bs| <= |cs| && forall k :: 0 <= k < |bs| ==> |bs[k].bytes| <= |cs[k].bytes|
  }

  lemma {:induction false} PutGrowsBytes(d: Device, c: nat, data: seq<Byte>)
    requires InDevice(d, c) && d.key != []
    ensures BytesGrow(d.buckets, Put(d, c, data).buckets)
    decreases |data|
  {
    if data != [] {
      var n := FirstChunk(d, c, data);
      var e := Append(WithRoom(d, c), c, data[..n]);
      assert BytesGrow(d.buckets, WithRoom(d, c).buckets);
      assert BytesGrow(d.buckets, e.buckets);
      PutGrowsBytes(e, c, data[n..]);
    }
  }

  lemma {:induction false} ReadKeeps(s: System, c: nat, count: nat)
    requires Kept(s)
    ensures Kept(Next(s, ReadFile(c, count)))
  {
    if MayUse(s, c, Reading) && Read(s.device, c, count).Copied? {
      var t := Next(s, ReadFile(c, count));
      ReadKeepsAccounts(s.device, c, count);
      ReadKeepsOthers(s.device, c, count);
      assert Behind(s.device, c);
      if s.device.contexts[c].next.Some? {
        ReadCopiesAhead(s.device, c, count);
      }
      forall o: nat | o < |t.device.contexts| && t.device.contexts[o].mode == Reading
        ensures Behind(t.device, o)
      {
        assert o != c ==> Behind(s.device, o);
      }
    }
  }

  lemma {:induction false} WriteKeeps(s: System, c: nat, data: seq<Byte>)
    requires Kept(s)
    ensures Kept(Next(s, WriteFile(c, data)))
  {
    if !s.freed && MayUse(s, c, Writing) {
      var t := Next(s, WriteFile(c, data));
      var admitted := data[..Admitted(s.device, c, |data|)];
      PutKeepsAccounts(s.device, c, admitted);
      PutKeepsOthers(s.device, c, admitted, c);
      forall o | 0 <= o < |t.device.contexts| && t.device.contexts[o].mode == Writing
        ensures t.device.contexts[o].written == Min(t.requested[o], MAX_WRITE_LEN)
      {
        PutKeepsOthers(s.device, c, admitted, o);
      }
      PutGrowsBytes(s.device, c, admitted);
      forall o: nat | o < |t.device.contexts| && t.device.contexts[o].mode == Reading
        ensures Behind(t.device, o)
      {
        PutKeepsOthers(s.device, c, admitted, o);
        assert Behind(s.device, o);
      }
    }
  }

  lemma {:induction false} OpenKeeps(s: System, mode: Mode)
    requires Kept(s)
    ensures Kept(Next(s, OpenFile(mode)))
  {
    var t := Next(s, OpenFile(mode));
    OpenKeepsAccounts(s.device, mode);
    forall o: nat | o < |t.device.contexts| && t.device.contexts[o].mode == Reading
      ensures Behind(t.device, o)
    {
      assert o < |s.device.contexts| ==> Behind(s.device, o);
    }
  }

  lemma {:induction false} StepKeeps(s: System, step: Step)
    requires Kept(s)
    ensures Kept(Next(s, step))
  {
    match step
    case OpenFile(mode) => OpenKeeps(s, mode);
    case ReadFile(c, count) => ReadKeeps(s, c, count);
    case WriteFile(c, data) => WriteKeeps(s, c, data);
    case Clear => ResetKeepsAccounts(s.device, DEFAULT_KEY);
    case SetKey(raw) => ResetKeepsAccounts(s.device, KeyOf(raw));
  }

  /** In every run each reference count is the number of holders, every context holds
      the bucket it is in, and each writer got min(8192, asked for) bytes in. */
  lemma {:induction false} RunsKeepAccountsAndQuotas(steps: seq<Step>)
    ensures Kept(Run(INITIAL, steps))
  {
    if steps != [] {
      RunsKeepAccountsAndQuotas(steps[..|steps| - 1]);
      StepKeeps(Run(INITIAL, steps[..|steps| - 1]), steps[|steps| - 1]);
    }
  }

  /** In every run QREM tells a writer 8192 minus what it got in. */
  lemma {:induction false} RunsReportQuota(steps: seq<Step>, c: nat)
    requires var s := Run(INITIAL, steps); c < |s.device.contexts| && s.device.contexts[c].mode == Writing
    ensures var s := Run(INITIAL, steps);
            c < |s.requested| && Remaining(s.device, c) == 8192 - Min(s.requested[c], 8192)
  {
    RunsKeepAccountsAndQuotas(steps);
  }

  /** If QREM reports r to a writer, a write of n bytes gets min(n, r) of them in, and
      QREM then reports r - min(n, r). */
  lemma {:induction false} RemainingPredictsWrite(d: Device, c: nat, data: seq<Byte>)
    requires InDevice(d, c) && d.key != [] && d.contexts[c].mode == Writing
    ensures var e, r := Write(d, c, data), Remaining(d, c);
            && Admitted(d, c, |data|) == Min(|data|, r)
            && c < |e.contexts| && Remaining(e, c) == r - Min(|data|, r)
  {
    PutKeepsOthers(d, c, data[..Admitted(d, c, |data|)], c);
  }

  /** In every run, a read frees a bucket exactly when it moves on from one that no other
      context holds, which is never the last bucket. */
  lemma {:induction false} RunsFreeExactly(steps: seq<Step>, c: nat, count: nat)
    requires var s := Run(INITIAL, steps);
             !s.freed && MayUse(s, c, Reading) && s.device.contexts[c].next.Some?
    ensures var s := Run(INITIAL, steps);
            && Placed(s.device, c)
            && (Next(s, ReadFile(c, count)).freed <==>
                exists k: nat :: k + 1 < |s.device.buckets| && Crosses(s.device, c, count, k)
                  && forall o :: 0 <= o < |s.device.contexts| && o != c ==> k !in s.device.contexts[o].holds)
  {
    RunsKeepAccountsAndQuotas(steps);
    var s := Run(INITIAL, steps);
    assert Behind(s.device, c);
    ReadFreesOnlySolelyHeld(s.device, c, count);
  }

  /** While another reader stays in the first bucket, no read frees anything. */
  lemma {:induction false} ReaderAtHeadProtects(steps: seq<Step>, c: nat, count: nat, o: nat)
    requires var s := Run(INITIAL, steps);
             && !s.freed && MayUse(s, c, Reading) && s.device.contexts[c].next.Some?
             && o != c && MayUse(s, o, Reading) && s.device.contexts[o].next == Some(0)
    ensures !Next(Run(INITIAL, steps), ReadFile(c, count)).freed
  {
    RunsKeepAccountsAndQuotas(steps);
    RunsFreeExactly(steps, c, count);
    var s := Run(INITIAL, steps);
    assert HoldsRightly(s.device, s.device.contexts[o]);
  }

  // ---------- A reader without a bucket ----------

  predicate IsReset(step: Step) {
    step.Clear? || (step.SetKey? && KeyOf(step.raw) != [])
  }

  /** Whether the device was reset in the course of these steps. */
  predicate ResetDuring(s: System, steps: seq<Step>) {
    steps != [] &&
    (ResetDuring(s, steps[..|steps| - 1])
     || (IsReset(steps[|steps| - 1]) && !Run(s, steps[..|steps| - 1]).freed))
  }

  predicate Stranded(s: System, c: nat) {
    && c < |s.device.contexts| && c < |s.received|
    && s.device.contexts[c].mode == Reading && s.device.contexts[c].next == None
  }

  lemma {:induction false} StrandedStep(t: System, step: Step, c: nat)
    requires Kept(t) && Stranded(t, c)
    ensures var u := Next(t, step);
            Stranded(u, c) && u.received[c] == if IsReset(step) && !t.freed then [] else t.received[c]
  {
    match step
    case ReadFile(o, count) =>
      if MayUse(t, o, Reading) && Read(t.device, o, count).Copied? {
        ReadKeepsOthers(t.device, o, count);
      }
    case WriteFile(o, data) =>
      if MayUse(t, o, Writing) {
        PutKeepsOthers(t.device, o, data[..Admitted(t.device, o, |data|)], c);
      }
    case _ =>
  }

  /** A reader that has no bucket, because it opened an empty device, was once asked for
      more than there was, or was open at a reset, never has one again and receives nothing
      more, whatever is written, read, opened or reset. */
  lemma {:induction false} StrandedReadersStayStranded(before: seq<Step>, after: seq<Step>, c: nat)
    requires Stranded(Run(INITIAL, before), c)
    ensures var s, t := Run(INITIAL, before), Run(Run(INITIAL, before), after);
            && Stranded(t, c) && Kept(t)
            && t.received[c] == if ResetDuring(s, after) then [] else s.received[c]
    decreases |after|
  {
    if after == [] {
      RunsKeepAccountsAndQuotas(before);
    } else {
      var init, step := after[..|after| - 1], after[|after| - 1];
      StrandedReadersStayStranded(before, init, c);
      var t := Run(Run(INITIAL, before), init);
      StepKeeps(t, step);
      StrandedStep(t, step, c);
    }
  }

  /** A reset strands every reader that is open: it receives nothing ever after. */
  lemma {:induction false} ResetsStrandOpenReaders(before: seq<Step>, reset: Step, after: seq<Step>, c: nat)
    requires IsReset(reset) && !Run(INITIAL, before).freed
    requires var s := Run(INITIAL, before); c < |s.device.contexts| && s.device.contexts[c].mode == Reading
    ensures var t := Run(Run(INITIAL, before + [reset]), after); Stranded(t, c) && t.received[c] == []
  {
    RunsKeepAccountsAndQuotas(before);
    var all := before + [reset];
    assert all[..|before|] == before;
    assert Run(INITIAL, all) == Next(Run(INITIAL, before), reset);
    StrandedReadersStayStranded(all, after, c);
  }
}
