/** NUL bytes in the command stream: which streams are framed alike however reads split
    them. String functions stop at a NUL, so a read loses what follows one in it. */
module LineSplits {
  import opened LineFramer

  // ---------- A connection dispatches at most one line per newline ----------

  function Newlines(s: string): nat {
    if s == "" then 0 else (if s[0] == '\n' then 1 else 0) + Newlines(s[1..])
  }

  lemma {:induction false} NewlinesOfConcat(s: string, t: string)
    ensures Newlines(s + t) == Newlines(s) + Newlines(t)
  {
    if s == "" {
      assert s + t == t;
    } else {
      assert (s + t)[1..] == s[1..] + t;
      NewlinesOfConcat(s[1..], t);
    }
  }

  lemma {:induction false} NewlinesSplit(s: string, k: nat)
    requires k <= |s|
    ensures Newlines(s) == Newlines(s[..k]) + Newlines(s[k..])
  {
    NewlinesOfConcat(s[..k], s[k..]);
    assert s == s[..k] + s[k..];
  }

  lemma {:induction false} NoNewlines(s: string)
    ensures Newlines(s) == 0 <==> Lacks(s, '\n')
  {
    if s != "" {
      NoNewlines(s[1..]);
    }
  }

  lemma {:induction false} FrameCountsNewlines(s: string)
    ensures |Frame(s).lines| + Newlines(Frame(s).rest) == Newlines(s)
    decreases |s|
  {
    var n := Find(s, '\n');
    if n < |s| {
      NewlinesSplit(s, n + 1);
      NewlinesSplit(s[..n + 1], n);
      LacksBefore(s, '\n');
      assert s[..n + 1][..n] == s[..n] && s[..n + 1][n..] == "\n";
      NoNewlines(s[..n]);
      if !IsQuit(s[..n]) {
        FrameCountsNewlines(s[n + 1..]);
      }
    }
  }

  lemma {:induction false} VisibleCountsNoMore(s: string)
    ensures Newlines(Visible(s)) <= Newlines(s)
  {
    NewlinesSplit(s, Find(s, '\0'));
  }

  lemma {:induction false} ServeCountsNewlines(buffer: string, stream: string, offered: seq<nat>)
    requires |buffer| < BUFFER_SIZE && Lacks(buffer, '\n')
    ensures |Serve(buffer, stream, offered)| <= Newlines(stream)
    decreases |offered|
  {
    var room := BUFFER_SIZE - |buffer| - 1;
    if room > 0 && stream != "" && offered != [] {
      var n := ReadSize(offered[0], room, |stream|);
      var seen := Visible(buffer + stream[..n]);
      FrameCountsNewlines(seen);
      VisibleCountsNoMore(buffer + stream[..n]);
      NewlinesOfConcat(buffer, stream[..n]);
      NoNewlines(buffer);
      NewlinesSplit(stream, n);
      FrameCutsAtNewlines(seen);
      if !Frame(seen).quit {
        ServeCountsNewlines(Frame(seen).rest, stream[n..], offered[1..]);
      }
    }
  }

  // ---------- A NUL behind the last newline does no harm ----------

  lemma {:induction false} DispatchStep(s: string, n: nat, line: string, later: string)
    requires n == Find(s, '\n') < |s| && line == s[..n] && later == s[n + 1..]
    ensures n + 1 >= BUFFER_SIZE ==> Dispatch(s) == []
    ensures n + 1 < BUFFER_SIZE && IsQuit(line) ==> Dispatch(s) == [line]
    ensures n + 1 < BUFFER_SIZE && !IsQuit(line) ==> Dispatch(s) == [line] + Dispatch(later)
  {
  }

  lemma {:induction false} DispatchIgnoresTail(s: string, tail: string)
    requires Lacks(tail, '\n')
    ensures Dispatch(s + tail) == Dispatch(s)
    decreases |s|
  {
    var n, all := Find(s, '\n'), s + tail;
    FindInConcat(s, tail, '\n');
    if n < |s| {
      var line, later := s[..n], s[n + 1..];
      assert all[..n] == line && all[n + 1..] == later + tail;
      DispatchStep(s, n, line, later);
      DispatchStep(all, n, line, later + tail);
      DispatchIgnoresTail(later, tail);
    }
  }

  /** A read that reaches beyond the NUL-free part dispatches all its lines. */
  lemma {:induction false} ReadBeyondHead(buffer: string, head: string, part: string)
    requires |buffer + head + part| < BUFFER_SIZE
    requires Lacks(buffer, '\0') && Lacks(head, '\0') && Lacks(part, '\n')
    ensures Frame(Visible(buffer + head + part)).lines == Dispatch(buffer + head)
    ensures var f := Frame(Visible(buffer + head + part)); |f.rest| < BUFFER_SIZE && (!f.quit ==> Lacks(f.rest, '\n'))
  {
    var s, seen := buffer + head, Visible(buffer + head + part);
    FindInConcat(buffer, head, '\0');
    FindInConcat(s, part, '\0');
    assert seen == s + Visible(part);
    LacksSlices(part, '\n', Find(part, '\0'));
    DispatchIgnoresTail(s, Visible(part));
    DispatchFramed(seen, "");
    assert seen + "" == seen;
    FrameCutsAtNewlines(seen);
    if !Frame(seen).quit {
      assert Frame(seen).rest + "" == Frame(seen).rest;
    }
  }

  lemma {:induction false} ReadWithinHead(buffer: string, head: string, tail: string, n: nat)
    requires n <= |head| && |buffer| + n < BUFFER_SIZE && Lacks(buffer, '\0') && Lacks(head, '\0')
    ensures (head + tail)[..n] == head[..n] && (head + tail)[n..] == head[n..] + tail
    ensures var t := buffer + head[..n]; var f := Frame(t);
            && Visible(t) == t && |f.rest| < BUFFER_SIZE
            && Dispatch(buffer + head) == f.lines + (if f.quit then [] else Dispatch(f.rest + head[n..]))
            && Lacks(f.rest, '\0') && Lacks(head[n..], '\0') && (!f.quit ==> Lacks(f.rest, '\n'))
  {
    var t := buffer + head[..n];
    LacksSlices(head, '\0', n);
    FindInConcat(buffer, head[..n], '\0');
    VisibleWithoutNul(t);
    assert buffer + head == t + head[n..];
    DispatchFramed(t, head[n..]);
    FrameRest(t);
  }

  lemma {:induction false} ServeBeyondHead(buffer: string, head: string, tail: string, n: nat, offered: seq<nat>)
    requires |buffer| < BUFFER_SIZE - 1 && Lacks(buffer, '\0') && Lacks(head, '\0') && Lacks(tail, '\n')
    requires offered != [] && |head| < n <= |head + tail|
    requires n == ReadSize(offered[0], BUFFER_SIZE - |buffer| - 1, |head + tail|)
    ensures Serve(buffer, head + tail, offered) == Dispatch(buffer + head)
  {
    var stream := head + tail;
    var part, later := tail[..n - |head|], tail[n - |head|..];
    assert buffer + stream[..n] == buffer + head + part && stream[n..] == later;
    LacksSlices(tail, '\n', n - |head|);
    ReadBeyondHead(buffer, head, part);
    var f := Frame(Visible(buffer + head + part));
    if !f.quit {
      ServeCountsNewlines(f.rest, later, offered[1..]);
      NoNewlines(later);
    }
  }

  lemma {:induction false} ServeWithoutRoom(buffer: string, head: string)
    requires |buffer| == BUFFER_SIZE - 1 && Lacks(buffer, '\n')
    ensures Dispatch(buffer + head) == []
  {
    FindInConcat(buffer, head, '\n');
  }

  /** What stands behind the NUL-free head and holds no newline changes nothing. */
  lemma {:induction false} ServeDispatchesHead(buffer: string, head: string, tail: string, offered: seq<nat>)
    requires |buffer| < BUFFER_SIZE && Lacks(buffer, '\n') && Lacks(buffer, '\0')
    requires Lacks(head, '\0') && Lacks(tail, '\n') && |offered| >= |head|
    ensures Serve(buffer, head + tail, offered) == Dispatch(buffer + head)
    decreases |offered|
  {
    var room, stream := BUFFER_SIZE - |buffer| - 1, head + tail;
    if head == "" {
      assert stream == tail && buffer + head == buffer;
      ServeCountsNewlines(buffer, tail, offered);
      NoNewlines(tail);
    } else if room == 0 {
      ServeWithoutRoom(buffer, head);
    } else {
      var n := ReadSize(offered[0], room, |stream|);
      if n <= |head| {
        ReadWithinHead(buffer, head, tail, n);
        var f := Frame(buffer + head[..n]);
        if !f.quit {
          ServeDispatchesHead(f.rest, head[n..], tail, offered[1..]);
        }
      } else {
        ServeBeyondHead(buffer, head, tail, n, offered);
      }
    }
  }

  ghost predicate NulBeforeNewline(s: string) {
    exists p, q :: 0 <= p < q < |s| && s[p] == '\0' && s[q] == '\n'
  }

  lemma {:induction false} LacksMeansNone(s: string, c: char)
    ensures Lacks(s, c) <==> forall i :: 0 <= i < |s| ==> s[i] != c
  {
    if s != "" {
      LacksMeansNone(s[1..], c);
      assert forall i :: 0 < i < |s| ==> s[i] == s[1..][i - 1];
    }
  }

  lemma {:induction false} LastLineIsLast(s: string)
    ensures |LastLine(s)| <= |s| && s[|s| - |LastLine(s)|..] == LastLine(s)
    ensures |LastLine(s)| < |s| ==> s[|s| - |LastLine(s)| - 1] == '\n'
    ensures |LastLine(s)| == |s| <==> Lacks(s, '\n')
    decreases |s|
  {
    var n := Find(s, '\n');
    if n < |s| {
      LacksBefore(s, '\n');
      LastLineIsLast(s[n + 1..]);
    }
  }

  lemma {:induction false} HeadAndTail(s: string) returns (head: string, tail: string)
    requires !NulBeforeNewline(s)
    ensures s == head + tail && Lacks(head, '\0') && Lacks(tail, '\n')
  {
    LastLineIsLast(s);
    head, tail := s[..|s| - |LastLine(s)|], LastLine(s);
    LacksMeansNone(head, '\0');
  }

  /** Without a NUL before a newline, the lines up to the last newline are dispatched
      however reads split the stream. */
  lemma {:induction false} NulBehindNewlinesIsHarmless(s: string)
    requires !NulBeforeNewline(s)
    ensures SplitIndependent(s)
    ensures forall offered: seq<nat> :: |offered| >= |s| ==> Serve("", s, offered) == Dispatch(s)
  {
    var head, tail := HeadAndTail(s);
    DispatchIgnoresTail(head, tail);
    forall offered: seq<nat> | |offered| >= |s|
      ensures Serve("", s, offered) == Dispatch(s)
    {
      ServeDispatchesHead("", head, tail, offered);
      assert "" + head == head;
    }
  }

  // ---------- A NUL before a newline loses a line under some split ----------

  function Stripped(s: string): (r: string)
    ensures |r| <= |s| && Lacks(r, '\0')
    ensures Lacks(s, '\n') ==> Lacks(r, '\n')
  {
    if s == "" then ""
    else if s[0] == '\0' then Stripped(s[1..])
    else [s[0]] + Stripped(s[1..])
  }

  lemma {:induction false} StrippedOneMore(s: string, c: char)
    ensures Stripped(s + [c]) == Stripped(s) + if c == '\0' then "" else [c]
  {
    if s == "" {
      assert [c][1..] == "";
    } else {
      assert (s + [c])[1..] == s[1..] + [c];
      StrippedOneMore(s[1..], c);
    }
  }

  /** What byte-by-byte reading has in the buffer after k bytes. */
  function Carried(s: string, k: nat): (r: string)
    requires k <= |s|
    ensures Lacks(r, '\n') && Lacks(r, '\0')
  {
    Stripped(LastLine(s[..k]))
  }

  predicate Fits(s: string, k: nat)
    requires k <= |s|
  {
    |LastLine(s[..k])| <= BUFFER_SIZE - 2
  }

  predicate QuitsAt(s: string, k: nat)
    requires k < |s|
  {
    s[k] == '\n' && IsQuit(Carried(s, k))
  }

  /** Every line and the tail fit the buffer, and no line but the last is a quit even when
      its NULs are taken out. */
  ghost predicate Tame(s: string) {
    && (forall k :: 0 <= k <= |s| ==> Fits(s, k))
    && (forall k :: 0 <= k < |s| && QuitsAt(s, k) ==> Lacks(s[k + 1..], '\n'))
  }

  lemma {:induction false} CarriedOneMore(s: string, k: nat)
    requires k < |s|
    ensures Carried(s, k + 1) == if s[k] == '\n' then ""
               else if s[k] == '\0' then Carried(s, k) else Carried(s, k) + [s[k]]
  {
    assert s[..k + 1] == s[..k] + [s[k]];
    LastLineOfConcat(s[..k], [s[k]]);
    var line := LastLine(s[..k]);
    FindInConcat(line, [s[k]], '\n');
    if s[k] == '\n' {
      assert (line + [s[k]])[|line| + 1..] == "";
    } else {
      StrippedOneMore(line, s[k]);
    }
  }

  lemma {:induction false} FrameOfOneMore(b: string, c: char)
    requires Lacks(b, '\n') && Lacks(b, '\0')
    ensures Frame(Visible(b + [c]))
            == if c == '\n' then Framed([b], "", IsQuit(b))
               else if c == '\0' then Framed([], b, false) else Framed([], b + [c], false)
  {
    var t := b + [c];
    FindInConcat(b, [c], '\0');
    FindInConcat(b, [c], '\n');
    if c == '\0' {
      assert t[..|b|] == b;
    } else {
      assert t[..|b| + 1] == t;
      if c == '\n' {
        assert t[..|b|] == b && t[|b| + 1..] == "";
        assert [b] + Frame("").lines == [b];
      }
    }
  }

  lemma {:induction false} ReadOneByte(b: string, stream: string, offered: seq<nat>)
    requires |b| < BUFFER_SIZE - 1 && Lacks(b, '\n') && Lacks(b, '\0')
    requires stream != "" && offered != [] && offered[0] == 1
    ensures var f := Frame(Visible(b + [stream[0]]));
            |f.rest| < BUFFER_SIZE
            && Serve(b, stream, offered) == f.lines + if f.quit then [] else Serve(f.rest, stream[1..], offered[1..])
  {
    assert stream[..1] == [stream[0]];
    assert ReadSize(offered[0], BUFFER_SIZE - |b| - 1, |stream|) == 1;
    RestIsShort(b + [stream[0]]);
  }

  lemma {:induction false} RestIsShort(s: string)
    ensures |Frame(Visible(s)).rest| <= |s|
  {
  }

  lemma {:induction false} OneByte(s: string, k: nat, offered: seq<nat>)
    requires Tame(s) && k < |s| && offered != [] && offered[0] == 1
    ensures |Carried(s, k)| < BUFFER_SIZE && |Carried(s, k + 1)| < BUFFER_SIZE
    ensures Serve(Carried(s, k), s[k..], offered)
            == if QuitsAt(s, k) then [Carried(s, k)]
               else (if s[k] == '\n' then [Carried(s, k)] else []) + Serve(Carried(s, k + 1), s[k + 1..], offered[1..])
  {
    assert Fits(s, k) && Fits(s, k + 1);
    assert s[k..][1..] == s[k + 1..];
    ReadOneByte(Carried(s, k), s[k..], offered);
    FrameOfOneMore(Carried(s, k), s[k]);
    CarriedOneMore(s, k);
  }

  function Ones(n: nat): seq<nat> {
    seq(n, _ => 1)
  }

  lemma {:induction false} NoQuitBefore(s: string, k: nat, p: nat)
    requires Tame(s) && k < p <= |s| && !Lacks(s[p..], '\n') && s[k] == '\n'
    ensures !IsQuit(Carried(s, k))
  {
    assert !QuitsAt(s, k) || Lacks(s[k + 1..], '\n');
    assert s[k + 1..][p - k - 1..] == s[p..];
    LacksSlices(s[k + 1..], '\n', p - k - 1);
  }

  lemma {:induction false} OneLess(n: nat, more: seq<nat>)
    requires n > 0
    ensures var offered := Ones(n) + more;
            offered[0] == 1 && offered[1..] == Ones(n - 1) + more
  {
  }

  function CountOf(c: char): nat {
    if c == '\n' then 1 else 0
  }

  lemma {:induction false} ByteCounts(s: string, k: nat, p: nat, offered: seq<nat>)
    requires Tame(s) && k < p <= |s| && !Lacks(s[p..], '\n') && offered != [] && offered[0] == 1
    ensures |Carried(s, k)| < BUFFER_SIZE && |Carried(s, k + 1)| < BUFFER_SIZE
    ensures |Serve(Carried(s, k), s[k..], offered)|
            == CountOf(s[k]) + |Serve(Carried(s, k + 1), s[k + 1..], offered[1..])|
    ensures Newlines(s[k..p]) == CountOf(s[k]) + Newlines(s[k + 1..p])
  {
    assert s[k..p][1..] == s[k + 1..p];
    OneByte(s, k, offered);
    if s[k] == '\n' {
      NoQuitBefore(s, k, p);
    }
  }

  /** Byte by byte, every newline before p dispatches a line, whatever reads follow. */
  lemma {:induction false} BytesUpTo(s: string, k: nat, p: nat, more: seq<nat>)
    requires Tame(s) && k <= p <= |s| && !Lacks(s[p..], '\n')
    ensures |Carried(s, k)| < BUFFER_SIZE && |Carried(s, p)| < BUFFER_SIZE
    ensures |Serve(Carried(s, k), s[k..], Ones(p - k) + more)|
            == Newlines(s[k..p]) + |Serve(Carried(s, p), s[p..], more)|
    decreases p - k
  {
    if k == p {
      assert Fits(s, k);
      assert Ones(0) + more == more && s[k..p] == "";
    } else {
      OneLess(p - k, more);
      ByteCounts(s, k, p, Ones(p - k) + more);
      BytesUpTo(s, k + 1, p, more);
    }
  }

  lemma {:induction false} BytewiseHearsEveryLine(s: string)
    requires Tame(s) && !Lacks(s, '\n')
    ensures |Serve("", s, Ones(|s|))| >= Newlines(s)
  {
    LastLineIsLast(s);
    var z := |s| - |LastLine(s)| - 1;
    assert s[z..][0] == '\n';
    var more := Ones(|s| - z);
    assert Ones(z) + more == Ones(|s|);
    FromTheStart(s, z);
    BytesUpTo(s, 0, z, more);
    OneByte(s, z, more);
    NewlinesSplit(s, z);
    assert s[z..][1..] == LastLine(s);
    NoNewlines(LastLine(s));
  }

  lemma {:induction false} LineGoesOn(s: string, p: nat, q: nat)
    requires p <= q <= |s| && Lacks(s[p..q], '\n')
    ensures LastLine(s[..q]) == LastLine(s[..p]) + s[p..q]
  {
    assert s[..q] == s[..p] + s[p..q];
    LastLineOfConcat(s[..p], s[p..q]);
    FindInConcat(LastLine(s[..p]), s[p..q], '\n');
  }

  lemma {:induction false} VisibleUpToNul(b: string, part: string)
    requires Lacks(b, '\n') && Lacks(b, '\0') && part != "" && part[0] == '\0'
    ensures Visible(b + part) == b && Frame(b) == Framed([], b, false)
  {
    FindInConcat(b, part, '\0');
  }

  lemma {:induction false} ReadIsLost(b: string, stream: string, n: nat, later: seq<nat>)
    requires Lacks(b, '\n') && Lacks(b, '\0') && 0 < n <= |stream| && stream[0] == '\0' && |b| + n < BUFFER_SIZE
    ensures Serve(b, stream, [n] + later) == Serve(b, stream[n..], later)
  {
    VisibleUpToNul(b, stream[..n]);
    assert ([n] + later)[1..] == later;
  }

  /** A read from a NUL through the newline behind it leaves the buffer as it was. */
  lemma {:induction false} ReadFromNul(s: string, p: nat, q: nat, later: seq<nat>)
    requires Tame(s) && p < q < |s| && s[p] == '\0' && s[q] == '\n' && Lacks(s[p..q], '\n')
    ensures |Carried(s, p)| < BUFFER_SIZE
    ensures Serve(Carried(s, p), s[p..], [q - p + 1] + later) == Serve(Carried(s, p), s[q + 1..], later)
  {
    LineGoesOn(s, p, q);
    assert Fits(s, q);
    assert s[p..][q - p + 1..] == s[q + 1..];
    ReadIsLost(Carried(s, p), s[p..], q - p + 1, later);
  }

  lemma {:induction false} NewlinesAround(s: string, p: nat, q: nat)
    requires p < q < |s| && s[q] == '\n'
    ensures !Lacks(s[p..], '\n') && Newlines(s) > Newlines(s[..p]) + Newlines(s[q + 1..])
  {
    NewlinesSplit(s, p);
    NewlinesSplit(s[p..], q - p);
    assert s[p..][q - p..][1..] == s[q + 1..];
    NoNewlines(s[p..]);
  }

  lemma {:induction false} NulLosesALine(s: string, p: nat, q: nat)
    requires Tame(s) && p < q < |s| && s[p] == '\0' && s[q] == '\n' && Lacks(s[p..q], '\n')
    ensures |Serve("", s, Ones(p) + ([q - p + 1] + Ones(|s|)))| < Newlines(s)
  {
    var more := [q - p + 1] + Ones(|s|);
    NewlinesAround(s, p, q);
    FromTheStart(s, p);
    BytesUpTo(s, 0, p, more);
    ReadFromNul(s, p, q, Ones(|s|));
    ServeCountsNewlines(Carried(s, p), s[q + 1..], Ones(|s|));
  }

  lemma {:induction false} FromTheStart(s: string, p: nat)
    requires p <= |s|
    ensures s[..0] == "" && s[0..] == s && s[0..p] == s[..p]
  {
  }

  lemma {:induction false} NewlineBehind(s: string, p: nat, r: nat) returns (q: nat)
    requires p < r < |s| && s[p] == '\0' && s[r] == '\n'
    ensures p < q < |s| && s[q] == '\n' && Lacks(s[p..q], '\n') && !Lacks(s, '\n')
  {
    LacksMeansNone(s, '\n');
    LacksMeansNone(s[p..], '\n');
    assert s[p..][r - p] == '\n' && s[p..][0] == '\0';
    q := p + Find(s[p..], '\n');
    LacksBefore(s[p..], '\n');
    assert s[p..][..q - p] == s[p..q] && s[p..][q - p] == s[q];
  }

  /** When all lines fit and none but the last is a quit, a stream is framed the same under
      every split if and only if no NUL stands before a newline. */
  lemma {:induction false} SplitSafeExactlyWithoutNulBeforeNewline(s: string)
    requires Tame(s)
    ensures SplitIndependent(s) <==> !NulBeforeNewline(s)
  {
    if NulBeforeNewline(s) {
      var p, r :| 0 <= p < r < |s| && s[p] == '\0' && s[r] == '\n';
      var q := NewlineBehind(s, p, r);
      NulLosesALine(s, p, q);
      BytewiseHearsEveryLine(s);
      var bytewise, lossy := Ones(|s|), Ones(p) + ([q - p + 1] + Ones(|s|));
      assert |bytewise| >= |s| && |lossy| >= |s|;
      assert Serve("", s, bytewise) != Serve("", s, lossy);
    } else {
      NulBehindNewlinesIsHarmless(s);
    }
  }

  // ---------- Why quits are excluded ----------

  function Repeated(c: char, n: nat): string {
    seq(n, _ => c)
  }

  /** A line, a NUL and newlines. */
  function LineAndNul(line: string, newlines: nat): string {
    line + (['\0'] + Repeated('\n', newlines))
  }

  predicate IsPlainQuit(line: string) {
    IsQuit(line) && Lacks(line, '\n') && Lacks(line, '\0') && |line| <= BUFFER_SIZE - 2
  }

  lemma {:induction false} QuitIsServed(line: string, newlines: nat, offered: seq<nat>)
    requires IsPlainQuit(line) && newlines > 0 && offered != []
    ensures Serve(line, Repeated('\n', newlines), offered) == [line]
  {
    var stream := Repeated('\n', newlines);
    var n := ReadSize(offered[0], BUFFER_SIZE - |line| - 1, newlines);
    var t := line + stream[..n];
    LacksMeansNone(stream[..n], '\0');
    FindInConcat(line, stream[..n], '\0');
    VisibleWithoutNul(t);
    FindInConcat(line, stream[..n], '\n');
    assert t[..|line|] == line;
  }

  lemma {:induction false} PartOfLine(line: string, i: nat)
    requires IsPlainQuit(line) && i <= |line|
    ensures Lacks(line[..i], '\n') && Lacks(line[..i], '\0')
    ensures Frame(Visible(line[..i])) == Framed([], line[..i], false)
  {
    LacksSlices(line, '\n', i);
    LacksSlices(line, '\0', i);
    VisibleWithoutNul(line[..i]);
  }

  lemma {:induction false} ReadWithinLine(line: string, i: nat, n: nat, newlines: nat)
    requires i + n <= |line|
    ensures var stream := LineAndNul(line, newlines)[i..];
            line[..i] + stream[..n] == line[..i + n] && stream[n..] == LineAndNul(line, newlines)[i + n..]
  {
  }

  lemma {:induction false} ReadBeyondLine(line: string, i: nat, n: nat, newlines: nat)
    requires i <= |line| < i + n <= |line| + 1 + newlines
    ensures var stream, k := LineAndNul(line, newlines)[i..], i + n - |line| - 1;
            && line[..i] + stream[..n] == line + (['\0'] + Repeated('\n', k))
            && stream[n..] == Repeated('\n', newlines - k)
  {
  }

  /** A read without a complete line only changes what is carried over. */
  lemma {:induction false} ReadWithoutLine(b: string, stream: string, offered: seq<nat>, n: nat, seen: string,
                                           b': string, later: string)
    requires |b| < BUFFER_SIZE - 1 && stream != "" && offered != [] && |b'| < BUFFER_SIZE
    requires n == ReadSize(offered[0], BUFFER_SIZE - |b| - 1, |stream|)
    requires seen == b + stream[..n] && Frame(Visible(seen)) == Framed([], b', false) && later == stream[n..]
    ensures Serve(b, stream, offered) == Serve(b', later, offered[1..])
  {
  }

  lemma {:induction false} QuitServedBeyond(line: string, i: nat, newlines: nat, offered: seq<nat>, n: nat,
                                            stream: string)
    requires IsPlainQuit(line) && i <= |line| < i + n && newlines >= BUFFER_SIZE && |offered| >= 2
    requires stream == LineAndNul(line, newlines)[i..] && n == ReadSize(offered[0], BUFFER_SIZE - i - 1, |stream|)
    ensures Serve(line[..i], stream, offered) == [line]
  {
    var k := i + n - |line| - 1;
    var part, later := ['\0'] + Repeated('\n', k), Repeated('\n', newlines - k);
    ReadBeyondLine(line, i, n, newlines);
    VisibleUpToNul(line, part);
    ReadWithoutLine(line[..i], stream, offered, n, line + part, line, later);
    QuitIsServed(line, newlines - k, offered[1..]);
  }

  lemma {:induction false} QuitServedFrom(line: string, i: nat, newlines: nat, offered: seq<nat>, stream: string)
    requires IsPlainQuit(line) && i <= |line| && newlines >= BUFFER_SIZE && |offered| + i >= |line| + 2
    requires stream == LineAndNul(line, newlines)[i..]
    ensures Serve(line[..i], stream, offered) == [line]
    decreases |offered|
  {
    var n := ReadSize(offered[0], BUFFER_SIZE - i - 1, |stream|);
    if i + n <= |line| {
      var b, later := line[..i + n], LineAndNul(line, newlines)[i + n..];
      ReadWithinLine(line, i, n, newlines);
      PartOfLine(line, i + n);
      ReadWithoutLine(line[..i], stream, offered, n, b, b, later);
      QuitServedFrom(line, i + n, newlines, offered[1..], later);
    } else {
      QuitServedBeyond(line, i, newlines, offered, n, stream);
    }
  }

  /** With a quit among the lines a NUL before a newline can be harmless: whatever a read
      loses here, a later newline ends the same quit. */
  lemma {:induction false} QuitHidesNul(line: string, newlines: nat)
    requires IsPlainQuit(line) && newlines >= BUFFER_SIZE
    ensures NulBeforeNewline(LineAndNul(line, newlines)) && SplitIndependent(LineAndNul(line, newlines))
  {
    var s := LineAndNul(line, newlines);
    assert s[|line|] == '\0' && s[|line| + 1] == '\n';
    forall offered: seq<nat> | |offered| >= |s|
      ensures Serve("", s, offered) == [line]
    {
      assert line[..0] == "" && s[0..] == s;
      QuitServedFrom(line, 0, newlines, offered, s);
    }
  }
}
