/** Command framing: a socket delivers the commands of a client in pieces of any size,
    which a fixed buffer reassembles into lines. */
module LineFramer {
  import opened Resources

  const BUFFER_SIZE := 1024

  /** The index of the first c in s, or |s|. */
  function Find(s: string, c: char): (r: nat)
    ensures r <= |s|
  {
    if s == [] || s[0] == c then 0 else 1 + Find(s[1..], c)
  }

  /** No c occurs in s. */
  predicate Lacks(s: string, c: char) {
    Find(s, c) == |s|
  }

  lemma {:induction false} FindInConcat(s: string, t: string, c: char)
    ensures Find(s + t, c) == if Lacks(s, c) then |s| + Find(t, c) else Find(s, c)
  {
    if s == [] {
      assert s + t == t;
    } else {
      assert (s + t)[1..] == s[1..] + t;
      FindInConcat(s[1..], t, c);
    }
  }

  lemma {:induction false} LacksSlices(s: string, c: char, k: nat)
    requires k <= |s|
    ensures Lacks(s, c) <==> Lacks(s[..k], c) && Lacks(s[k..], c)
  {
    FindInConcat(s[..k], s[k..], c);
    assert s == s[..k] + s[k..];
  }

  /** Up to the first c there is none. */
  lemma {:induction false} LacksBefore(s: string, c: char)
    ensures Lacks(s[..Find(s, c)], c)
    ensures Find(s, c) < |s| ==> s[Find(s, c)] == c
  {
    if s != [] && s[0] != c {
      LacksBefore(s[1..], c);
      assert s[..Find(s, c)][1..] == s[1..][..Find(s[1..], c)];
    }
  }

  /** The part of s that string functions see: everything before the first NUL. */
  function Visible(s: string): string {
    s[..Find(s, '\0')]
  }

  predicate IsQuit(line: string) {
    "quit" <= line
  }

  /** A quit is any line that begins with these four bytes. */
  lemma {:induction false} QuitIsAPrefix(line: string)
    ensures IsQuit(line) <==> |line| >= 4 && line[0] == 'q' && line[1] == 'u' && line[2] == 'i' && line[3] == 't'
  {
    if |line| >= 4 {
      assert "quit" <= line <==> line[..4] == "quit";
      assert line[..4] == [line[0], line[1], line[2], line[3]];
    }
  }

  datatype Framed = Framed(lines: seq<string>, rest: string, quit: bool)

  /** The complete lines of s up to and including a quit, and what follows them. */
  function Frame(s: string): (f: Framed)
    ensures |f.rest| <= |s|
    decreases |s|
  {
    var n := Find(s, '\n');
    if n == |s| then Framed([], s, false)
    else if IsQuit(s[..n]) then Framed([s[..n]], s[n + 1..], true)
    else
      var f := Frame(s[n + 1..]);
      f.(lines := [s[..n]] + f.lines)
  }

  function Terminated(lines: seq<string>): string {
    if lines == [] then "" else lines[0] + "\n" + Terminated(lines[1..])
  }

  /** Framing only cuts at newlines: the lines, each followed by one, and the rest make up
      s again. */
  lemma {:induction false} FrameRejoins(s: string)
    ensures Terminated(Frame(s).lines) + Frame(s).rest == s
    decreases |s|
  {
    var n := Find(s, '\n');
    if n < |s| {
      LacksBefore(s, '\n');
      assert s == s[..n] + "\n" + s[n + 1..];
      if !IsQuit(s[..n]) {
        FrameRejoins(s[n + 1..]);
        var f := Frame(s[n + 1..]);
        assert ([s[..n]] + f.lines)[1..] == f.lines;
        assert s[..n] + "\n" + (Terminated(f.lines) + f.rest) == (s[..n] + "\n" + Terminated(f.lines)) + f.rest;
      }
    }
  }

  /** No line holds a newline. Only the last can be a quit, exactly when there was one;
      without one the rest is the unterminated tail. */
  lemma {:induction false} FrameCutsAtNewlines(s: string)
    ensures var f := Frame(s);
            && (forall i :: 0 <= i < |f.lines| ==> Lacks(f.lines[i], '\n'))
            && (forall i :: 0 <= i < |f.lines| - 1 ==> !IsQuit(f.lines[i]))
            && (f.quit <==> f.lines != [] && IsQuit(f.lines[|f.lines| - 1]))
            && (!f.quit ==> Lacks(f.rest, '\n'))
    decreases |s|
  {
    var n := Find(s, '\n');
    if n < |s| {
      LacksBefore(s, '\n');
      if !IsQuit(s[..n]) {
        FrameCutsAtNewlines(s[n + 1..]);
      }
    }
  }

  /** What is carried over holds no newline, and no NUL that was not there before. */
  lemma {:induction false} FrameRest(s: string)
    requires Lacks(s, '\0')
    ensures Lacks(Frame(s).rest, '\0') && (!Frame(s).quit ==> Lacks(Frame(s).rest, '\n'))
    decreases |s|
  {
    var n := Find(s, '\n');
    if n < |s| {
      LacksSlices(s, '\0', n + 1);
      if !IsQuit(s[..n]) {
        FrameRest(s[n + 1..]);
      }
    }
  }

  // ---------- A connection, under any way of splitting its stream ----------

  /** How many bytes a read returns when the network offers `offered` of them: at least
      one, and no more than were asked for or are left. */
  function ReadSize(offered: nat, room: nat, left: nat): (n: nat)
    requires room > 0 && left > 0
    ensures 1 <= n <= room && n <= left
  {
    Min(if offered == 0 then 1 else offered, Min(room, left))
  }

  /** The lines dispatched when the rest of the stream arrives in reads of the offered
      sizes. A read of no bytes, because the stream ended or the buffer is full, and a
      quit end the connection. */
  function Serve(buffer: string, stream: string, offered: seq<nat>): seq<string>
    requires |buffer| < BUFFER_SIZE
    decreases |offered|
  {
    var room := BUFFER_SIZE - |buffer| - 1;
    if room == 0 || stream == "" || offered == [] then []
    else
      var n := ReadSize(offered[0], room, |stream|);
      var seen := Visible(buffer + stream[..n]);
      var f := Frame(seen);
      f.lines + if f.quit then [] else Serve(f.rest, stream[n..], offered[1..])
  }

  /** The lines of a stream up to the first quit, or the first that overflows the buffer. */
  function Dispatch(s: string): seq<string>
    decreases |s|
  {
    var n := Find(s, '\n');
    if n == |s| || n + 1 >= BUFFER_SIZE then []
    else [s[..n]] + if IsQuit(s[..n]) then [] else Dispatch(s[n + 1..])
  }

  /** The lines dispatched from a framed piece followed by u. */
  function Continued(f: Framed, u: string): seq<string> {
    f.lines + if f.quit then [] else Dispatch(f.rest + u)
  }

  lemma {:induction false} ContinuedAfterLine(line: string, f: Framed, u: string)
    ensures Continued(f.(lines := [line] + f.lines), u) == [line] + Continued(f, u)
  {
  }

  lemma {:induction false} DispatchFirstLine(t: string, u: string)
    requires |t| < BUFFER_SIZE && !Lacks(t, '\n')
    ensures var n := Find(t, '\n');
            Dispatch(t + u) == [t[..n]] + if IsQuit(t[..n]) then [] else Dispatch(t[n + 1..] + u)
  {
    var n := Find(t, '\n');
    FindInConcat(t, u, '\n');
    assert (t + u)[..n] == t[..n] && (t + u)[n + 1..] == t[n + 1..] + u;
  }

  lemma {:induction false} DispatchFramed(t: string, u: string)
    requires |t| < BUFFER_SIZE
    ensures Dispatch(t + u) == Continued(Frame(t), u)
    decreases |t|
  {
    if !Lacks(t, '\n') {
      var n := Find(t, '\n');
      DispatchFirstLine(t, u);
      if !IsQuit(t[..n]) {
        DispatchFramed(t[n + 1..], u);
        ContinuedAfterLine(t[..n], Frame(t[n + 1..]), u);
      }
    }
  }

  lemma {:induction false} VisibleWithoutNul(s: string)
    requires Lacks(s, '\0')
    ensures Visible(s) == s
  {
  }

  /** One read of a stream without NUL bytes frames what was carried over and read. */
  lemma {:induction false} ServeOneRead(buffer: string, stream: string, offered: seq<nat>)
    requires |buffer| < BUFFER_SIZE - 1 && stream != "" && offered != []
    requires Lacks(buffer, '\0') && Lacks(stream, '\0')
    ensures var n := ReadSize(offered[0], BUFFER_SIZE - |buffer| - 1, |stream|);
            var f, later := Frame(buffer + stream[..n]), stream[n..];
            && Serve(buffer, stream, offered) == f.lines + (if f.quit then [] else Serve(f.rest, later, offered[1..]))
            && Dispatch(buffer + stream) == f.lines + (if f.quit then [] else Dispatch(f.rest + later))
            && Lacks(later, '\0') && Lacks(f.rest, '\0') && (!f.quit ==> Lacks(f.rest, '\n'))
  {
    var n := ReadSize(offered[0], BUFFER_SIZE - |buffer| - 1, |stream|);
    var t, later := buffer + stream[..n], stream[n..];
    LacksSlices(stream, '\0', n);
    FindInConcat(buffer, stream[..n], '\0');
    VisibleWithoutNul(t);
    assert buffer + stream == t + later;
    DispatchFramed(t, later);
    FrameRest(t);
  }

  /** For a stream without NUL bytes, any splitting dispatches a prefix of the same
      lines, and all of them once enough reads were made. */
  lemma {:induction false} ServeDispatches(buffer: string, stream: string, offered: seq<nat>)
    requires |buffer| < BUFFER_SIZE && Lacks(buffer, '\n')
    requires Lacks(buffer, '\0') && Lacks(stream, '\0')
    ensures Serve(buffer, stream, offered) <= Dispatch(buffer + stream)
    ensures |offered| >= |stream| ==> Serve(buffer, stream, offered) == Dispatch(buffer + stream)
    decreases |offered|
  {
    var room := BUFFER_SIZE - |buffer| - 1;
    if room == 0 || stream == "" {
      FindInConcat(buffer, stream, '\n');
      assert Dispatch(buffer + stream) == [];
    } else if offered != [] {
      var n := ReadSize(offered[0], room, |stream|);
      var f := Frame(buffer + stream[..n]);
      ServeOneRead(buffer, stream, offered);
      if !f.quit {
        ServeDispatches(f.rest, stream[n..], offered[1..]);
      }
    }
  }

  /** The same lines are dispatched however the stream is split. */
  ghost predicate SplitIndependent(stream: string) {
    forall a: seq<nat>, b: seq<nat> :: |a| >= |stream| && |b| >= |stream| ==>
      Serve("", stream, a) == Serve("", stream, b)
  }

  lemma {:induction false} NulFreeStreamsSplitAnywhere(stream: string)
    requires Lacks(stream, '\0')
    ensures SplitIndependent(stream)
    ensures forall offered: seq<nat> :: |offered| >= |stream| ==> Serve("", stream, offered) == Dispatch(stream)
  {
    assert "" + stream == stream;
    forall offered: seq<nat> | |offered| >= |stream|
      ensures Serve("", stream, offered) == Dispatch(stream)
    {
      ServeDispatches("", stream, offered);
    }
  }

  /** A line fits the buffer with its newline when it has at most 1022 bytes. */
  ghost predicate AllFit(lines: seq<string>) {
    forall i :: 0 <= i < |lines| ==> |lines[i]| <= 1022
  }

  lemma {:induction false} FirstAndRestFit(line: string, rest: seq<string>)
    ensures AllFit([line] + rest) <==> |line| <= 1022 && AllFit(rest)
  {
    var lines := [line] + rest;
    assert lines[0] == line && forall i :: 0 <= i < |rest| ==> rest[i] == lines[i + 1];
  }

  lemma {:induction false} SameFirstSameRest(line: string, a: seq<string>, b: seq<string>)
    ensures [line] + a == [line] + b <==> a == b
  {
    assert ([line] + a)[1..] == a && ([line] + b)[1..] == b;
  }

  /** Nothing up to the first quit is lost exactly when all lines fit. */
  lemma {:induction false} AllDispatchedExactlyWhenFitting(s: string)
    ensures Dispatch(s) == Frame(s).lines <==> AllFit(Frame(s).lines)
    decreases |s|
  {
    var n := Find(s, '\n');
    if n < |s| {
      var line, later := s[..n], s[n + 1..];
      if IsQuit(line) {
        FirstAndRestFit(line, []);
        assert Frame(s).lines == [line] + [];
      } else {
        AllDispatchedExactlyWhenFitting(later);
        FirstAndRestFit(line, Frame(later).lines);
        SameFirstSameRest(line, Dispatch(later), Frame(later).lines);
      }
    }
  }

  // ---------- What is carried over between reads ----------

  /** What follows the last newline. */
  function LastLine(s: string): (r: string)
    ensures Lacks(r, '\n')
    decreases |s|
  {
    var n := Find(s, '\n');
    if n == |s| then s else LastLine(s[n + 1..])
  }

  lemma {:induction false} LastLineOfConcat(t: string, u: string)
    ensures LastLine(t + u) == LastLine(LastLine(t) + u)
    decreases |t|
  {
    var n := Find(t, '\n');
    if n < |t| {
      FindInConcat(t, u, '\n');
      assert (t + u)[n + 1..] == t[n + 1..] + u;
      LastLineOfConcat(t[n + 1..], u);
    }
  }

  lemma {:induction false} FrameLeavesLastLine(s: string)
    requires !Frame(s).quit
    ensures Frame(s).rest == LastLine(s)
    decreases |s|
  {
    var n := Find(s, '\n');
    if n < |s| {
      FrameLeavesLastLine(s[n + 1..]);
    }
  }

  /** A connection after some reads: still open with bytes carried over and bytes of the
      stream still to come, or ended by a quit or a read of no bytes. */
  datatype Connection = Open(buffer: string, left: string) | Ended

  function Reads(buffer: string, stream: string, offered: seq<nat>): Connection
    requires |buffer| < BUFFER_SIZE
    decreases |offered|
  {
    var room := BUFFER_SIZE - |buffer| - 1;
    if offered == [] then Open(buffer, stream)
    else if room == 0 || stream == "" then Ended
    else
      var n := ReadSize(offered[0], room, |stream|);
      var f := Frame(Visible(buffer + stream[..n]));
      if f.quit then Ended else Reads(f.rest, stream[n..], offered[1..])
  }

  /** The buffer of an open connection holds exactly what follows the last newline of the
      bytes read so far. */
  ghost predicate CarriesTail(buffer: string, stream: string, c: Connection)
    requires c.Open?
  {
    var read := |stream| - |c.left|;
    0 <= read && stream[read..] == c.left && c.buffer == LastLine(buffer + stream[..read])
  }

  lemma {:induction false} CarriesTailAfterRead(buffer: string, stream: string, n: nat, t: string, later: string,
                                                c: Connection)
    requires n <= |stream| && t == buffer + stream[..n] && later == stream[n..]
    requires c.Open? && CarriesTail(LastLine(t), later, c)
    ensures CarriesTail(buffer, stream, c)
  {
    var read := |later| - |c.left|;
    LastLineOfConcat(t, later[..read]);
    assert t + later[..read] == buffer + stream[..n + read];
  }

  lemma {:induction false} ReadsOnce(buffer: string, stream: string, offered: seq<nat>)
    requires |buffer| < BUFFER_SIZE && offered != [] && Reads(buffer, stream, offered).Open?
    requires Lacks(buffer, '\0') && Lacks(stream, '\0')
    ensures |buffer| < BUFFER_SIZE - 1 && stream != ""
    ensures var n := ReadSize(offered[0], BUFFER_SIZE - |buffer| - 1, |stream|);
            var t, later := buffer + stream[..n], stream[n..];
            && |LastLine(t)| < BUFFER_SIZE && Lacks(LastLine(t), '\0') && Lacks(later, '\0')
            && Reads(buffer, stream, offered) == Reads(LastLine(t), later, offered[1..])
  {
    var n := ReadSize(offered[0], BUFFER_SIZE - |buffer| - 1, |stream|);
    var t := buffer + stream[..n];
    ServeOneRead(buffer, stream, offered);
    LacksSlices(stream, '\0', n);
    FindInConcat(buffer, stream[..n], '\0');
    VisibleWithoutNul(t);
    FrameLeavesLastLine(t);
  }

  /** Between reads of a stream without NUL bytes, what is carried over is always the
      unterminated tail. */
  lemma {:induction false} CarriedOverIsTheTail(buffer: string, stream: string, offered: seq<nat>)
    requires |buffer| < BUFFER_SIZE && Lacks(buffer, '\n')
    requires Lacks(buffer, '\0') && Lacks(stream, '\0')
    requires Reads(buffer, stream, offered).Open?
    ensures CarriesTail(buffer, stream, Reads(buffer, stream, offered))
    decreases |offered|
  {
    if offered == [] {
      assert buffer + stream[..0] == buffer;
    } else {
      ReadsOnce(buffer, stream, offered);
      var n := ReadSize(offered[0], BUFFER_SIZE - |buffer| - 1, |stream|);
      var t, later := buffer + stream[..n], stream[n..];
      CarriedOverIsTheTail(LastLine(t), later, offered[1..]);
      CarriesTailAfterRead(buffer, stream, n, t, later, Reads(buffer, stream, offered));
    }
  }

  /** When no line and no unterminated tail of the stream has more than 1022 bytes, a
      connection that is still open always asks for at least one byte more. */
  lemma {:induction false} FittingReadsHaveRoom(stream: string, offered: seq<nat>)
    requires Lacks(stream, '\0')
    requires forall k :: 0 <= k <= |stream| ==> |LastLine(stream[..k])| <= 1022
    ensures Reads("", stream, offered).Open? ==> 1024 - |Reads("", stream, offered).buffer| - 1 > 0
  {
    if Reads("", stream, offered).Open? {
      CarriedOverIsTheTail("", stream, offered);
      var read := |stream| - |Reads("", stream, offered).left|;
      assert "" + stream[..read] == stream[..read];
    }
  }

  // ---------- The buffer in place ----------

  class CommandBuffer {
    const buffer: array<char>
    var len: nat

    ghost predicate Valid()
      reads this, buffer
    {
      buffer.Length == BUFFER_SIZE && len < buffer.Length && Lacks(buffer[..len], '\0')
    }

    constructor ()
      ensures Valid() && fresh(buffer) && len == 0
    {
      buffer := new char[BUFFER_SIZE](_ => '\0');
      len := 0;
    }

    /** strchr(buffer + start, '\n'): the first newline before the terminating NUL. */
    method FindNewline(start: nat, ghost end: nat) returns (found: bool, at: nat)
      requires start <= end < buffer.Length && buffer[end] == '\0' && Lacks(buffer[start..end], '\0')
      ensures start <= at <= end && at == start + Find(buffer[start..end], '\n')
      ensures found <==> at < end
    {
      at := start;
      assert buffer[start..end] == buffer[at..end];
      while buffer[at] != '\n' && buffer[at] != '\0'
        invariant start <= at <= end && Lacks(buffer[at..end], '\0')
        invariant start + Find(buffer[start..end], '\n') == at + Find(buffer[at..end], '\n')
        decreases end - at
      {
        assert buffer[at..end][1..] == buffer[at + 1..end];
        at := at + 1;
      }
      found := buffer[at] == '\n';
    }

    /** The bytes of one read go behind the carried-over ones, followed by a NUL. */
    method Append(chunk: string)
      requires Valid() && 0 < |chunk| <= BUFFER_SIZE - len - 1
      modifies this, buffer
      ensures len < buffer.Length && buffer[..len] == old(buffer[..len]) + chunk && buffer[len] == '\0'
    {
      forall i | 0 <= i < |chunk| {
        buffer[len + i] := chunk[i];
      }
      len := len + |chunk|;
      buffer[len] := '\0';
    }

    /** memmove: what follows the last newline is carried over to the front. */
    method CarryOver(start: nat, end: nat)
      requires start <= end < buffer.Length == BUFFER_SIZE && Lacks(buffer[start..end], '\0')
      modifies this, buffer
      ensures Valid() && buffer[..len] == old(buffer[start..end])
    {
      len := end - start;
      forall i | 0 <= i < len {
        buffer[i] := buffer[start + i];
      }
      buffer[len] := '\0';
      assert buffer[..len] == old(buffer[start..end]);
    }

    /** The line from start to the newline at `at`, which becomes its terminator. */
    method CutLine(start: nat, at: nat, ghost end: nat) returns (line: string)
      requires start <= at < end < buffer.Length
      modifies buffer
      ensures line == old(buffer[start..end])[..at - start]
      ensures buffer[at + 1..end] == old(buffer[start..end])[at - start + 1..] && buffer[end] == old(buffer[end])
    {
      line := buffer[start..at];
      buffer[at] := '\0';
    }

    /** Cuts the line that ends at `at` and looks for the next newline. rest is what was
        left, later what is left then. */
    method NextLine(start: nat, at: nat, ghost end: nat, ghost rest: string)
      returns (line: string, found: bool, next: nat, ghost later: string)
      requires start <= at < end < buffer.Length && at == start + Find(rest, '\n')
      requires buffer[end] == '\0' && buffer[start..end] == rest && Lacks(rest, '\0')
      modifies buffer
      ensures Find(rest, '\n') < |rest| && line == rest[..Find(rest, '\n')] && later == rest[Find(rest, '\n') + 1..]
      ensures buffer[end] == '\0' && buffer[at + 1..end] == later && Lacks(later, '\0')
      ensures at < next <= end && next == at + 1 + Find(later, '\n') && found == (next < end)
    {
      ghost var n := at - start;
      line := CutLine(start, at, end);
      later := rest[n + 1..];
      LacksSlices(rest, '\0', n + 1);
      found, next := FindNewline(at + 1, end);
    }

    /** One round of the command loop: the line goes to those taken before. */
    method TakeLine(start: nat, at: nat, ghost end: nat, ghost rest: string, lines: seq<string>, ghost goal: Framed)
      returns (longer: seq<string>, quit: bool, found: bool, next: nat, ghost later: string)
      requires start <= at < end < buffer.Length && at == start + Find(rest, '\n')
      requires buffer[end] == '\0' && buffer[start..end] == rest && Lacks(rest, '\0')
      requires goal == Prepended(lines, Frame(rest))
      modifies buffer
      ensures quit ==> goal.quit && goal.lines == longer
      ensures !quit ==> goal == Prepended(longer, Frame(later))
      ensures buffer[end] == '\0' && buffer[at + 1..end] == later && Lacks(later, '\0')
      ensures at < next <= end && next == at + 1 + Find(later, '\n') && found == (next < end)
    {
      var line;
      line, found, next, later := NextLine(start, at, end, rest);
      FrameFirstLine(lines, rest, line, later, goal);
      longer, quit := lines + [line], IsQuit(line);
    }

    /** The command loop over the complete lines before the NUL at end. */
    method TakeLines(ghost end: nat) returns (lines: seq<string>, quit: bool, start: nat, at: nat)
      requires end < buffer.Length && buffer[end] == '\0' && Lacks(buffer[..end], '\0')
      modifies buffer
      ensures var f := Frame(old(buffer[..end])); lines == f.lines && quit == f.quit
      ensures !quit ==> start <= at == end && buffer[start..end] == Frame(old(buffer[..end])).rest
    {
      ghost var rest := buffer[..end];
      ghost var goal := Frame(rest);
      assert buffer[0..end] == rest;
      lines, quit, start := [], false, 0;
      var found;
      found, at := FindNewline(start, end);
      while found
        invariant start <= at <= end && found == (at < end)
        invariant buffer[end] == '\0' && buffer[start..end] == rest && Lacks(rest, '\0')
        invariant at == start + Find(rest, '\n')
        invariant goal == Prepended(lines, Frame(rest)) && !quit
        decreases end - start
      {
        var next;
        lines, quit, found, next, rest := TakeLine(start, at, end, rest, lines, goal);
        if quit {
          return;
        }
        start, at := at + 1, next;
      }
      FrameOfTail(lines, rest);
    }

    /** What the command thread does with the bytes of one read. */
    method Receive(chunk: string) returns (lines: seq<string>, quit: bool)
      requires Valid() && 0 < |chunk| <= BUFFER_SIZE - len - 1
      modifies this, buffer
      ensures var f := Frame(Visible(old(buffer[..len]) + chunk));
              lines == f.lines && quit == f.quit && (!quit ==> Valid() && buffer[..len] == f.rest)
    {
      Append(chunk);
      ghost var seen := Visible(buffer[..len]);
      LacksBefore(buffer[..len], '\0');
      assert |seen| < len ==> buffer[|seen|] == buffer[..len][|seen|];
      assert buffer[..|seen|] == seen;
      FrameRest(seen);
      var start, at;
      lines, quit, start, at := TakeLines(|seen|);
      if !quit {
        CarryOver(start, at);
      }
    }
  }

  function Prepended(lines: seq<string>, f: Framed): Framed {
    f.(lines := lines + f.lines)
  }

  lemma {:induction false} FrameOfTail(lines: seq<string>, s: string)
    requires Lacks(s, '\n')
    ensures Prepended(lines, Frame(s)) == Framed(lines, s, false)
  {
    assert lines + [] == lines;
  }

  lemma {:induction false} FrameFirstLine(lines: seq<string>, s: string, line: string, later: string, goal: Framed)
    requires Find(s, '\n') < |s| && line == s[..Find(s, '\n')] && later == s[Find(s, '\n') + 1..]
    requires goal == Prepended(lines, Frame(s))
    ensures IsQuit(line) ==> goal.quit && goal.lines == lines + [line]
    ensures !IsQuit(line) ==> goal == Prepended(lines + [line], Frame(later))
  {
    if !IsQuit(line) {
      assert lines + ([line] + Frame(later).lines) == (lines + [line]) + Frame(later).lines;
    }
  }
}
