/**
 The pump between two pipes of finite capacity. Its write to the child blocks until the pipe has taken every byte, and
 nothing drains the child's stdout meanwhile.
 */
module RelayDeadlock {
  import opened Rows
  import opened RelayPump

  /** What the two pipes hold, and the free space at which poll reports the first one writable. */
  datatype Pipes = Pipes(input: nat, output: nat, room: nat)

  predicate Sane(c: Pipes) {
    1 <= c.room <= c.input && 1 <= c.output
  }

  /** The child waits for input, is writing these bytes, or is gone. */
  datatype Child = Reading | Writing(left: seq<Byte>) | Gone

  /** The relay is at its poll, in a write that has moved some bytes, or about to read the child's stdout. */
  datatype Relay = AtPoll | InWrite(moved: nat, drains: bool) | AtRead

  /** `inFill` bytes are in the child's stdin pipe, `out` is in its stdout pipe. */
  datatype System = System(flow: Flow, relay: Relay, inFill: nat, out: seq<Byte>, child: Child)

  datatype Event =
    | PollWrites
    | PollRefills(bytes: seq<Byte>)
    | PollReads
    | Moves(count: nat)
    | WriteFails
    | Reads
    | ChildReads(count: nat, next: Child)
    | ChildSeesEnd(next: Child)
    | ChildWrites(count: nat, next: Child)
    | ChildRefused(next: Child)

  function Start(input: seq<Byte>, streaming: bool, child: Child): System {
    System(Begin(input, streaming), AtPoll, 0, [], child)
  }

  predicate Proper(child: Child) {
    child.Writing? ==> child.left != []
  }

  /** Poll reports the child's stdin: there is room, or nobody reads it any more. */
  predicate Writable(c: Pipes, s: System) {
    FeedArmed(s.flow) && (s.inFill + c.room <= c.input || s.child.Gone?)
  }

  /** Poll reports the child's stdout: bytes, or its end. */
  predicate Readable(s: System) {
    s.flow.outOpen && (s.out != [] || s.child.Gone?)
  }

  predicate Enabled(c: Pipes, s: System, e: Event) {
    match e
    case PollWrites => s.relay.AtPoll? && Writable(c, s)
    case PollRefills(_) => s.relay.AtPoll? && RefillArmed(s.flow)
    case PollReads => s.relay.AtPoll? && Readable(s) && !Writable(c, s)
    case Moves(n) =>
      s.relay.InWrite? && !s.child.Gone? && 0 < n && s.inFill + n <= c.input && s.relay.moved + n <= |s.flow.pending|
    case WriteFails => s.relay.InWrite? && s.child.Gone?
    case Reads => s.relay.AtRead?
    case ChildReads(n, next) => s.child.Reading? && 0 < n <= s.inFill && Proper(next)
    case ChildSeesEnd(next) => s.child.Reading? && s.inFill == 0 && !s.flow.inOpen && Proper(next)
    case ChildWrites(n, next) => s.child.Writing? && s.flow.outOpen && 0 < n <= |s.child.left| && |s.out| + n <= c.output && Proper(next)
    case ChildRefused(next) => s.child.Writing? && !s.flow.outOpen && Proper(next)
  }

  function AfterInput(s: System, drains: bool): Relay {
    if drains then AtRead else AtPoll
  }

  /** Our own stdout takes everything. */
  function Everything(): nat -> int {
    (from: nat) => CHUNK
  }

  function Next(c: Pipes, s: System, e: Event): System
    requires Enabled(c, s, e)
  {
    match e
    case PollWrites => s.(relay := InWrite(0, Readable(s)))
    case PollRefills(bytes) => s.(flow := Refilled(s.flow, ReadEvent.Reads(bytes)), relay := AfterInput(s, Readable(s)))
    case PollReads => s.(relay := AtRead)
    case Moves(n) =>
      var moved := s.relay.moved + n;
      if moved < |s.flow.pending| then s.(inFill := s.inFill + n, relay := InWrite(moved, s.relay.drains))
      else s.(inFill := s.inFill + n, flow := Fed(s.flow, Accepts(moved)), relay := AfterInput(s, s.relay.drains))
    case WriteFails => s.(flow := s.flow.(inOpen := false, childStopped := true), relay := AfterInput(s, s.relay.drains))
    case Reads => s.(flow := Drained(s.flow, ReadEvent.Reads(s.out), Everything()), out := s.out[Min(|s.out|, CHUNK)..], relay := AtPoll)
    case ChildReads(n, next) => s.(inFill := s.inFill - n, child := next)
    case ChildSeesEnd(next) => s.(child := next)
    case ChildWrites(n, next) =>
      s.(out := s.out + s.child.left[..n], child := if n < |s.child.left| then Writing(s.child.left[n..]) else next)
    case ChildRefused(next) => s.(child := next)
  }

  /** The events happen one after the other. */
  predicate Happens(c: Pipes, s: System, events: seq<Event>)
    decreases |events|
  {
    events == [] || (Enabled(c, s, events[0]) && Happens(c, Next(c, s, events[0]), events[1..]))
  }

  function After(c: Pipes, s: System, events: seq<Event>): System
    requires Happens(c, s, events)
    decreases |events|
  {
    if events == [] then s else After(c, Next(c, s, events[0]), events[1..])
  }

  predicate Finished(s: System) {
    s.relay.AtPoll? && !Running(s.flow)
  }

  /** The pump has not ended and nothing can happen any more, in it or in the child. */
  ghost predicate Stuck(c: Pipes, s: System) {
    !Finished(s) && forall e :: !Enabled(c, s, e)
  }

  // --- when nothing can happen ------------------------------------------------------------------------------------

  predicate Coherent(c: Pipes, s: System) {
    && Proper(s.child) && s.inFill <= c.input && |s.out| <= c.output
    && (s.relay.InWrite? ==> FeedArmed(s.flow) && s.relay.moved < |s.flow.pending| && (s.relay.drains ==> Readable(s)))
    && (s.relay.AtRead? ==> Readable(s))
  }

  lemma NextIsCoherent(c: Pipes, s: System, e: Event)
    requires Coherent(c, s) && Enabled(c, s, e)
    ensures Coherent(c, Next(c, s, e))
  {}

  /** The relay's write waits for the child to read, while the child's write waits for the relay to read. */
  predicate Embraced(c: Pipes, s: System) {
    s.relay.InWrite? && s.inFill == c.input && s.child.Writing? && s.flow.outOpen && |s.out| == c.output
  }

  /** There is no other way to get stuck: in every other state something can happen, or the pump has ended. */
  lemma StuckIff(c: Pipes, s: System)
    requires Sane(c) && Coherent(c, s)
    ensures Stuck(c, s) <==> Embraced(c, s)
  {
    if Embraced(c, s) {
      forall e ensures !Enabled(c, s, e) {}
    } else if !Finished(s) {
      var e := Possible(c, s);
      assert Enabled(c, s, e);
    }
  }

  /** Something that can happen. */
  function Possible(c: Pipes, s: System): (e: Event)
    requires Sane(c) && Coherent(c, s) && !Finished(s) && !Embraced(c, s)
    ensures Enabled(c, s, e)
  {
    match s.relay
    case AtRead => Event.Reads
    case InWrite(_, _) =>
      if s.child.Gone? then WriteFails
      else if s.inFill < c.input then Moves(1)
      else if s.child.Reading? then ChildReads(1, Gone)
      else if !s.flow.outOpen then ChildRefused(Gone)
      else ChildWrites(1, Gone)
    case AtPoll =>
      if RefillArmed(s.flow) then PollRefills([])
      else if Writable(c, s) then PollWrites
      else if Readable(s) then PollReads
      else if s.child.Reading? then (if s.inFill > 0 then ChildReads(1, Gone) else ChildSeesEnd(Gone))
      else if !s.flow.outOpen then ChildRefused(Gone)
      else ChildWrites(1, Gone)
  }

  // --- when it can get stuck -----------------------------------------------------------------------------------------

  /** Some child and some order of events leave the pump stuck. */
  ghost predicate CanHang(c: Pipes, input: seq<Byte>, streaming: bool) {
    exists child, events ::
      Proper(child) && Happens(c, Start(input, streaming, child), events) && Stuck(c, After(c, Start(input, streaming, child), events))
  }

  /** A write that has begun fits into the pipe, unless nobody reads it, and so does the next one. */
  predicate Fits(c: Pipes, s: System, streaming: bool) {
    && Coherent(c, s) && (streaming ==> CHUNK <= c.room) && (s.flow.stdinOpen ==> streaming) && (RefillArmed(s.flow) ==> s.flow.stdinOpen)
    && (if s.relay.InWrite? then !s.child.Gone? ==> s.inFill + |s.flow.pending| - s.relay.moved <= c.input
        else FeedArmed(s.flow) ==> |s.flow.pending| <= c.room || (s.inFill == 0 && |s.flow.pending| <= c.input))
  }

  lemma NextFits(c: Pipes, s: System, e: Event, streaming: bool)
    requires Sane(c) && Fits(c, s, streaming) && Enabled(c, s, e)
    ensures Fits(c, Next(c, s, e), streaming)
  {
    NextIsCoherent(c, s, e);
  }

  lemma {:induction false} AlwaysFits(c: Pipes, s: System, events: seq<Event>, streaming: bool)
    requires Sane(c) && Fits(c, s, streaming) && Happens(c, s, events)
    ensures Fits(c, After(c, s, events), streaming)
    decreases |events|
  {
    if events != [] {
      NextFits(c, s, events[0], streaming);
      AlwaysFits(c, Next(c, s, events[0]), events[1..], streaming);
    }
  }

  lemma {:induction false} AfterBoth(c: Pipes, s: System, a: seq<Event>, b: seq<Event>)
    requires Happens(c, s, a) && Happens(c, After(c, s, a), b)
    ensures Happens(c, s, a + b) && After(c, s, a + b) == After(c, After(c, s, a), b)
    decreases |a|
  {
    if a == [] {
      assert a + b == b;
    } else {
      assert (a + b)[0] == a[0] && (a + b)[1..] == a[1..] + b;
      AfterBoth(c, Next(c, s, a[0]), a[1..], b);
    }
  }

  lemma AfterOne(c: Pipes, s: System, a: seq<Event>, e: Event)
    requires Happens(c, s, a) && Enabled(c, After(c, s, a), e)
    ensures Happens(c, s, a + [e]) && After(c, s, a + [e]) == Next(c, After(c, s, a), e)
  {
    assert [e][1..] == [];
    AfterBoth(c, s, a, [e]);
  }

  /** A byte more than the pipe has room for. */
  function Zeros(n: nat): (r: seq<Byte>)
    ensures |r| == n
  {
    seq(n, i => 0)
  }

  /** A write that does not fit, begun while the child has more to write than its pipe takes: both fill, and nothing moves. */
  lemma FillBoth(c: Pipes, s: System) returns (events: seq<Event>)
    requires Sane(c) && Coherent(c, s) && s.relay.AtPoll? && s.flow.outOpen && s.out == [] && s.child.Writing?
    requires FeedArmed(s.flow) && Writable(c, s) && s.inFill + |s.flow.pending| > c.input && |s.child.left| > c.output
    ensures Happens(c, s, events) && Stuck(c, After(c, s, events))
  {
    var e1, e2, e3 := PollWrites, Moves(c.input - s.inFill), ChildWrites(c.output, Gone);
    var s1 := Next(c, s, e1);
    var s2 := Next(c, s1, e2);
    assert s2.relay.InWrite? && s2.inFill == c.input && s2.child == s.child && s2.out == [] && s2.flow == s.flow;
    var s3 := Next(c, s2, e3);
    assert |s.child.left[..c.output]| == c.output;
    assert Embraced(c, s3);
    NextIsCoherent(c, s, e1);
    NextIsCoherent(c, s1, e2);
    NextIsCoherent(c, s2, e3);
    StuckIff(c, s3);
    events := [e1, e2, e3];
    assert events[1..] == [e2, e3] && [e2, e3][1..] == [e3] && [e3][1..] == [];
    assert Happens(c, s2, [e3]) && After(c, s2, [e3]) == s3;
    assert Happens(c, s1, [e2, e3]) && After(c, s1, [e2, e3]) == s3;
  }

  /** Everything read so far is in the pipe, and the child has yet to write. */
  predicate Idle(s: System, w: seq<Byte>, fill: nat) {
    && s.relay.AtPoll? && s.flow.inOpen && s.flow.pending == [] && s.flow.stdinOpen && s.flow.outOpen
    && s.out == [] && s.child == Writing(w) && s.inFill == fill
  }

  /** One byte from our stdin to the pipe. */
  lemma OneByte(c: Pipes, s: System, w: seq<Byte>) returns (events: seq<Event>)
    requires Sane(c) && Idle(s, w, s.inFill) && s.inFill + c.room <= c.input
    ensures Happens(c, s, events) && Idle(After(c, s, events), w, s.inFill + 1)
  {
    var e1, e2, e3 := PollRefills([0]), PollWrites, Moves(1);
    var s1 := Next(c, s, e1);
    assert s1.flow.pending == [0];
    var s2 := Next(c, s1, e2);
    var s3 := Next(c, s2, e3);
    assert s3.flow.pending == [];
    events := [e1, e2, e3];
    assert events[1..] == [e2, e3] && [e2, e3][1..] == [e3] && [e3][1..] == [];
    assert Happens(c, s2, [e3]) && After(c, s2, [e3]) == s3;
    assert Happens(c, s1, [e2, e3]) && After(c, s1, [e2, e3]) == s3;
  }

  lemma {:induction false} Trickle(c: Pipes, s: System, w: seq<Byte>, t: nat) returns (events: seq<Event>)
    requires Sane(c) && Idle(s, w, s.inFill) && s.inFill + t + c.room <= c.input
    ensures Happens(c, s, events) && Idle(After(c, s, events), w, s.inFill + t)
    decreases t
  {
    if t == 0 {
      events := [];
    } else {
      var first := OneByte(c, s, w);
      var rest := Trickle(c, After(c, s, first), w, t - 1);
      AfterBoth(c, s, first, rest);
      events := first + rest;
    }
  }

  /** The buffered input is written and read, and the pipe is empty again. */
  lemma BufferGone(c: Pipes, input: seq<Byte>, w: seq<Byte>) returns (child: Child, events: seq<Event>)
    requires Sane(c) && |input| <= c.input && w != []
    ensures Proper(child) && Happens(c, Start(input, true, child), events) && Idle(After(c, Start(input, true, child), events), w, 0)
  {
    if input == [] {
      child, events := Writing(w), [];
    } else {
      child := Reading;
      var s := Start(input, true, child);
      var e1, e2, e3 := PollWrites, Moves(|input|), ChildReads(|input|, Writing(w));
      var s1 := Next(c, s, e1);
      var s2 := Next(c, s1, e2);
      assert s2.flow.pending == [];
      var s3 := Next(c, s2, e3);
      events := [e1, e2, e3];
      assert events[1..] == [e2, e3] && [e2, e3][1..] == [e3] && [e3][1..] == [];
      assert Happens(c, s2, [e3]) && After(c, s2, [e3]) == s3;
      assert Happens(c, s1, [e2, e3]) && After(c, s1, [e2, e3]) == s3;
    }
  }

  /** While it streams, a whole chunk may not fit where poll reported room. */
  lemma StreamHangs(c: Pipes, input: seq<Byte>)
    requires Sane(c) && |input| <= c.input && c.room < CHUNK
    ensures CanHang(c, input, true)
  {
    var w := Zeros(c.output + 1);
    var child, begin := BufferGone(c, input, w);
    var s := Start(input, true, child);
    var idle := After(c, s, begin);
    var filling := Trickle(c, idle, w, c.input - c.room);
    var full := After(c, idle, filling);
    var e := PollRefills(Zeros(CHUNK));
    AfterOne(c, idle, filling, e);
    var last := FillBoth(c, Next(c, full, e));
    AfterBoth(c, idle, filling + [e], last);
    AfterBoth(c, s, begin, filling + [e] + last);
    assert Stuck(c, After(c, s, begin + (filling + [e] + last)));
  }

  /**
   The pump can get stuck exactly when its buffered input is longer than the pipe to the child holds, or it streams in
   chunks longer than the space at which poll reports that pipe writable.
   */
  lemma HangsIff(c: Pipes, input: seq<Byte>, streaming: bool)
    requires Sane(c)
    ensures CanHang(c, input, streaming) <==> |input| > c.input || (streaming && c.room < CHUNK)
  {
    if |input| > c.input {
      var child := Writing(Zeros(c.output + 1));
      var s := Start(input, streaming, child);
      var events := FillBoth(c, s);
      assert Happens(c, s, events);
    } else if streaming && c.room < CHUNK {
      StreamHangs(c, input);
    } else {
      forall child, events | Proper(child) && Happens(c, Start(input, streaming, child), events)
        ensures !Stuck(c, After(c, Start(input, streaming, child), events))
      {
        var s := Start(input, streaming, child);
        AlwaysFits(c, s, events, streaming);
        StuckIff(c, After(c, s, events));
      }
    }
  }

  // --- when it always does -------------------------------------------------------------------------------------------

  /** The first write is not over, and the child has not written all it must before it reads. */
  predicate Doomed(c: Pipes, s: System, input: seq<Byte>, streaming: bool) {
    && Coherent(c, s) && s.flow == Begin(input, streaming) && s.child.Writing? && |s.child.left| + |s.out| > c.output
    && ((s.relay.AtPoll? && s.inFill == 0) || (s.relay.InWrite? && s.inFill == s.relay.moved))
  }

  /** What can still happen. */
  function Slack(c: Pipes, s: System): int {
    (if s.relay.AtPoll? then 1 else 0) + c.input - s.inFill + c.output - |s.out|
  }

  lemma StaysDoomed(c: Pipes, s: System, e: Event, input: seq<Byte>, streaming: bool)
    requires Sane(c) && |input| > c.input && Doomed(c, s, input, streaming) && Enabled(c, s, e)
    ensures Doomed(c, Next(c, s, e), input, streaming) && Slack(c, Next(c, s, e)) < Slack(c, s)
  {
    NextIsCoherent(c, s, e);
  }

  lemma {:induction false} DoomedRun(c: Pipes, s: System, events: seq<Event>, input: seq<Byte>, streaming: bool)
    requires Sane(c) && |input| > c.input && Doomed(c, s, input, streaming) && Happens(c, s, events)
    ensures Doomed(c, After(c, s, events), input, streaming) && |events| + Slack(c, After(c, s, events)) <= Slack(c, s)
    decreases |events|
  {
    if events != [] {
      StaysDoomed(c, s, events[0], input, streaming);
      DoomedRun(c, Next(c, s, events[0]), events[1..], input, streaming);
    }
  }

  /**
   With more buffered input than the pipe holds, a child that writes more than the other pipe holds before it reads hangs
   the pump whatever the order of events: no run finishes, and none is longer than the two pipes together and one poll.
   */
  lemma HangsAlways(c: Pipes, input: seq<Byte>, streaming: bool, w: seq<Byte>, events: seq<Event>)
    requires Sane(c) && |input| > c.input && |w| > c.output && Happens(c, Start(input, streaming, Writing(w)), events)
    ensures var s := After(c, Start(input, streaming, Writing(w)), events);
            !Finished(s) && s.flow.emitted == [] && |events| <= 1 + c.input + c.output
  {
    DoomedRun(c, Start(input, streaming, Writing(w)), events, input, streaming);
  }
}
