/** The relay's fallback pump: feeding the child's stdin and forwarding its stdout, one poll round at a time. */
module RelayPump {
  import opened Rows

  const CHUNK := 4096

  /** What poll and the following call report for the child's stdin: nothing, an error, or what a write accepts. */
  datatype FeedEvent = FeedIdle | FeedBroken | Accepts(count: int)

  /** For our stdin or the child's stdout: nothing, or a read; no bytes means end of file or an error. */
  datatype ReadEvent = ReadIdle | Reads(available: seq<Byte>)

  /** One round of the environment; `forward` is what a write to our stdout returns at each offset. */
  datatype Round =
    | Interrupted
    | PollFailed
    | Polled(feed: FeedEvent, refill: ReadEvent, output: ReadEvent, forward: nat -> int)

  function Min(a: int, b: int): int { if a < b then a else b }

  /** The descriptors a round waits for. */
  datatype Armed = Armed(childStdin: bool, ownStdin: bool, childStdout: bool)

  // --- the pump without its buffers ------------------------------------------------------------------------

  /**
   Bytes waiting for the child, read from our stdin, accepted by the child, read from the child and written to our
   stdout; the open ends; and whether the child refused bytes, our stdout did, or polling itself failed.
   */
  datatype Flow = Flow(
    pending: seq<Byte>, taken: seq<Byte>, fed: seq<Byte>, emitted: seq<Byte>, relayed: seq<Byte>,
    stdinOpen: bool, inOpen: bool, outOpen: bool, childStopped: bool, stdoutFailed: bool, broken: bool)

  function Begin(input: seq<Byte>, streaming: bool): Flow {
    Flow(input, [], [], [], [], streaming, |input| > 0 || streaming, true, false, false, false)
  }

  predicate Refuses(e: FeedEvent) {
    e.FeedBroken? || (e.Accepts? && e.count <= 0)
  }

  function Fed(f: Flow, e: FeedEvent): Flow
    requires f.pending != []
  {
    if e.FeedIdle? then f
    else if Refuses(e) then f.(inOpen := false, childStopped := true)
    else
      var w := Min(e.count, |f.pending|);
      f.(pending := f.pending[w..], fed := f.fed + f.pending[..w], inOpen := f.inOpen && (w < |f.pending| || f.stdinOpen))
  }

  /** The bytes one read of at most a chunk takes. */
  function Taken(e: ReadEvent): seq<Byte>
    requires e.Reads?
  {
    e.available[..Min(|e.available|, CHUNK)]
  }

  function Refilled(f: Flow, e: ReadEvent): Flow {
    if e.ReadIdle? then f
    else if Taken(e) == [] then f.(stdinOpen := false, inOpen := false)
    else f.(pending := Taken(e), taken := f.taken + Taken(e))
  }

  /** How far the writes to our stdout get. */
  function Forwarded(forward: nat -> int, from: nat, r: nat): (k: nat)
    requires from <= r
    ensures from <= k <= r
    decreases r - from
  {
    if from == r then r
    else
      var w := Min(forward(from), r - from);
      if w <= 0 then from else Forwarded(forward, from + w, r)
  }

  function Drained(f: Flow, e: ReadEvent, forward: nat -> int): Flow {
    if e.ReadIdle? then f
    else
      var buf := Taken(e);
      var k := Forwarded(forward, 0, |buf|);
      f.(emitted := f.emitted + buf, relayed := f.relayed + buf[..k], outOpen := f.outOpen && buf != [] && k == |buf|,
         stdoutFailed := f.stdoutFailed || k < |buf|)
  }

  predicate FeedArmed(f: Flow) { f.inOpen && f.pending != [] }
  predicate RefillArmed(f: Flow) { f.inOpen && f.pending == [] }

  /** The calls of one round, for the descriptors armed at its start. */
  function Served(f: Flow, round: Round): Flow
    requires round.Polled?
  {
    var a := if FeedArmed(f) then Fed(f, round.feed) else f;
    var b := if RefillArmed(f) then Refilled(a, round.refill) else a;
    if f.outOpen then Drained(b, round.output, round.forward) else b
  }

  predicate Running(f: Flow) { f.inOpen || f.outOpen }

  function Pumped(f: Flow, rounds: seq<Round>): Flow
    decreases |rounds|
  {
    if rounds == [] || !Running(f) then f
    else if rounds[0].PollFailed? then f.(broken := true)
    else Pumped(if rounds[0].Polled? then Served(f, rounds[0]) else f, rounds[1..])
  }

  // --- what the calls of a run were ---------------------------------------------------------------------------

  /** One read of the child's stdout, and what of it reached ours. */
  datatype Output = Output(bytes: seq<Byte>, relayed: seq<Byte>)

  /** The writes to the child that were made, reads of our stdin, and reads of the child's stdout, in order. */
  datatype Calls = Calls(writes: seq<FeedEvent>, refills: seq<seq<Byte>>, outputs: seq<Output>)

  function OutputOf(e: ReadEvent, forward: nat -> int): Output
    requires e.Reads?
  {
    Output(Taken(e), Taken(e)[..Forwarded(forward, 0, |Taken(e)|)])
  }

  function CallsOf(f: Flow, round: Round): Calls
    requires round.Polled?
  {
    Calls(if FeedArmed(f) && !round.feed.FeedIdle? then [round.feed] else [],
          if RefillArmed(f) && round.refill.Reads? then [Taken(round.refill)] else [],
          if f.outOpen && round.output.Reads? then [OutputOf(round.output, round.forward)] else [])
  }

  function Joined(now: Calls, later: Calls): Calls {
    Calls(now.writes + later.writes, now.refills + later.refills, now.outputs + later.outputs)
  }

  function Trace(f: Flow, rounds: seq<Round>): Calls
    decreases |rounds|
  {
    if rounds == [] || !Running(f) || rounds[0].PollFailed? then Calls([], [], [])
    else if rounds[0].Interrupted? then Trace(f, rounds[1..])
    else Joined(CallsOf(f, rounds[0]), Trace(Served(f, rounds[0]), rounds[1..]))
  }

  function Concat(parts: seq<seq<Byte>>): seq<Byte> {
    if parts == [] then [] else parts[0] + Concat(parts[1..])
  }

  function Emitted(outputs: seq<Output>): seq<seq<Byte>> { Map((o: Output) => o.bytes, outputs) }
  function Relayed(outputs: seq<Output>): seq<seq<Byte>> { Map((o: Output) => o.relayed, outputs) }

  /** A read whose bytes did not all reach our stdout. */
  predicate Fails(o: Output) { |o.relayed| < |o.bytes| }

  predicate SomeFailed(outputs: seq<Output>) {
    exists i :: 0 <= i < |outputs| && Fails(outputs[i])
  }

  predicate SomeEnd(outputs: seq<Output>) {
    exists i :: 0 <= i < |outputs| && outputs[i].bytes == []
  }

  predicate SomeRefused(writes: seq<FeedEvent>) {
    exists i :: 0 <= i < |writes| && Refuses(writes[i])
  }

  /** What holds between any two calls. */
  predicate Conserved(f: Flow, input: seq<Byte>) {
    && f.fed + f.pending == input + f.taken
    && (f.inOpen && f.pending == [] ==> f.stdinOpen)
    && (!f.inOpen && !f.childStopped ==> f.pending == [] && !f.stdinOpen)
    && f.relayed <= f.emitted && (!f.stdoutFailed ==> f.relayed == f.emitted) && (f.outOpen ==> !f.stdoutFailed)
  }

  lemma MovedOver(fed: seq<Byte>, pending: seq<Byte>, w: nat)
    requires w <= |pending|
    ensures (fed + pending[..w]) + pending[w..] == fed + pending
  {}

  lemma FedConserves(f: Flow, e: FeedEvent, input: seq<Byte>)
    requires Conserved(f, input) && FeedArmed(f)
    ensures Conserved(Fed(f, e), input)
  {
    var g := Fed(f, e);
    if e.Accepts? && e.count > 0 {
      var w := Min(e.count, |f.pending|);
      MovedOver(f.fed, f.pending, w);
    }
  }

  lemma RefilledConserves(f: Flow, e: ReadEvent, input: seq<Byte>)
    requires Conserved(f, input) && RefillArmed(f)
    ensures Conserved(Refilled(f, e), input)
  {
    assert f.fed + [] == f.fed;
    if e.Reads? { assert (input + f.taken) + Taken(e) == input + (f.taken + Taken(e)); }
  }

  lemma DrainedConserves(f: Flow, e: ReadEvent, forward: nat -> int, input: seq<Byte>)
    requires Conserved(f, input) && f.outOpen
    ensures Conserved(Drained(f, e, forward), input)
  {
    if e.Reads? {
      var buf := Taken(e);
      var k := Forwarded(forward, 0, |buf|);
      assert buf == buf[..k] + buf[k..];
      assert f.emitted + buf == (f.relayed + buf[..k]) + buf[k..];
    }
  }

  lemma ServedConserves(f: Flow, round: Round, input: seq<Byte>)
    requires Conserved(f, input) && round.Polled?
    ensures Conserved(Served(f, round), input)
  {
    var a := if FeedArmed(f) then Fed(f, round.feed) else f;
    if FeedArmed(f) { FedConserves(f, round.feed, input); }
    var b := if RefillArmed(f) then Refilled(a, round.refill) else a;
    if RefillArmed(f) { RefilledConserves(a, round.refill, input); }
    if f.outOpen { DrainedConserves(b, round.output, round.forward, input); }
  }

  /** Over all rounds: bytes are conserved between the child and both of our ends. */
  lemma {:induction false} PumpConserves(f: Flow, rounds: seq<Round>, input: seq<Byte>)
    requires Conserved(f, input)
    ensures Conserved(Pumped(f, rounds), input)
    decreases |rounds|
  {
    if rounds != [] && Running(f) && !rounds[0].PollFailed? {
      if rounds[0].Polled? { ServedConserves(f, rounds[0], input); }
      PumpConserves(if rounds[0].Polled? then Served(f, rounds[0]) else f, rounds[1..], input);
    }
  }

  /** The ends of a flow after some calls: what they say is exactly what the calls returned. */
  ghost predicate AccountsIn(f: Flow, g: Flow, calls: Calls) {
    && g.taken == f.taken + Concat(calls.refills)
    && (g.stdinOpen <==> f.stdinOpen && [] !in calls.refills)
    && (g.childStopped <==> f.childStopped || SomeRefused(calls.writes))
  }

  ghost predicate AccountsOut(f: Flow, g: Flow, calls: Calls) {
    && g.emitted == f.emitted + Concat(Emitted(calls.outputs)) && g.relayed == f.relayed + Concat(Relayed(calls.outputs))
    && (g.stdoutFailed <==> f.stdoutFailed || SomeFailed(calls.outputs))
    && (g.outOpen <==> f.outOpen && !SomeEnd(calls.outputs) && !SomeFailed(calls.outputs))
  }

  lemma ConcatOne(part: seq<Byte>)
    ensures Concat([part]) == part
  {
    assert [part][1..] == [] && part + [] == part;
  }

  lemma {:induction false} ConcatMore(a: seq<seq<Byte>>, b: seq<seq<Byte>>)
    ensures Concat(a + b) == Concat(a) + Concat(b)
  {
    if a == [] {
      assert a + b == b;
    } else {
      assert (a + b)[0] == a[0] && (a + b)[1..] == a[1..] + b;
      ConcatMore(a[1..], b);
    }
  }

  lemma FedAccounts(f: Flow, e: FeedEvent)
    requires FeedArmed(f)
    ensures AccountsIn(f, Fed(f, e), Calls(if e.FeedIdle? then [] else [e], [], []))
  {
    assert f.taken + [] == f.taken && ([e][0] == e);
  }

  lemma RefilledAccounts(f: Flow, e: ReadEvent)
    ensures AccountsIn(f, Refilled(f, e), Calls([], if e.Reads? then [Taken(e)] else [], []))
  {
    assert f.taken + [] == f.taken;
    if e.Reads? { ConcatOne(Taken(e)); }
  }

  lemma ServedAccountsIn(f: Flow, round: Round)
    requires round.Polled?
    ensures AccountsIn(f, Served(f, round), CallsOf(f, round))
  {
    if FeedArmed(f) { FedAccounts(f, round.feed); }
    if RefillArmed(f) { RefilledAccounts(f, round.refill); }
    assert f.taken + [] == f.taken;
  }

  lemma DrainedAccounts(f: Flow, e: ReadEvent, forward: nat -> int)
    requires f.outOpen && e.Reads?
    ensures AccountsOut(f, Drained(f, e, forward), Calls([], [], [OutputOf(e, forward)]))
  {
    var o := OutputOf(e, forward);
    assert Emitted([o]) == [o.bytes] && Relayed([o]) == [o.relayed] && [o][0] == o;
    ConcatOne(o.bytes);
    ConcatOne(o.relayed);
  }

  lemma ServedAccountsOut(f: Flow, round: Round)
    requires round.Polled?
    ensures AccountsOut(f, Served(f, round), CallsOf(f, round))
  {
    var a := if FeedArmed(f) then Fed(f, round.feed) else f;
    var b := if RefillArmed(f) then Refilled(a, round.refill) else a;
    assert b.emitted == f.emitted && b.relayed == f.relayed && b.outOpen == f.outOpen && b.stdoutFailed == f.stdoutFailed;
    if f.outOpen && round.output.Reads? {
      DrainedAccounts(b, round.output, round.forward);
    } else {
      assert f.emitted + [] == f.emitted && f.relayed + [] == f.relayed;
    }
  }

  lemma WritesJoin(a: seq<FeedEvent>, b: seq<FeedEvent>)
    ensures SomeRefused(a + b) <==> SomeRefused(a) || SomeRefused(b)
  {
    var all := a + b;
    assert forall i :: 0 <= i < |a| ==> all[i] == a[i];
    assert forall i :: 0 <= i < |b| ==> all[|a| + i] == b[i];
  }

  lemma AccountsInChain(f: Flow, g: Flow, h: Flow, now: Calls, later: Calls)
    requires AccountsIn(f, g, now) && AccountsIn(g, h, later)
    ensures AccountsIn(f, h, Joined(now, later))
  {
    RefillsJoin(f.taken, now.refills, later.refills);
    WritesJoin(now.writes, later.writes);
  }

  lemma RefillsJoin(taken: seq<Byte>, a: seq<seq<Byte>>, b: seq<seq<Byte>>)
    ensures (taken + Concat(a)) + Concat(b) == taken + Concat(a + b)
    ensures [] in a + b <==> [] in a || [] in b
  {
    ConcatMore(a, b);
  }

  lemma OutputsJoin(a: seq<Output>, b: seq<Output>)
    ensures SomeFailed(a + b) <==> SomeFailed(a) || SomeFailed(b)
    ensures SomeEnd(a + b) <==> SomeEnd(a) || SomeEnd(b)
  {
    var all := a + b;
    assert forall i :: 0 <= i < |a| ==> all[i] == a[i];
    assert forall i :: 0 <= i < |b| ==> all[|a| + i] == b[i];
  }

  lemma BytesJoin(a: seq<Output>, b: seq<Output>)
    ensures Concat(Emitted(a + b)) == Concat(Emitted(a)) + Concat(Emitted(b))
    ensures Concat(Relayed(a + b)) == Concat(Relayed(a)) + Concat(Relayed(b))
  {
    assert Emitted(a + b) == Emitted(a) + Emitted(b) && Relayed(a + b) == Relayed(a) + Relayed(b);
    ConcatMore(Emitted(a), Emitted(b));
    ConcatMore(Relayed(a), Relayed(b));
  }

  lemma AccountsOutChain(f: Flow, g: Flow, h: Flow, now: Calls, later: Calls)
    requires AccountsOut(f, g, now) && AccountsOut(g, h, later)
    ensures AccountsOut(f, h, Joined(now, later))
  {
    OutputsJoin(now.outputs, later.outputs);
    BytesJoin(now.outputs, later.outputs);
  }

  lemma NoCalls(f: Flow)
    ensures AccountsIn(f, f, Calls([], [], [])) && AccountsOut(f, f, Calls([], [], []))
    ensures AccountsIn(f, f.(broken := true), Calls([], [], [])) && AccountsOut(f, f.(broken := true), Calls([], [], []))
  {
    assert f.taken + [] == f.taken && f.emitted + [] == f.emitted && f.relayed + [] == f.relayed;
  }

  /**
   Over all rounds: what was taken, emitted and relayed is what the reads and writes returned, in order; our stdin closes
   exactly on an empty read, the feed is given up exactly on a refused write, our stdout fails exactly on one too, and the
   child's stdout closes exactly on an empty read or such a failure.
   */
  lemma {:induction false} PumpAccounts(f: Flow, rounds: seq<Round>)
    ensures AccountsIn(f, Pumped(f, rounds), Trace(f, rounds)) && AccountsOut(f, Pumped(f, rounds), Trace(f, rounds))
    decreases |rounds|
  {
    if rounds == [] || !Running(f) || rounds[0].PollFailed? {
      NoCalls(f);
    } else if rounds[0].Interrupted? {
      PumpAccounts(f, rounds[1..]);
    } else {
      var g, rest := Served(f, rounds[0]), rounds[1..];
      PumpAccounts(g, rest);
      ServedAccountsIn(f, rounds[0]);
      ServedAccountsOut(f, rounds[0]);
      AccountsInChain(f, g, Pumped(g, rest), CallsOf(f, rounds[0]), Trace(g, rest));
      AccountsOutChain(f, g, Pumped(g, rest), CallsOf(f, rounds[0]), Trace(g, rest));
    }
  }

  /** The pump gives up exactly on the first failing poll it makes: with both ends closed before, it makes none. */
  lemma {:induction false} BrokenIff(f: Flow, rounds: seq<Round>)
    requires !f.broken
    ensures Pumped(f, rounds).broken <==>
              exists i :: 0 <= i < |rounds| && rounds[i].PollFailed? && PolledAt(f, rounds, i)
    decreases |rounds|
  {
    if rounds != [] && Running(f) {
      if rounds[0].PollFailed? {
        assert rounds[..0] == [] && PolledAt(f, rounds, 0);
      } else {
        var g, rest := if rounds[0].Polled? then Served(f, rounds[0]) else f, rounds[1..];
        BrokenIff(g, rest);
        forall i | 0 <= i < |rest| ensures PolledAt(g, rest, i) <==> PolledAt(f, rounds, i + 1) {
          assert rounds[..i + 1] == [rounds[0]] + rest[..i] && rounds[..i + 1][1..] == rest[..i];
        }
        if i :| 0 <= i < |rest| && rest[i].PollFailed? && PolledAt(g, rest, i) { assert rounds[i + 1].PollFailed?; }
        if i :| 0 <= i < |rounds| && rounds[i].PollFailed? && PolledAt(f, rounds, i) { assert rest[i - 1] == rounds[i]; }
      }
    } else if rounds != [] {
      forall i | 0 <= i < |rounds| ensures !PolledAt(f, rounds, i) {}
    }
  }

  /** The pump is still running after the first `i` rounds. */
  predicate PolledAt(f: Flow, rounds: seq<Round>, i: nat)
    requires i < |rounds|
  {
    var g := Pumped(f, rounds[..i]);
    !g.broken && Running(g)
  }

  /** A descriptor the round waits for reports something. */
  predicate Ready(f: Flow, round: Round)
    requires round.Polled?
  {
    || (FeedArmed(f) && !round.feed.FeedIdle?) || (RefillArmed(f) && round.refill.Reads?) || (f.outOpen && round.output.Reads?)
  }

  /** What is done: bytes moved, and ends closed. */
  function Work(f: Flow): nat {
    |f.fed| + |f.taken| + |f.emitted| + (if f.inOpen then 0 else 1) + (if f.outOpen then 0 else 1)
  }

  /** A round whose calls return undoes nothing, and one that poll woke for does something. */
  lemma EveryWakeupWorks(f: Flow, round: Round)
    requires round.Polled?
    ensures Work(Served(f, round)) >= Work(f) + if Ready(f, round) then 1 else 0
  {
    var a := if FeedArmed(f) then Fed(f, round.feed) else f;
    var b := if RefillArmed(f) then Refilled(a, round.refill) else a;
    if FeedArmed(f) { FedWorks(f, round.feed); }
    if RefillArmed(f) { RefilledWorks(a, round.refill); }
    if f.outOpen { DrainedWorks(b, round.output, round.forward); }
  }

  lemma FedWorks(f: Flow, e: FeedEvent)
    requires FeedArmed(f)
    ensures Work(Fed(f, e)) >= Work(f) + if e.FeedIdle? then 0 else 1
  {}

  lemma RefilledWorks(f: Flow, e: ReadEvent)
    requires f.inOpen
    ensures Work(Refilled(f, e)) >= Work(f) + if e.ReadIdle? then 0 else 1
  {}

  lemma DrainedWorks(f: Flow, e: ReadEvent, forward: nat -> int)
    requires f.outOpen
    ensures Work(Drained(f, e, forward)) >= Work(f) + if e.ReadIdle? then 0 else 1
  {}

  /** The rounds of a run that poll wakes for. */
  function Wakeups(f: Flow, rounds: seq<Round>): nat
    decreases |rounds|
  {
    if rounds == [] || !Running(f) || rounds[0].PollFailed? then 0
    else if rounds[0].Interrupted? then Wakeups(f, rounds[1..])
    else (if Ready(f, rounds[0]) then 1 else 0) + Wakeups(Served(f, rounds[0]), rounds[1..])
  }

  /** It never spins: as long as its calls return, it wakes at most once for every byte moved and once for each end closed. */
  lemma {:induction false} WakeupsAreWork(f: Flow, rounds: seq<Round>)
    ensures Wakeups(f, rounds) <= Work(Pumped(f, rounds)) - Work(f)
    decreases |rounds|
  {
    if rounds != [] && Running(f) && !rounds[0].PollFailed? {
      if rounds[0].Polled? { EveryWakeupWorks(f, rounds[0]); }
      WakeupsAreWork(if rounds[0].Polled? then Served(f, rounds[0]) else f, rounds[1..]);
    }
  }

  /**
   From the start to any end: the child has a prefix of the buffered input and what was read from our stdin; all of it,
   and all of our stdin, once the feed is closed without a refusal; and our stdout has a prefix of what the child wrote.
   */
  lemma DeliveryTheorem(input: seq<Byte>, streaming: bool, rounds: seq<Round>)
    ensures var g, calls := Pumped(Begin(input, streaming), rounds), Trace(Begin(input, streaming), rounds);
            && g.fed <= input + Concat(calls.refills) && g.relayed <= Concat(Emitted(calls.outputs))
            && (!g.inOpen && !SomeRefused(calls.writes) ==>
                  g.fed == input + Concat(calls.refills) && (streaming ==> [] in calls.refills))
            && (!g.outOpen && !SomeFailed(calls.outputs) ==>
                  g.relayed == Concat(Emitted(calls.outputs)) && SomeEnd(calls.outputs))
  {
    var f := Begin(input, streaming);
    assert f.fed + f.pending == input && input + f.taken == input;
    PumpConserves(f, rounds, input);
    PumpAccounts(f, rounds);
    Delivered(f, Pumped(f, rounds), Trace(f, rounds), input);
  }

  lemma Delivered(f: Flow, g: Flow, calls: Calls, input: seq<Byte>)
    requires AccountsIn(f, g, calls) && AccountsOut(f, g, calls) && Conserved(g, input)
    requires f.taken == f.emitted == [] && !f.childStopped && !f.stdoutFailed && f.outOpen
    ensures g.fed <= input + Concat(calls.refills) && g.relayed <= Concat(Emitted(calls.outputs))
    ensures !g.inOpen && !SomeRefused(calls.writes) ==>
              g.fed == input + Concat(calls.refills) && (f.stdinOpen ==> [] in calls.refills)
    ensures !g.outOpen && !SomeFailed(calls.outputs) ==> g.relayed == Concat(Emitted(calls.outputs)) && SomeEnd(calls.outputs)
  {
    assert [] + Concat(calls.refills) == Concat(calls.refills);
    assert [] + Concat(Emitted(calls.outputs)) == Concat(Emitted(calls.outputs));
    assert (g.fed + g.pending)[..|g.fed|] == g.fed;
    assert g.fed + [] == g.fed;
  }

  // --- the pump with its buffers --------------------------------------------------------------------------------

  class Pump {
    const input: seq<Byte>
    const chunk: array<Byte>
    var written: nat
    var chunkOff: nat
    var chunkLen: nat
    var stdinOpen: bool
    var inOpen: bool
    var outOpen: bool

    ghost var taken: seq<Byte>
    ghost var fed: seq<Byte>
    ghost var emitted: seq<Byte>
    ghost var relayed: seq<Byte>
    ghost var childStopped: bool
    ghost var stdoutFailed: bool
    ghost var broken: bool

    predicate HavePending()
      reads this
    {
      written < |input| || chunkOff < chunkLen
    }

    ghost predicate InBounds()
      reads this
    {
      chunk.Length == CHUNK && written <= |input| && chunkOff <= chunkLen <= CHUNK && (chunkOff < chunkLen ==> written == |input|)
    }

    ghost function Pending(): seq<Byte>
      requires InBounds()
      reads this, chunk
    {
      input[written..] + chunk[chunkOff..chunkLen]
    }

    /** The pump as a flow of bytes. */
    ghost function View(): Flow
      requires InBounds()
      reads this, chunk
    {
      Flow(Pending(), taken, fed, emitted, relayed, stdinOpen, inOpen, outOpen, childStopped, stdoutFailed, broken)
    }

    ghost predicate Valid()
      reads this, chunk
    {
      InBounds() && Conserved(View(), input)
    }

    constructor (input: seq<Byte>, streaming: bool)
      ensures Valid() && fresh(chunk) && this.input == input && View() == Begin(input, streaming)
    {
      this.input := input;
      chunk := new Byte[CHUNK](_ => 0);
      written, chunkOff, chunkLen := 0, 0, 0;
      stdinOpen := streaming;
      inOpen := |input| > 0 || streaming;
      outOpen := true;
      taken, fed, emitted, relayed := [], [], [], [];
      childStopped, stdoutFailed, broken := false, false, false;
      new;
      assert Pending() == input;
      assert [] + input == input + [];
    }

    /** One feed source at most, the child's stdout whenever it is open; never a closed stdin, never nothing. */
    method Arm() returns (a: Armed)
      requires Valid() && Running(View())
      ensures a.childStdin || a.ownStdin || a.childStdout
      ensures a == Armed(FeedArmed(View()), RefillArmed(View()), outOpen)
      ensures a.ownStdin ==> stdinOpen && fed == input + taken
      ensures inOpen ==> a.childStdin != a.ownStdin
    {
      var pending := HavePending();
      a := Armed(inOpen && pending, inOpen && !pending, outOpen);
      assert fed + [] == fed;
    }

    /** Bytes the child accepted leave what is pending. */
    method Sent(fromInput: bool, w: nat)
      requires InBounds() && fromInput == (written < |input|)
      requires 0 < w <= (if fromInput then |input| - written else chunkLen - chunkOff)
      modifies this`written, this`chunkOff, this`fed
      ensures InBounds() && w <= |old(Pending())|
      ensures Pending() == old(Pending())[w..] && fed == old(fed) + old(Pending())[..w]
    {
      if fromInput {
        fed := fed + input[written..written + w];
        written := written + w;
      } else {
        fed := fed + chunk[chunkOff..chunkOff + w];
        chunkOff := chunkOff + w;
      }
    }

    /** One write, from the buffered input before the chunk: what it returns, and what is pending after it. */
    method WritePending(e: FeedEvent) returns (w: int)
      requires InBounds() && Pending() != []
      modifies this`written, this`chunkOff, this`fed
      ensures InBounds() && w == if e.Accepts? then Min(e.count, |old(Pending())|) else -1
      ensures w > 0 ==> Pending() == old(Pending())[w..] && fed == old(fed) + old(Pending())[..w]
      ensures w <= 0 ==> Pending() == old(Pending()) && fed == old(fed)
    {
      var fromInput := written < |input|;
      var left := if fromInput then |input| - written else chunkLen - chunkOff;
      assert |Pending()| == left;
      w := if e.Accepts? then Min(e.count, left) else -1;
      if w > 0 { Sent(fromInput, w); }
    }

    /** A write of what is pending; a refusal stops the feed. */
    method Feed(e: FeedEvent)
      requires Valid() && FeedArmed(View())
      modifies this`written, this`chunkOff, this`inOpen, this`fed, this`childStopped
      ensures Valid() && View() == Fed(old(View()), e)
    {
      FedConserves(View(), e, input);
      if e.FeedIdle? { return; }
      var w := WritePending(e);
      assert Refuses(e) <==> w <= 0;
      assert Pending() == [] <==> written >= |input| && chunkOff >= chunkLen;
      if w <= 0 {
        inOpen, childStopped := false, true;
      } else if written >= |input| && chunkOff >= chunkLen && !stdinOpen {
        inOpen := false;
      }
    }

    /** A refill of the empty chunk from our stdin; the end of it ends the feed. */
    method Refill(e: ReadEvent)
      requires Valid() && RefillArmed(View())
      modifies this`stdinOpen, this`inOpen, this`chunkLen, this`chunkOff, this`taken, chunk
      ensures Valid() && View() == Refilled(old(View()), e)
    {
      RefilledConserves(View(), e, input);
      if e.ReadIdle? { return; }
      assert |Pending()| == 0;
      var r := Min(|e.available|, CHUNK);
      if r <= 0 {
        stdinOpen, inOpen := false, false;
        return;
      }
      forall k | 0 <= k < r { chunk[k] := e.available[k]; }
      chunkLen, chunkOff := r, 0;
      taken := taken + e.available[..r];
      assert Pending() == e.available[..r];
    }

    /** The writes to our stdout, up to one that fails. */
    method Forward(buf: seq<Byte>, forward: nat -> int) returns (fwd: nat)
      modifies this`relayed
      ensures fwd == Forwarded(forward, 0, |buf|) && relayed == old(relayed) + buf[..fwd]
    {
      fwd := 0;
      while fwd < |buf|
        invariant 0 <= fwd <= |buf| && relayed == old(relayed) + buf[..fwd]
        invariant Forwarded(forward, fwd, |buf|) == Forwarded(forward, 0, |buf|)
        decreases |buf| - fwd
      {
        var w := Min(forward(fwd), |buf| - fwd);
        if w <= 0 { return; }
        assert buf[..fwd + w] == buf[..fwd] + buf[fwd..fwd + w];
        relayed := relayed + buf[fwd..fwd + w];
        fwd := fwd + w;
      }
    }

    /** A read of the child's stdout, forwarded to ours in as many writes as it takes. */
    method Drain(e: ReadEvent, forward: nat -> int)
      requires Valid() && outOpen
      modifies this`outOpen, this`emitted, this`relayed, this`stdoutFailed
      ensures Valid() && View() == Drained(old(View()), e, forward)
    {
      DrainedConserves(View(), e, forward, input);
      if e.ReadIdle? { return; }
      var r := Min(|e.available|, CHUNK);
      var buf := e.available[..r];
      emitted := emitted + buf;
      if r <= 0 {
        outOpen := false;
        return;
      }
      var fwd := Forward(buf, forward);
      if fwd < r { outOpen, stdoutFailed := false, true; }
    }

    /** The calls of one round, for the descriptors it armed. */
    method Serve(armed: Armed, round: Round)
      requires Valid() && round.Polled? && armed == Armed(FeedArmed(View()), RefillArmed(View()), outOpen)
      modifies this, chunk
      ensures Valid() && View() == Served(old(View()), round)
    {
      if armed.childStdin { Feed(round.feed); }
      if armed.ownStdin { Refill(round.refill); }
      if armed.childStdout { Drain(round.output, round.forward); }
    }

    /** The pump loop, over whatever the descriptors report. */
    method Run(rounds: seq<Round>)
      requires Valid()
      modifies this, chunk
      ensures Valid() && View() == Pumped(old(View()), rounds)
    {
      var k := 0;
      assert rounds[0..] == rounds;
      while (inOpen || outOpen) && k < |rounds|
        invariant Valid() && k <= |rounds|
        invariant Pumped(View(), rounds[k..]) == Pumped(old(View()), rounds)
        decreases |rounds| - k
      {
        assert rounds[k..][0] == rounds[k] && rounds[k..][1..] == rounds[k + 1..];
        var armed := Arm();
        if rounds[k].PollFailed? {
          broken := true;
          break;
        }
        if rounds[k].Polled? { Serve(armed, rounds[k]); }
        k := k + 1;
      }
    }
  }
}
