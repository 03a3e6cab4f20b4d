/** Incremental confidence decay: charging age in pieces gives what charging it once would give. */
module Decay {
  import opened Rows

  const MS_PER_DAY := 86_400_000.0
  const GRACE_PERIOD_DAYS := 7.0
  const MIN_CHARGE_DAYS := 0.01
  const DELETE_THRESHOLD := 0.1
  const DEFAULT_STABILITY_DAYS := 30.0

  datatype Kind = Pitfall | Correction | Decision | Fact | TaskState | UserProfile | Reference | Pattern | Goal | OtherKind
  datatype Source = Corrected | User | Confirmed | Learned | OtherSource

  /** A stored timestamp: missing, unreadable, or a time in milliseconds. */
  datatype Stamp = Missing | Malformed | At(ms: real)

  datatype Row = Row(
    kind: Kind, decays: bool, source: Source, confidence: real, created: Stamp, lastRecalled: Stamp, lastDecayed: Stamp)

  function KindStability(k: Kind): real {
    match k
    case Pitfall => 60.0
    case Correction => 60.0
    case Decision => 45.0
    case Fact => 30.0
    case TaskState => 15.0
    case UserProfile => 120.0
    case Reference => 120.0
    case Pattern => 50.0
    case Goal => 90.0
    case OtherKind => DEFAULT_STABILITY_DAYS
  }

  function SourceWeight(s: Source): real {
    match s
    case Corrected => 1.5
    case User => 1.2
    case Confirmed => 1.1
    case Learned => 1.0
    case OtherSource => 1.0
  }

  function Stability(r: Row): (s: real)
    ensures s > 0.0
  {
    KindStability(r.kind) * SourceWeight(r.source)
  }

  function Max(a: real, b: real): real { if a >= b then a else b }

  function Days(ms: real): real { ms / MS_PER_DAY }

  /** Days of decay-eligible age at a time, for a reference point. */
  function EffectiveAge(t: real, reference: real): real {
    Max(0.0, Days(t - reference) - GRACE_PERIOD_DAYS)
  }

  function Reference(r: Row): Stamp {
    if r.lastRecalled.Missing? then r.created else r.lastRecalled
  }

  /** The time up to which age is already charged. */
  function ChargedTo(r: Row): Stamp {
    if r.lastDecayed.Missing? then Reference(r) else r.lastDecayed
  }

  predicate Eligible(r: Row) {
    r.decays && r.confidence > DELETE_THRESHOLD
  }

  /** The age a run at `now` would charge; none where a timestamp cannot be read. */
  function Delta(r: Row, now: real): Option<real> {
    if !Reference(r).At? || !ChargedTo(r).At? then None
    else Some(EffectiveAge(now, Reference(r).ms) - EffectiveAge(ChargedTo(r).ms, Reference(r).ms))
  }

  /** Confidence after a charge of some days: exponential in the stability, held at the floor. */
  function Decayed(confidence: real, days: real, s: real, exp: real -> real): real
    requires s > 0.0
  {
    Max(DELETE_THRESHOLD, confidence * exp(-days / s))
  }

  /** One row in one run: too little age is left for later, the rest is charged and the charge recorded. */
  function Charge(r: Row, now: real, exp: real -> real): Row {
    var delta := Delta(r, now);
    if !Eligible(r) || delta.None? || delta.value < MIN_CHARGE_DAYS then r
    else r.(confidence := Decayed(r.confidence, delta.value, Stability(r), exp), lastDecayed := At(now))
  }

  function CountDropped(before: seq<Row>, after: seq<Row>): nat
    requires |before| == |after|
  {
    if before == [] then 0
    else (if after[|after| - 1].confidence < before[|before| - 1].confidence then 1 else 0)
         + CountDropped(before[..|before| - 1], after[..|after| - 1])
  }

  /** The maintenance loop over the rows, in place. */
  method ApplyConfidenceDecay(rows: array<Row>, now: real, exp: real -> real) returns (decayed: nat)
    modifies rows
    ensures rows[..] == Map((r: Row) => Charge(r, now, exp), old(rows[..]))
    ensures decayed == CountDropped(old(rows[..]), rows[..])
  {
    decayed := 0;
    ghost var was := rows[..];
    for i := 0 to rows.Length
      invariant forall j :: 0 <= j < i ==> rows[j] == Charge(was[j], now, exp)
      invariant forall j :: i <= j < rows.Length ==> rows[j] == was[j]
      invariant decayed == CountDropped(was[..i], rows[..i])
    {
      var mem := rows[i];
      ghost var done := rows[..i];
      rows[i] := Charge(mem, now, exp);
      if rows[i].confidence < mem.confidence { decayed := decayed + 1; }
      assert was[..i + 1][..i] == was[..i] && rows[..i + 1][..i] == done;
    }
    assert was[..rows.Length] == was && rows[..rows.Length] == rows[..];
  }

  // --- a schedule of runs ---------------------------------------------------------------------------------

  /** The homomorphism law of the exponential, which is all the accumulation needs. */
  ghost predicate Exponential(exp: real -> real) {
    exp(0.0) == 1.0 && forall x, y :: exp(x + y) == exp(x) * exp(y)
  }

  ghost predicate Shrinks(exp: real -> real) {
    forall x :: x <= 0.0 ==> 0.0 < exp(x) <= 1.0
  }

  function RunAll(r: Row, times: seq<real>, exp: real -> real): Row {
    if times == [] then r else Charge(RunAll(r, times[..|times| - 1], exp), times[|times| - 1], exp)
  }

  predicate Readable(r: Row) {
    r.decays && Reference(r).At? && ChargedTo(r).At?
  }

  /** Age charged so far, counted from the row's reference point. */
  function ChargedAge(r: Row): real
    requires Readable(r)
  {
    EffectiveAge(ChargedTo(r).ms, Reference(r).ms)
  }

  /** Two charges in a row are one charge of the sum, floor included. */
  lemma ChargesAdd(confidence: real, a: real, b: real, s: real, exp: real -> real)
    requires Exponential(exp) && s > 0.0
    requires Decayed(confidence, a, s, exp) > DELETE_THRESHOLD
    ensures Decayed(Decayed(confidence, a, s, exp), b, s, exp) == Decayed(confidence, a + b, s, exp)
  {
    var x, y := -a / s, -b / s;
    SumOfQuotients(a, b, s);
    assert exp(x + y) == exp(x) * exp(y);
  }

  lemma SumOfQuotients(a: real, b: real, s: real)
    requires s > 0.0
    ensures -a / s + -b / s == -(a + b) / s
  {}

  /** The closed form: one charge of all the age since the start, with the floor applied once. */
  predicate Accumulated(confidence: real, age: real, s: real, now: Row, exp: real -> real)
    requires Readable(now) && s > 0.0
  {
    now.confidence == Decayed(confidence, ChargedAge(now) - age, s, exp)
  }

  lemma ChargeAccumulates(confidence: real, age: real, s: real, r: Row, now: real, exp: real -> real)
    requires Exponential(exp) && s > 0.0 && Readable(r) && Stability(r) == s && Accumulated(confidence, age, s, r, exp)
    ensures Accumulated(confidence, age, s, Charge(r, now, exp), exp)
  {
    var delta := Delta(r, now).value;
    if Eligible(r) && delta >= MIN_CHARGE_DAYS {
      ChargesAdd(confidence, ChargedAge(r) - age, delta, s, exp);
      assert ChargedAge(Charge(r, now, exp)) == ChargedAge(r) + delta;
    }
  }

  /**
   Any number of runs at any times, with any sub-threshold skips: as long as the reference point does not move, the
   confidence is the starting one times a single exponential of the age charged since, never below the floor.
   */
  lemma {:induction false} RunsAccumulate(start: Row, times: seq<real>, exp: real -> real)
    requires Exponential(exp) && Readable(start) && start.confidence >= DELETE_THRESHOLD
    ensures var r := RunAll(start, times, exp);
            && Readable(r) && SameMemory(r, start)
            && Accumulated(start.confidence, ChargedAge(start), Stability(start), r, exp)
    decreases |times|
  {
    if times == [] {
    } else {
      var init := times[..|times| - 1];
      RunsAccumulate(start, init, exp);
      OneMoreRun(start, RunAll(start, init, exp), times[|times| - 1], exp);
    }
  }

  /** The row is still about the same memory, with the same reference point. */
  predicate SameMemory(a: Row, b: Row) {
    Reference(a) == Reference(b) && a.kind == b.kind && a.source == b.source
  }

  lemma OneMoreRun(start: Row, r: Row, now: real, exp: real -> real)
    requires Exponential(exp) && Readable(start) && Readable(r) && SameMemory(r, start)
    requires Accumulated(start.confidence, ChargedAge(start), Stability(start), r, exp)
    ensures var c := Charge(r, now, exp);
            && Readable(c) && SameMemory(c, start)
            && Accumulated(start.confidence, ChargedAge(start), Stability(start), c, exp)
  {
    var age, s := ChargedAge(start), Stability(start);
    ChargeAccumulates(start.confidence, age, s, r, now, exp);
  }

  /** Two schedules charged up to the same age leave the same confidence, however often either ran. */
  lemma ScheduleDoesNotMatter(start: Row, some: seq<real>, others: seq<real>, exp: real -> real)
    requires Exponential(exp) && Readable(start) && start.confidence >= DELETE_THRESHOLD
    requires Readable(RunAll(start, some, exp)) && Readable(RunAll(start, others, exp))
    requires ChargedAge(RunAll(start, some, exp)) == ChargedAge(RunAll(start, others, exp))
    ensures RunAll(start, some, exp).confidence == RunAll(start, others, exp).confidence
  {
    RunsAccumulate(start, some, exp);
    RunsAccumulate(start, others, exp);
  }

  /** After a run nothing but a sub-threshold remainder is owed, unless the row sits at the floor. */
  lemma NothingIsLost(start: Row, times: seq<real>, now: real, exp: real -> real)
    requires Exponential(exp) && Readable(start) && start.confidence >= DELETE_THRESHOLD
    ensures var r := RunAll(start, times + [now], exp);
            && Readable(r)
            && (EffectiveAge(now, Reference(r).ms) - ChargedAge(r) < MIN_CHARGE_DAYS || r.confidence == DELETE_THRESHOLD)
  {
    assert (times + [now])[..|times|] == times;
    RunsAccumulate(start, times, exp);
  }

  /** Decay only lowers confidence, and never below the deletion threshold. */
  lemma {:induction false} DecayIsBounded(start: Row, times: seq<real>, exp: real -> real)
    requires Shrinks(exp) && start.confidence >= DELETE_THRESHOLD
    ensures DELETE_THRESHOLD <= RunAll(start, times, exp).confidence <= start.confidence
    decreases |times|
  {
    if times != [] {
      DecayIsBounded(start, times[..|times| - 1], exp);
      ChargeShrinks(RunAll(start, times[..|times| - 1], exp), times[|times| - 1], exp);
    }
  }

  lemma ChargeShrinks(r: Row, now: real, exp: real -> real)
    requires Shrinks(exp) && r.confidence >= DELETE_THRESHOLD
    ensures DELETE_THRESHOLD <= Charge(r, now, exp).confidence <= r.confidence
  {
    var delta := Delta(r, now);
    if delta.Some? && delta.value >= MIN_CHARGE_DAYS {
      var f := exp(-delta.value / Stability(r));
      assert 0.0 < f <= 1.0 by { Negative(delta.value, Stability(r)); }
      Scaled(r.confidence, f);
    }
  }

  lemma Negative(x: real, s: real)
    requires x >= 0.0 && s > 0.0
    ensures -x / s <= 0.0
  {}

  lemma Scaled(c: real, f: real)
    requires c >= 0.0 && f <= 1.0
    ensures c * f <= c
  {}

  // --- recalls move the reference point -------------------------------------------------------------------------

  function Recall(r: Row, at: real): Row {
    r.(lastRecalled := At(at))
  }

  /** The age charged to a row before a recall, and owed at it. */
  function Owed(r: Row, at: real): real
    requires Readable(r)
  {
    EffectiveAge(at, Reference(r).ms) - ChargedAge(r)
  }

  /** The row as it would be if all the age owed at a time were charged then, however little. */
  function Settled(r: Row, at: real, exp: real -> real): Row
    requires Readable(r)
  {
    r.(confidence := Decayed(r.confidence, Owed(r, at), Stability(r), exp), lastDecayed := At(at))
  }

  /** The law that makes every charge felt. */
  ghost predicate StrictlyShrinks(exp: real -> real) {
    Shrinks(exp) && forall x :: x < 0.0 ==> exp(x) < 1.0
  }

  /** Age can be owed only forwards in time. */
  lemma OwedIsNonNegative(r: Row, at: real)
    requires Readable(r) && ChargedTo(r).ms <= at
    ensures Owed(r, at) >= 0.0
  {
    assert Days(ChargedTo(r).ms - Reference(r).ms) <= Days(at - Reference(r).ms);
  }

  lemma RecallRestarts(r: Row, at: real)
    requires Readable(r) && ChargedTo(r).ms <= at
    ensures Readable(Recall(r, at)) && ChargedAge(Recall(r, at)) == 0.0
  {
    assert Days(ChargedTo(Recall(r, at)).ms - at) <= 0.0;
  }

  lemma SettledRestarts(r: Row, at: real, exp: real -> real)
    requires Readable(r)
    ensures var c := Recall(Settled(r, at, exp), at); Readable(c) && ChargedAge(c) == 0.0
  {
    assert Days(at - at) == 0.0;
  }

  /** One row that is behind another by a charge of `owed` days. */
  predicate Behind(a: Row, b: Row, owed: real, s: real, exp: real -> real)
    requires s > 0.0
  {
    && Readable(a) && Readable(b) && SameMemory(a, b) && Stability(b) == s && b.confidence >= DELETE_THRESHOLD
    && a.confidence == Decayed(b.confidence, owed, s, exp)
    && (a.confidence == DELETE_THRESHOLD || ChargedAge(a) == ChargedAge(b))
  }

  lemma Ordered(c: real, d: real, f: real)
    requires d <= c && f > 0.0
    ensures d * f <= c * f
  {}

  lemma Swapped(c: real, f: real, g: real)
    ensures (c * f) * g == (c * g) * f
  {
    assert (c * f) * g == c * (f * g) && (c * g) * f == c * (g * f);
  }

  lemma LowerCharged(c: real, d: real, days: real, s: real, exp: real -> real)
    requires s > 0.0 && d <= c && exp(-days / s) > 0.0
    ensures Decayed(d, days, s, exp) <= Decayed(c, days, s, exp)
  {
    Ordered(c, d, exp(-days / s));
  }

  /** Once a charge reaches the floor from some confidence, it does from any lower one. */
  lemma FloorStays(c: real, d: real, days: real, s: real, exp: real -> real)
    requires s > 0.0 && d <= c && exp(-days / s) > 0.0 && Decayed(c, days, s, exp) == DELETE_THRESHOLD
    ensures Decayed(d, days, s, exp) == DELETE_THRESHOLD
  {
    LowerCharged(c, d, days, s, exp);
    AtLeastFloor(d, days, s, exp);
  }

  lemma AtLeastFloor(c: real, days: real, s: real, exp: real -> real)
    requires s > 0.0
    ensures Decayed(c, days, s, exp) >= DELETE_THRESHOLD
  {}

  lemma FloorsMeet(floor: real, x: real, y: real, f: real)
    requires floor > 0.0 && 0.0 < f <= 1.0 && y == x * f
    ensures Max(floor, y) == Max(floor, Max(floor, x) * f)
  {
    if x < floor {
      Ordered(floor, x, f);
      Scaled(floor, f);
    }
  }

  /** Charging two amounts in either order gives the same, floors included. */
  lemma FactorsCommute(c: real, f: real, g: real)
    requires 0.0 < f <= 1.0
    ensures Max(DELETE_THRESHOLD, (c * f) * g) == Max(DELETE_THRESHOLD, Max(DELETE_THRESHOLD, c * g) * f)
  {
    Swapped(c, f, g);
    FloorsMeet(DELETE_THRESHOLD, c * g, (c * f) * g, f);
  }

  lemma ChargeKeepsBehind(a: Row, b: Row, now: real, owed: real, s: real, exp: real -> real)
    requires Shrinks(exp) && s > 0.0 && owed >= 0.0 && Behind(a, b, owed, s, exp)
    ensures Behind(Charge(a, now, exp), Charge(b, now, exp), owed, s, exp)
  {
    ChargeShrinks(b, now, exp);
    if a.confidence == DELETE_THRESHOLD { FlooredStays(a, b, now, owed, s, exp); } else { BothCharged(a, b, now, owed, s, exp); }
  }

  lemma FlooredStays(a: Row, b: Row, now: real, owed: real, s: real, exp: real -> real)
    requires Shrinks(exp) && s > 0.0 && owed >= 0.0 && Behind(a, b, owed, s, exp) && a.confidence == DELETE_THRESHOLD
    requires DELETE_THRESHOLD <= Charge(b, now, exp).confidence <= b.confidence
    ensures Behind(Charge(a, now, exp), Charge(b, now, exp), owed, s, exp)
  {
    Negative(owed, s);
    FloorStays(b.confidence, Charge(b, now, exp).confidence, owed, s, exp);
  }

  /** Two charges from a confidence that the first leaves above the floor, in either order. */
  lemma ChargesCommute(c: real, owed: real, delta: real, s: real, exp: real -> real)
    requires Shrinks(exp) && s > 0.0 && owed >= 0.0 && Decayed(c, owed, s, exp) > DELETE_THRESHOLD
    ensures Decayed(Decayed(c, owed, s, exp), delta, s, exp) == Decayed(Decayed(c, delta, s, exp), owed, s, exp)
  {
    Negative(owed, s);
    var f, g := exp(-owed / s), exp(-delta / s);
    FactorsCommute(c, f, g);
    assert Decayed(c, owed, s, exp) == c * f;
  }

  lemma BothCharged(a: Row, b: Row, now: real, owed: real, s: real, exp: real -> real)
    requires Shrinks(exp) && s > 0.0 && owed >= 0.0 && Behind(a, b, owed, s, exp) && a.confidence > DELETE_THRESHOLD
    requires DELETE_THRESHOLD <= Charge(b, now, exp).confidence
    ensures Behind(Charge(a, now, exp), Charge(b, now, exp), owed, s, exp)
  {
    var delta := Delta(b, now).value;
    ChargesCommute(b.confidence, owed, delta, s, exp);
    StillAbove(b.confidence, owed, s, exp);
    assert Delta(a, now) == Some(delta);
  }

  lemma StillAbove(c: real, owed: real, s: real, exp: real -> real)
    requires Shrinks(exp) && s > 0.0 && owed >= 0.0 && c >= DELETE_THRESHOLD && Decayed(c, owed, s, exp) > DELETE_THRESHOLD
    ensures c > DELETE_THRESHOLD
  {
    Negative(owed, s);
    Scaled(c, exp(-owed / s));
  }

  lemma {:induction false} RunsKeepBehind(a: Row, b: Row, times: seq<real>, owed: real, s: real, exp: real -> real)
    requires Shrinks(exp) && s > 0.0 && owed >= 0.0 && Behind(a, b, owed, s, exp)
    ensures Behind(RunAll(a, times, exp), RunAll(b, times, exp), owed, s, exp)
    decreases |times|
  {
    if times != [] {
      var init := times[..|times| - 1];
      RunsKeepBehind(a, b, init, owed, s, exp);
      ChargeKeepsBehind(RunAll(a, init, exp), RunAll(b, init, exp), times[|times| - 1], owed, s, exp);
    }
  }

  /**
   What a recall loses: at every later point, after any runs, the row stands as if it had never owed the age that was
   owed at the recall. Charging exactly that age then and there is the whole difference, and a run at that moment
   charges it unless it is below the threshold.
   */
  lemma RecallLosesOwedAge(r: Row, at: real, times: seq<real>, exp: real -> real)
    requires Shrinks(exp) && Readable(r) && r.confidence >= DELETE_THRESHOLD && ChargedTo(r).ms <= at
    ensures RunAll(Recall(Settled(r, at, exp), at), times, exp).confidence
         == Decayed(RunAll(Recall(r, at), times, exp).confidence, Owed(r, at), Stability(r), exp)
    ensures Eligible(r) && Owed(r, at) >= MIN_CHARGE_DAYS ==> Charge(r, at, exp) == Settled(r, at, exp)
  {
    OwedIsNonNegative(r, at);
    RecallRestarts(r, at);
    SettledRestarts(r, at, exp);
    RunsKeepBehind(Recall(Settled(r, at, exp), at), Recall(r, at), times, Owed(r, at), Stability(r), exp);
  }

  /** A recall loses nothing exactly when nothing is owed at that moment, or the row has reached the floor anyway. */
  lemma RecallLosesNothingIff(r: Row, at: real, times: seq<real>, exp: real -> real)
    requires StrictlyShrinks(exp) && exp(0.0) == 1.0
    requires Readable(r) && r.confidence >= DELETE_THRESHOLD && ChargedTo(r).ms <= at
    ensures var recalled := RunAll(Recall(r, at), times, exp).confidence;
            RunAll(Recall(Settled(r, at, exp), at), times, exp).confidence == recalled
            <==> Owed(r, at) == 0.0 || recalled == DELETE_THRESHOLD
  {
    RecallLosesOwedAge(r, at, times, exp);
    OwedIsNonNegative(r, at);
    DecayIsBounded(Recall(r, at), times, exp);
    ChargeIsFelt(RunAll(Recall(r, at), times, exp).confidence, Owed(r, at), Stability(r), exp);
  }

  lemma ChargeIsFelt(c: real, owed: real, s: real, exp: real -> real)
    requires StrictlyShrinks(exp) && exp(0.0) == 1.0 && c >= DELETE_THRESHOLD && owed >= 0.0 && s > 0.0
    ensures Decayed(c, owed, s, exp) == c <==> owed == 0.0 || c == DELETE_THRESHOLD
  {
    if owed == 0.0 {
      ZeroQuotient(s);
      assert c * 1.0 == c;
    } else {
      StrictQuotient(owed, s);
      var f := exp(-owed / s);
      var x := c * f;
      StrictlyScaled(c, f);
      assert Decayed(c, owed, s, exp) == Max(DELETE_THRESHOLD, x) && x < c;
    }
  }

  lemma ZeroQuotient(s: real)
    requires s > 0.0
    ensures -0.0 / s == 0.0
  {}

  lemma StrictlyScaled(c: real, f: real)
    requires c > 0.0 && f < 1.0
    ensures c * f < c
  {}

  lemma StrictQuotient(x: real, s: real)
    requires x > 0.0 && s > 0.0
    ensures -x / s < 0.0
  {}
}
