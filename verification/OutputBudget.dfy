/**
 * The output limit shared by the reader threads of a task: one wrapping 64-bit counter, one
 * atomic addition per chunk, and readers that act on what that addition returned while the
 * others go on.
 */
module OutputBudget {
  import opened Common

  const CHUNK: nat := 4096

  /** Between reads; holding a counted chunk; over the limit but not yet cancelled; finished. */
  datatype Phase = Reading | Holding(n: nat) | Over | Done

  /** `total` is the true number of bytes read; the program only has the counter. */
  datatype Budget = Budget(counter: nat, exceeded: bool, cancelled: bool, readers: seq<Phase>,
                           forwarded: nat, total: nat)

  datatype Event =
    | Read(reader: nat, n: nat)
    | Close(reader: nat)
    | Forward(reader: nat, accepted: bool)
    | Stop(reader: nat)
    | Cancel

  function Start(readers: nat): Budget {
    Budget(0, false, false, seq(readers, i => Reading), 0, 0)
  }

  predicate Enabled(b: Budget, ev: Event) {
    ev.Cancel? || (ev.reader < |b.readers| &&
                   var phase := b.readers[ev.reader];
                   match ev
                   case Read(_, n) => phase.Reading? && 1 <= n <= CHUNK
                   case Close(_) => phase.Reading?
                   case Forward(_, _) => phase.Holding?
                   case Stop(_) => phase.Over?
                   case Cancel => true)
  }

  function Moved(b: Budget, reader: nat, phase: Phase): Budget
    requires reader < |b.readers|
  {
    b.(readers := b.readers[reader := phase])
  }

  /** The addition wraps; the comparison saturates. */
  function AfterRead(b: Budget, reader: nat, n: nat, max: nat): Budget
    requires reader < |b.readers|
  {
    Moved(b, reader, if SaturatingAdd(b.counter, n) > max then Over else Holding(n))
    .(counter := (b.counter + n) % (U64_MAX + 1), total := b.total + n)
  }

  function Step(b: Budget, ev: Event, max: nat): Budget {
    if !Enabled(b, ev) then b
    else
      match ev
      case Read(reader, n) => AfterRead(b, reader, n, max)
      case Close(reader) => Moved(b, reader, Done)
      case Forward(reader, accepted) =>
        if accepted && !b.cancelled then
          Moved(b, reader, Reading).(forwarded := b.forwarded + b.readers[reader].n)
        else Moved(b, reader, Done).(cancelled := true)
      case Stop(reader) => Moved(b, reader, Done).(exceeded := true, cancelled := true)
      case Cancel => b.(cancelled := true)
  }

  function Run(b: Budget, run: seq<Event>, max: nat): Budget {
    if run == [] then b else Step(Run(b, run[..|run| - 1], max), run[|run| - 1], max)
  }

  // --------------------------------------------------------------------- the invariant

  function Held(phase: Phase): nat { if phase.Holding? then phase.n else 0 }

  /** Bytes counted within the limit and not yet forwarded. */
  function AllHeld(readers: seq<Phase>): nat {
    if readers == [] then 0 else Held(readers[0]) + AllHeld(readers[1..])
  }

  function Live(phase: Phase): nat { if phase.Reading? || phase.Holding? then 1 else 0 }

  /** Readers that may look at the counter again. */
  function AllLive(readers: seq<Phase>): nat {
    if readers == [] then 0 else Live(readers[0]) + AllLive(readers[1..])
  }

  lemma {:induction false} MoveCounts(readers: seq<Phase>, i: nat, phase: Phase)
    requires i < |readers|
    ensures AllHeld(readers[i := phase]) + Held(readers[i]) == AllHeld(readers) + Held(phase)
    ensures AllLive(readers[i := phase]) + Live(readers[i]) == AllLive(readers) + Live(phase)
    ensures AllLive(readers) <= |readers|
    ensures Held(readers[i]) <= AllHeld(readers) && Live(readers[i]) <= AllLive(readers)
    decreases |readers|
  {
    LiveCount(readers);
    if i > 0 {
      assert readers[i := phase][1..] == readers[1..][i - 1 := phase];
      MoveCounts(readers[1..], i - 1, phase);
    } else {
      assert readers[i := phase][1..] == readers[1..];
    }
  }

  lemma {:induction false} LiveCount(readers: seq<Phase>)
    ensures AllLive(readers) <= |readers|
  {
    if readers != [] {
      LiveCount(readers[1..]);
    }
  }

  /** Readers no longer live have overshot by a chunk each at most. */
  predicate Sound(b: Budget, max: nat) {
    var live := AllLive(b.readers);
    && live <= |b.readers|
    && b.forwarded + AllHeld(b.readers) <= max
    && b.forwarded + AllHeld(b.readers) <= b.total
    && b.total <= max + CHUNK * (|b.readers| - live)
    && (live > 0 ==> b.counter == b.total)
  }

  /** Limits for which the counter cannot wrap while a reader could still look at it. */
  predicate Roomy(readers: nat, max: nat) {
    max == 0 || readers == 0 || (max < U64_MAX && max + CHUNK * (readers - 1) <= U64_MAX)
  }

  lemma ReadKeepsSound(b: Budget, reader: nat, n: nat, max: nat)
    requires Sound(b, max) && max > 0 && Roomy(|b.readers|, max) && Enabled(b, Read(reader, n))
    ensures Sound(AfterRead(b, reader, n, max), max)
  {
    var live, size := AllLive(b.readers), |b.readers|;
    var phase := if SaturatingAdd(b.counter, n) > max then Over else Holding(n);
    MoveCounts(b.readers, reader, phase);
    assert CHUNK * (size - live) <= CHUNK * (size - 1);
    if phase.Over? && live > 1 {
      assert CHUNK * (size - live + 1) <= CHUNK * (size - 1);
    }
  }

  lemma StepKeepsSound(b: Budget, ev: Event, max: nat)
    requires Sound(b, max) && max > 0 && Roomy(|b.readers|, max)
    ensures Sound(Step(b, ev, max), max) && |Step(b, ev, max).readers| == |b.readers|
  {
    if Enabled(b, ev) {
      match ev
      case Read(reader, n) => ReadKeepsSound(b, reader, n, max);
      case Close(reader) => MoveCounts(b.readers, reader, Done);
      case Forward(reader, accepted) =>
        MoveCounts(b.readers, reader, Reading);
        MoveCounts(b.readers, reader, Done);
      case Stop(reader) => MoveCounts(b.readers, reader, Done);
      case Cancel =>
    }
  }

  lemma {:induction false} StartCounts(readers: nat)
    ensures AllHeld(Start(readers).readers) == 0 && AllLive(Start(readers).readers) == readers
  {
    if readers > 0 {
      StartCounts(readers - 1);
      assert Start(readers).readers[1..] == Start(readers - 1).readers;
    }
  }

  lemma {:induction false} RunKeepsSound(run: seq<Event>, readers: nat, max: nat)
    requires max > 0 && Roomy(readers, max)
    ensures
      var b := Run(Start(readers), run, max);
      Sound(b, max) && |b.readers| == readers
  {
    if run == [] {
      StartCounts(readers);
    } else {
      RunKeepsSound(run[..|run| - 1], readers, max);
      StepKeepsSound(Run(Start(readers), run[..|run| - 1], max), run[|run| - 1], max);
    }
  }

  /** With a limit of zero nothing is ever held. */
  lemma {:induction false} ZeroForwardsNothing(run: seq<Event>, readers: nat)
    ensures
      var b := Run(Start(readers), run, 0);
      b.forwarded == 0 && forall i :: 0 <= i < |b.readers| ==> !b.readers[i].Holding?
  {
    if run != [] {
      ZeroForwardsNothing(run[..|run| - 1], readers);
    }
  }

  // ------------------------------------------------------------------ wrapping runs

  lemma {:induction false} RunAppends(b: Budget, r: seq<Event>, s: seq<Event>, max: nat)
    ensures Run(b, r + s, max) == Run(Run(b, r, max), s, max)
    decreases |s|
  {
    if s == [] {
      assert r + s == r;
    } else {
      var n := |s| - 1;
      assert (r + s)[..|r + s| - 1] == r + s[..n] && (r + s)[|r + s| - 1] == s[n];
      RunAppends(b, r, s[..n], max);
    }
  }

  /** Reading and forwarding `m` bytes through one reader. */
  function FillRun(reader: nat, m: nat): seq<Event> {
    if m == 0 then []
    else
      var k := Min(m, CHUNK);
      FillRun(reader, m - k) + [Read(reader, k), Forward(reader, true)]
  }

  function Filled(readers: nat, m: nat): Budget {
    Start(readers).(counter := m, forwarded := m, total := m)
  }

  lemma TwoSteps(b: Budget, x: Event, y: Event, max: nat)
    ensures Run(b, [x, y], max) == Step(Step(b, x, max), y, max)
  {
    assert [x, y][..1] == [x] && [x][..0] == [];
    assert Run(b, [x], max) == Step(b, x, max);
  }

  /** One chunk counted within the limit and forwarded. */
  lemma PassChunk(b: Budget, reader: nat, k: nat, max: nat)
    requires reader < |b.readers| && b.readers[reader].Reading? && 1 <= k <= CHUNK && !b.cancelled
    requires SaturatingAdd(b.counter, k) <= max
    ensures Run(b, [Read(reader, k), Forward(reader, true)], max) ==
            b.(counter := (b.counter + k) % (U64_MAX + 1), forwarded := b.forwarded + k, total := b.total + k)
  {
    TwoSteps(b, Read(reader, k), Forward(reader, true), max);
    assert b.readers[reader := Holding(k)][reader := Reading] == b.readers;
  }

  /** The chunk that fills the budget from `m - k` to `m` bytes; the counter does not wrap. */
  lemma PassFills(readers: nat, reader: nat, m: nat, k: nat, max: nat)
    requires reader < readers && 1 <= k <= CHUNK && k <= m <= max <= U64_MAX
    ensures Run(Filled(readers, m - k), [Read(reader, k), Forward(reader, true)], max) == Filled(readers, m)
  {
    PassChunk(Filled(readers, m - k), reader, k, max);
    BelowModulus(m);
  }

  lemma BelowModulus(n: nat)
    requires n <= U64_MAX
    ensures n % (U64_MAX + 1) == n
  {
  }

  lemma {:induction false} FillRunFills(readers: nat, reader: nat, m: nat, max: nat)
    requires reader < readers && m <= max <= U64_MAX
    ensures Run(Start(readers), FillRun(reader, m), max) == Filled(readers, m)
    decreases m
  {
    if m > 0 {
      var k := Min(m, CHUNK);
      FillRunFills(readers, reader, m - k, max);
      RunAppends(Start(readers), FillRun(reader, m - k), [Read(reader, k), Forward(reader, true)], max);
      PassFills(readers, reader, m, k, max);
    }
  }

  /** The first `i` readers are over the limit, together by `t - max` bytes. */
  function Overshot(readers: nat, i: nat, max: nat, t: nat): Budget {
    Budget(t % (U64_MAX + 1), false, false, seq(readers, j => if j < i then Over else Reading), max, t)
  }

  /** Readers `i`, `i + 1`, ... each take one more chunk, `d` bytes in all. */
  function OverRun(i: nat, d: nat): seq<Event>
    decreases d
  {
    if d == 0 then []
    else
      var k := Min(d, CHUNK);
      [Read(i, k)] + OverRun(i + 1, d - k)
  }

  lemma OverOne(readers: nat, i: nat, k: nat, max: nat, t: nat)
    requires i < readers && 1 <= k <= CHUNK && max <= t <= U64_MAX && max < U64_MAX
    ensures Run(Overshot(readers, i, max, t), [Read(i, k)], max) == Overshot(readers, i + 1, max, t + k)
  {
    var b, next := Overshot(readers, i, max, t), Overshot(readers, i + 1, max, t + k);
    assert b.counter == t;
    assert b.readers[i := Over] == next.readers;
    assert [Read(i, k)][..0] == [];
  }

  lemma {:induction false} OverRunOvershoots(readers: nat, i: nat, d: nat, max: nat, t: nat) returns (n: nat)
    requires i < readers && d <= CHUNK * (readers - 1 - i)
    requires 0 < max <= t && max < U64_MAX && t + d == U64_MAX + 1
    ensures n < readers && Run(Overshot(readers, i, max, t), OverRun(i, d), max) == Overshot(readers, n, max, t + d)
    decreases d
  {
    if d == 0 {
      n := i;
    } else {
      var k := Min(d, CHUNK);
      OverOne(readers, i, k, max, t);
      RunAppends(Overshot(readers, i, max, t), [Read(i, k)], OverRun(i + 1, d - k), max);
      n := OverRunOvershoots(readers, i + 1, d - k, max, t + k);
    }
  }

  /** Once the counter has wrapped to zero, a reader still going forwards past the limit. */
  lemma WrappingRun(readers: nat, max: nat) returns (run: seq<Event>)
    requires 0 < max <= U64_MAX && !Roomy(readers, max)
    ensures Run(Start(readers), run, max).forwarded > max
  {
    var last := readers - 1;
    var extra := [Read(last, 1), Forward(last, true)];
    if max == U64_MAX {
      FillRunFills(readers, last, max, max);
      PassChunk(Filled(readers, max), last, 1, max);
      RunAppends(Start(readers), FillRun(last, max), extra, max);
      run := FillRun(last, max) + extra;
    } else {
      var n, fill := WrappedToZero(readers, max);
      PassChunk(Overshot(readers, n, max, U64_MAX + 1), last, 1, max);
      RunAppends(Start(readers), fill, extra, max);
      run := fill + extra;
    }
  }

  /** A run that takes the counter around to zero while the last reader has yet to overshoot. */
  lemma WrappedToZero(readers: nat, max: nat) returns (n: nat, run: seq<Event>)
    requires 0 < max < U64_MAX && !Roomy(readers, max)
    ensures n < readers && Run(Start(readers), run, max) == Overshot(readers, n, max, U64_MAX + 1)
  {
    var last, d := readers - 1, U64_MAX + 1 - max;
    FillRunFills(readers, last, max, max);
    FilledIsOvershot(readers, max);
    n := OverRunOvershoots(readers, 0, d, max, max);
    run := FillRun(last, max) + OverRun(0, d);
    RunAppends(Start(readers), FillRun(last, max), OverRun(0, d), max);
  }

  lemma FilledIsOvershot(readers: nat, max: nat)
    requires max <= U64_MAX
    ensures Filled(readers, max) == Overshot(readers, 0, max, max)
  {
    BelowModulus(max);
    assert Filled(readers, max).readers == Overshot(readers, 0, max, max).readers;
  }

  /** No run forwards more than the limit, exactly when the limit leaves room for one overshoot per other reader. */
  lemma ForwardedStaysWithinLimit(readers: nat, max: nat)
    requires max <= U64_MAX
    ensures Roomy(readers, max) <==> forall run :: Run(Start(readers), run, max).forwarded <= max
  {
    if Roomy(readers, max) {
      forall run ensures Run(Start(readers), run, max).forwarded <= max {
        if max == 0 {
          ZeroForwardsNothing(run, readers);
        } else {
          RunKeepsSound(run, readers, max);
        }
      }
    } else {
      var run := WrappingRun(readers, max);
    }
  }

  /** In roomy settings the counter never runs further ahead than a chunk per reader. */
  lemma CounterOvershoot(run: seq<Event>, readers: nat, max: nat)
    requires max > 0 && Roomy(readers, max)
    ensures Run(Start(readers), run, max).total <= max + CHUNK * readers
  {
    RunKeepsSound(run, readers, max);
    var b := Run(Start(readers), run, max);
    assert CHUNK * (readers - AllLive(b.readers)) <= CHUNK * readers;
  }

  // ------------------------------------------------------------------------ the flag

  predicate AnyOver(readers: seq<Phase>) {
    exists i :: 0 <= i < |readers| && readers[i].Over?
  }

  /** The limit was passed exactly when it has been flagged, or a reader is about to flag it. */
  predicate Flagged(b: Budget, max: nat) {
    && (b.exceeded || AnyOver(b.readers) <==> b.total > max)
    && (b.exceeded ==> b.cancelled)
  }

  lemma OverMoves(readers: seq<Phase>, i: nat, phase: Phase)
    requires i < |readers|
    ensures phase.Over? ==> AnyOver(readers[i := phase])
    ensures !phase.Over? && !readers[i].Over? ==> (AnyOver(readers[i := phase]) <==> AnyOver(readers))
    ensures AnyOver(readers[i := phase]) && !phase.Over? ==> AnyOver(readers)
  {
    var moved := readers[i := phase];
    if phase.Over? {
      assert moved[i].Over?;
    }
    if j :| 0 <= j < |readers| && readers[j].Over? && !readers[i].Over? {
      assert moved[j].Over?;
    }
    if j :| 0 <= j < |readers| && moved[j].Over? && !phase.Over? {
      assert readers[j].Over?;
    }
  }

  lemma StepKeepsFlagged(b: Budget, ev: Event, max: nat)
    requires Sound(b, max) && Flagged(b, max) && max > 0 && Roomy(|b.readers|, max)
    ensures Flagged(Step(b, ev, max), max)
  {
    if Enabled(b, ev) && !ev.Cancel? {
      var after := Step(b, ev, max);
      var phase := after.readers[ev.reader];
      assert after.readers == b.readers[ev.reader := phase];
      OverMoves(b.readers, ev.reader, phase);
      MoveCounts(b.readers, ev.reader, phase);
      if ev.Stop? {
        assert AnyOver(b.readers);
      }
    }
  }

  /** In roomy settings the flag and the cancellation tell the truth about the bytes read, in every run. */
  lemma {:induction false} ExceededTellsTheTruth(run: seq<Event>, readers: nat, max: nat)
    requires max > 0 && Roomy(readers, max)
    ensures Flagged(Run(Start(readers), run, max), max)
  {
    if run != [] {
      var front := run[..|run| - 1];
      ExceededTellsTheTruth(front, readers, max);
      RunKeepsSound(front, readers, max);
      StepKeepsFlagged(Run(Start(readers), front, max), run[|run| - 1], max);
    }
  }
}
