/** The frame clock of engine/engine/src/engine.cpp: how much game time one tick
    hands out, how much is left over, and what that adds up to over whole runs.
    Times are exact: readings are 64-bit microsecond counters, intervals are reals. */
module FrameClock {

  const READINGS: int := 0x1_0000_0000_0000_0000
  const FREQUENCIES: int := 0x1_0000_0000
  const LONGEST_FRAME: real := 0.5

  /** m_PreviousFrameTime, m_AccumFrameTime and m_UpdateFrequency. */
  datatype Clock = Clock(previous: int, accum: real, frequency: nat)

  function Seconds(micros: int): real {
    micros as real / 1000000.0
  }

  /** Unsigned 64-bit difference of two readings. */
  function Elapsed(previous: int, now: int): (t: int)
    ensures 0 <= t < READINGS
    ensures 0 <= previous <= now < READINGS ==> t == now - previous
  {
    (now - previous) % READINGS
  }

  function Min(a: real, b: real): real { if a <= b then a else b }
  function Max(a: real, b: real): real { if a <= b then b else a }

  /** The time one tick may use: the interval since the last reading, without hitches. */
  function Frame(previous: int, now: int): real {
    Min(Seconds(Elapsed(previous, now)), LONGEST_FRAME)
  }

  function Period(frequency: nat): real
    requires frequency > 0
  {
    1.0 / frequency as real
  }

  /** The game time of `n` steps of `dt` each. */
  ghost function Steps(n: nat, dt: real): real {
    if n == 0 then 0.0 else Steps(n - 1, dt) + dt
  }

  /** What a tick must do, by division with remainder: a variable-rate tick hands out
      the frame as one step; a fixed-rate tick hands out as many whole steps as the
      saved-up time holds and keeps the rest. */
  ghost predicate Ticks(c: Clock, now: int, c': Clock, stepDt: real, numSteps: nat) {
    var frame := Frame(c.previous, now);
    && c'.previous == now && c'.frequency == c.frequency
    && if c.frequency == 0 then
         stepDt == frame && numSteps == 1 && c'.accum == c.accum
       else
         && stepDt == Max(Period(c.frequency), frame)
         && Steps(numSteps, stepDt) + c'.accum == c.accum + frame
         && 0.0 <= c'.accum < stepDt
  }

  lemma {:induction false} ProductLess(a: real, b: real, c: real)
    requires a < b && 0.0 < c
    ensures a * c < b * c
  {
  }

  lemma {:induction false} ProductAtMost(a: real, b: real, c: real)
    requires a <= b && 0.0 <= c
    ensures a * c <= b * c
  {
  }

  lemma {:induction false} Regroup(a: real, b: real, c: real)
    ensures (a * b) * c == (a * c) * b
  {
  }

  lemma {:induction false} PeriodFacts(f: nat)
    requires f > 0
    ensures Period(f) > 0.0 && Period(f) * f as real == 1.0
  {
  }

  lemma {:induction false} PeriodAntitone(f: nat, g: nat)
    requires 0 < g <= f
    ensures Period(f) <= Period(g)
  {
    PeriodFacts(f);
    PeriodFacts(g);
    ShorterReciprocal(f as real, Period(f), g as real, Period(g));
  }

  lemma {:induction false} ShorterReciprocal(x: real, p: real, y: real, q: real)
    requires 0.0 < y <= x && p * x == 1.0 && q * y == 1.0 && p > 0.0 && q > 0.0
    ensures p <= q
  {
    if q < p {
      ProductLess(q, p, y);
      ProductAtMost(y, x, p);
    }
  }

  /** Counting steps is multiplying. */
  lemma {:induction false} StepsIsProduct(n: nat, dt: real)
    ensures Steps(n, dt) == n as real * dt
  {
    if n > 0 {
      StepsIsProduct(n - 1, dt);
      OneMore((n - 1) as real, dt);
    }
  }

  lemma {:induction false} OneMore(n: real, d: real)
    ensures (n + 1.0) * d == n * d + d
  {
  }

  lemma {:induction false} StepsMonotone(n: nat, m: nat, dt: real)
    requires n < m && 0.0 <= dt
    ensures Steps(n, dt) + dt <= Steps(m, dt)
  {
    if n + 1 < m {
      StepsMonotone(n, m - 1, dt);
    }
  }

  /** Truncating a / d leaves a remainder in [0, d). */
  lemma {:induction false} FloorDivides(a: real, d: real)
    requires 0.0 <= a && 0.0 < d
    ensures (a / d).Floor >= 0
    ensures 0.0 <= a - Steps((a / d).Floor, d) < d
  {
    assert a / d >= 0.0;
    var n := (a / d).Floor;
    QuotientBounds(a, d, a / d, n as real);
    StepsIsProduct(n, d);
  }

  lemma {:induction false} QuotientBounds(a: real, d: real, q: real, n: real)
    requires 0.0 < d && q * d == a && n <= q < n + 1.0
    ensures 0.0 <= a - n * d < d
  {
    var x := q - n;
    ProductAtMost(0.0, x, d);
    ProductLess(x, 1.0, d);
    assert a == n * d + x * d;
    assert x * d < d;
  }

  /** The specification of a tick leaves no freedom. */
  lemma {:induction false} TicksDeterministic(c: Clock, now: int, c1: Clock, dt1: real, n1: nat, c2: Clock, dt2: real, n2: nat)
    requires Ticks(c, now, c1, dt1, n1) && Ticks(c, now, c2, dt2, n2)
    ensures c1 == c2 && dt1 == dt2 && n1 == n2
  {
    if c.frequency > 0 {
      PeriodFacts(c.frequency);
      if n1 < n2 {
        StepsMonotone(n1, n2, dt1);
      } else if n2 < n1 {
        StepsMonotone(n2, n1, dt1);
      }
    }
  }

  /** Fixed or variable, a tick hands out or keeps all it takes in. */
  lemma {:induction false} TickConserves(c: Clock, now: int, c': Clock, stepDt: real, numSteps: nat)
    requires Ticks(c, now, c', stepDt, numSteps)
    ensures Steps(numSteps, stepDt) + c'.accum == c.accum + Frame(c.previous, now)
  {
    if c.frequency == 0 {
      assert Steps(1, stepDt) == Steps(0, stepDt) + stepDt;
    }
  }

  // ---- whole runs

  datatype Event = Tick(now: int) | SetFrequency(frequency: nat) | Iconify(now: int)

  /** One event of a run, the clock around it and, for a tick, what it handed out. */
  datatype Entry = Entry(event: Event, before: Clock, after: Clock, stepDt: real, numSteps: nat)

  ghost predicate Occurs(e: Entry) {
    match e.event
    case Tick(now) => Ticks(e.before, now, e.after, e.stepDt, e.numSteps)
    case SetFrequency(f) => f < FREQUENCIES && e.after == e.before.(frequency := f)
    case Iconify(now) => e.after == e.before.(previous := now)
  }

  function Last(start: Clock, run: seq<Entry>): Clock {
    if run == [] then start else run[|run| - 1].after
  }

  ghost predicate IsRun(start: Clock, run: seq<Entry>) {
    && start.accum == 0.0 && start.frequency < FREQUENCIES
    && forall i :: 0 <= i < |run| ==> run[i].before == Last(start, run[..i]) && Occurs(run[i])
  }

  predicate FixedTick(e: Entry) { e.event.Tick? && e.before.frequency > 0 }

  function Front(run: seq<Entry>): seq<Entry>
    requires run != []
  {
    run[..|run| - 1]
  }

  lemma {:induction false} RunFront(start: Clock, run: seq<Entry>)
    requires IsRun(start, run) && run != []
    ensures IsRun(start, Front(run))
    ensures run[|run| - 1].before == Last(start, Front(run)) && Occurs(run[|run| - 1])
  {
    forall i | 0 <= i < |Front(run)|
      ensures Front(run)[i].before == Last(start, Front(run)[..i]) && Occurs(Front(run)[i])
    {
      assert Front(run)[..i] == run[..i];
    }
  }

  lemma {:induction false} RunSnoc(start: Clock, run: seq<Entry>, e: Entry)
    requires IsRun(start, run) && e.before == Last(start, run) && Occurs(e)
    ensures IsRun(start, run + [e])
  {
    var r := run + [e];
    forall i | 0 <= i < |r|
      ensures r[i].before == Last(start, r[..i]) && Occurs(r[i])
    {
      assert r[..i] == run[..i];
      if i == |run| {
        assert run[..i] == run;
      }
    }
  }

  /** The longest period of a fixed-rate tick so far; 0 before the first one. */
  function LongestPeriod(run: seq<Entry>): (m: real)
    ensures m >= 0.0
  {
    if run == [] then 0.0
    else
      var e := run[|run| - 1];
      var m := LongestPeriod(Front(run));
      if FixedTick(e) then Max(m, Period(e.before.frequency)) else m
  }

  /** Game time handed out: numSteps steps of stepDt for each tick. */
  ghost function HandedOut(run: seq<Entry>): real {
    if run == [] then 0.0
    else
      var e := run[|run| - 1];
      HandedOut(Front(run)) + if e.event.Tick? then Steps(e.numSteps, e.stepDt) else 0.0
  }

  /** Frame time taken in: the sum of the clamped frames over the ticks. */
  function TakenIn(run: seq<Entry>): real {
    if run == [] then 0.0
    else
      var e := run[|run| - 1];
      TakenIn(Front(run)) + if e.event.Tick? then Frame(e.before.previous, e.event.now) else 0.0
  }

  /** Time dropped by clock resets: from the last reading to each iconify event. */
  function Stalled(run: seq<Entry>): real {
    if run == [] then 0.0
    else
      var e := run[|run| - 1];
      Stalled(Front(run)) + if e.event.Iconify? then Seconds(e.event.now - e.before.previous) else 0.0
  }

  /** The frequency in force at any moment is a 32-bit value. */
  lemma {:induction false} FrequencyFits(start: Clock, run: seq<Entry>)
    requires IsRun(start, run)
    ensures Last(start, run).frequency < FREQUENCIES
  {
    if run != [] {
      RunFront(start, run);
      FrequencyFits(start, Front(run));
    }
  }

  /** A count of steps that fits into less than m, each at least one period long. */
  lemma {:induction false} CountBound(k: real, d: real, a: real, m: real, f: real, p: real)
    requires 0.0 <= k && 0.0 < f && p * f == 1.0 && p <= d
    requires k * d <= a < m
    ensures k < f * m
  {
    ProductAtMost(p, d, k);
    ProductLess(k * p, m, f);
    Regroup(k, p, f);
    calc {
      k;
      (k * f) * p;
    }
  }

  /** One fixed-rate tick keeps the leftover below a bound that covers its own period. */
  lemma {:induction false} TickBound(c: Clock, now: int, c': Clock, stepDt: real, numSteps: nat, m: real)
    requires Ticks(c, now, c', stepDt, numSteps) && c.frequency > 0
    requires 0.0 <= c.accum < m && Period(c.frequency) <= m
    ensures c'.accum < m
  {
    if numSteps > 0 {
      PeriodFacts(c.frequency);
      StepsAtLeastOne(numSteps, stepDt);
    }
  }

  lemma {:induction false} StepsAtLeastOne(n: nat, dt: real)
    requires n > 0 && 0.0 <= dt
    ensures Steps(n, dt) >= dt
  {
    StepsMonotone(0, n, dt);
  }

  lemma {:induction false} TickSteps(c: Clock, now: int, c': Clock, stepDt: real, numSteps: nat, m: real)
    requires Ticks(c, now, c', stepDt, numSteps) && c.frequency > 0
    requires 0.0 <= c.accum < m
    ensures numSteps as real < 1.0 + c.frequency as real * m
  {
    PeriodFacts(c.frequency);
    if numSteps == 0 {
      ProductLess(0.0, m, c.frequency as real);
    } else {
      var k := numSteps - 1;
      StepsIsProduct(k, stepDt);
      assert Steps(numSteps, stepDt) == Steps(k, stepDt) + stepDt;
      assert k as real * stepDt <= c.accum;
      CountBound(k as real, stepDt, c.accum, m, c.frequency as real, Period(c.frequency));
    }
  }

  /** In every run, the leftover is never negative and stays below the longest fixed
      period used so far; before any fixed-rate tick it is zero. */
  lemma {:induction false} LeftoverBounded(start: Clock, run: seq<Entry>)
    requires IsRun(start, run)
    ensures var a, m := Last(start, run).accum, LongestPeriod(run);
            0.0 <= a && (m == 0.0 ==> a == 0.0) && (m > 0.0 ==> a < m)
  {
    if run != [] {
      RunFront(start, run);
      LeftoverBounded(start, Front(run));
      var e := run[|run| - 1];
      if FixedTick(e) {
        PeriodFacts(e.before.frequency);
        TickBound(e.before, e.event.now, e.after, e.stepDt, e.numSteps, LongestPeriod(run));
      }
    }
  }

  lemma {:induction false} LongestPeriodAtMostOne(run: seq<Entry>)
    ensures LongestPeriod(run) <= 1.0
  {
    if run != [] {
      LongestPeriodAtMostOne(Front(run));
      if FixedTick(run[|run| - 1]) {
        PeriodAntitone(run[|run| - 1].before.frequency, 1);
      }
    }
  }

  /** The step limit of a tick at frequency f once the longest period used is m. */
  ghost predicate WithinStepLimit(numSteps: nat, f: nat, m: real) {
    numSteps as real < 1.0 + f as real * m
  }

  lemma {:induction false} StepCountFits(n: nat, f: nat, m: real)
    requires n as real < 1.0 + f as real * m && m <= 1.0 && f < FREQUENCIES
    ensures n < FREQUENCIES
  {
    ProductAtMost(m, 1.0, f as real);
  }

  lemma {:induction false} LastTickSteps(e: Entry, m: real)
    requires Occurs(e) && FixedTick(e) && e.before.frequency < FREQUENCIES
    requires 0.0 <= e.before.accum < m <= 1.0
    ensures WithinStepLimit(e.numSteps, e.before.frequency, m)
    ensures e.numSteps < FREQUENCIES
  {
    TickSteps(e.before, e.event.now, e.after, e.stepDt, e.numSteps, m);
    StepCountFits(e.numSteps, e.before.frequency, m);
  }

  lemma {:induction false} LeftoverBeforeTick(start: Clock, run: seq<Entry>)
    requires IsRun(start, run) && run != [] && FixedTick(run[|run| - 1])
    ensures 0.0 <= run[|run| - 1].before.accum < LongestPeriod(run)
    ensures run[|run| - 1].before.frequency < FREQUENCIES
  {
    RunFront(start, run);
    LeftoverBounded(start, Front(run));
    FrequencyFits(start, Front(run));
    PeriodFacts(run[|run| - 1].before.frequency);
  }

  /** In every run, a fixed-rate tick hands out fewer than 1 + f * M steps, which is
      few enough for the 32-bit conversion of the step count to be exact. */
  lemma {:induction false} StepsBounded(start: Clock, run: seq<Entry>)
    requires IsRun(start, run) && run != [] && FixedTick(run[|run| - 1])
    ensures var e := run[|run| - 1];
            WithinStepLimit(e.numSteps, e.before.frequency, LongestPeriod(run))
            && e.numSteps < FREQUENCIES
  {
    LeftoverBeforeTick(start, run);
    LongestPeriodAtMostOne(run);
    LastTickSteps(run[|run| - 1], LongestPeriod(run));
  }

  /** Every fixed-rate tick's frequency is at most that of each fixed-rate tick before it. */
  ghost predicate NeverRaised(run: seq<Entry>) {
    forall i, j :: 0 <= i < j < |run| && FixedTick(run[i]) && FixedTick(run[j])
      ==> run[j].before.frequency <= run[i].before.frequency
  }

  lemma {:induction false} LongestIsLatest(run: seq<Entry>, f: nat)
    requires f > 0
    requires forall i :: 0 <= i < |run| && FixedTick(run[i]) ==> f <= run[i].before.frequency
    ensures LongestPeriod(run) <= Period(f)
  {
    PeriodFacts(f);
    if run != [] {
      LongestIsLatest(Front(run), f);
      if FixedTick(run[|run| - 1]) {
        PeriodAntitone(run[|run| - 1].before.frequency, f);
      }
    }
  }

  lemma {:induction false} LessThanTwoSteps(n: nat, f: nat, m: real)
    requires f > 0 && m <= Period(f) && WithinStepLimit(n, f, m)
    ensures n <= 1
  {
    PeriodFacts(f);
    ProductAtMost(m, Period(f), f as real);
  }

  /** As long as the frequency is never raised (in particular while it is constant),
      no tick runs more than one frame. */
  lemma {:induction false} AtMostOneStepUnlessRaised(start: Clock, run: seq<Entry>)
    requires IsRun(start, run) && run != [] && run[|run| - 1].event.Tick? && NeverRaised(run)
    ensures run[|run| - 1].numSteps <= 1
  {
    var e := run[|run| - 1];
    if FixedTick(e) {
      StepsBounded(start, run);
      LongestIsLatest(run, e.before.frequency);
      LessThanTwoSteps(e.numSteps, e.before.frequency, LongestPeriod(run));
    } else {
      RunFront(start, run);
    }
  }

  lemma {:induction false} AtMostOneIffLessThanTwo(n: nat, dt: real, r: real, a: real)
    requires 0.0 <= r < dt && Steps(n, dt) + r == a
    ensures n <= 1 <==> a < dt + dt
  {
    assert Steps(1, dt) == Steps(0, dt) + dt;
    if n >= 2 {
      StepsMonotone(1, n, dt);
    }
  }

  /** The comment in CalcTimeStep wants one frame per tick. A single tick meets it
      exactly when the leftover is shorter than the frame, or fits with the frame
      into less than two periods. */
  lemma {:induction false} AtMostOneStepIff(c: Clock, now: int, c': Clock, stepDt: real, numSteps: nat)
    requires Ticks(c, now, c', stepDt, numSteps) && c.frequency > 0 && 0.0 <= c.accum
    ensures var frame, p := Frame(c.previous, now), Period(c.frequency);
            numSteps <= 1 <==> c.accum < frame || c.accum + frame < p + p
  {
    AtMostOneIffLessThanTwo(numSteps, stepDt, c'.accum, c.accum + Frame(c.previous, now));
  }

  /** Raising the frequency from 2 to 100 after 0.4 s have been saved up: one tick
      with a 0.1 s frame hands out five frames. */
  lemma {:induction false} RaisingTheFrequencyBreaksIt(c: Clock)
    requires c == Clock(400000, 0.4, 100)
    ensures Ticks(c, 500000, Clock(500000, 0.0, 100), 0.1, 5)
    ensures Ticks(Clock(0, 0.0, 2), 400000, Clock(400000, 0.4, 2), 0.5, 0)
  {
    assert Frame(400000, 500000) == 0.1;
    assert Period(100) == 0.01;
    assert Frame(0, 400000) == 0.4;
    assert Period(2) == 0.5;
  }

  /** In every run mixing fixed and variable rate, time handed out plus time left
      over is the frame time taken in. */
  lemma {:induction false} TimeConserved(start: Clock, run: seq<Entry>)
    requires IsRun(start, run)
    ensures HandedOut(run) + Last(start, run).accum == TakenIn(run)
  {
    if run != [] {
      RunFront(start, run);
      TimeConserved(start, Front(run));
      var e := run[|run| - 1];
      if e.event.Tick? {
        TickConserves(e.before, e.event.now, e.after, e.stepDt, e.numSteps);
      }
    }
  }

  /** Readings that never go backwards. */
  ghost predicate Monotone(run: seq<Entry>) {
    forall i :: 0 <= i < |run| && !run[i].event.SetFrequency? ==>
      0 <= run[i].before.previous <= run[i].event.now < READINGS
  }

  ghost predicate HitchFree(run: seq<Entry>) {
    forall i :: 0 <= i < |run| && run[i].event.Tick? ==>
      Seconds(run[i].event.now - run[i].before.previous) <= LONGEST_FRAME
  }

  /** With a clock that never goes backwards, game time never overtakes real time less
      the intervals dropped by iconify events; without hitches it keeps exact step. */
  lemma {:induction false} GameTimeFollowsRealTime(start: Clock, run: seq<Entry>)
    requires IsRun(start, run) && Monotone(run)
    ensures var realTime := Seconds(Last(start, run).previous - start.previous) - Stalled(run);
            && HandedOut(run) + Last(start, run).accum <= realTime
            && (HitchFree(run) ==> HandedOut(run) + Last(start, run).accum == realTime)
  {
    if run != [] {
      RunFront(start, run);
      assert Monotone(Front(run));
      assert HitchFree(run) ==> HitchFree(Front(run));
      GameTimeFollowsRealTime(start, Front(run));
      var e := run[|run| - 1];
      if e.event.Tick? {
        TickConserves(e.before, e.event.now, e.after, e.stepDt, e.numSteps);
      }
    }
  }

  // ---- and how far behind it stays

  /** What an interval (in microseconds) exceeds half a second by. */
  function Excess(micros: int): int { if micros > 500000 then micros - 500000 else 0 }

  /** Microseconds lost to slow frames. */
  function Lost(run: seq<Entry>): int {
    if run == [] then 0
    else
      var e := run[|run| - 1];
      Lost(Front(run)) + if e.event.Tick? then Excess(e.event.now - e.before.previous) else 0
  }

  /** Microseconds dropped by clock resets. */
  function Dropped(run: seq<Entry>): int {
    if run == [] then 0
    else
      var e := run[|run| - 1];
      Dropped(Front(run)) + if e.event.Iconify? then e.event.now - e.before.previous else 0
  }

  lemma {:induction false} FrameInMicros(previous: int, now: int)
    requires 0 <= previous <= now < READINGS
    ensures Frame(previous, now) * 1000000.0 == (now - previous - Excess(now - previous)) as real
  {
  }

  lemma {:induction false} TakenInMicros(start: Clock, run: seq<Entry>)
    requires IsRun(start, run) && Monotone(run)
    ensures TakenIn(run) * 1000000.0 == (Last(start, run).previous - start.previous - Dropped(run) - Lost(run)) as real
  {
    if run != [] {
      RunFront(start, run);
      assert Monotone(Front(run));
      TakenInMicros(start, Front(run));
      var e := run[|run| - 1];
      if e.event.Tick? {
        FrameInMicros(e.before.previous, e.event.now);
      }
    }
  }

  /** With a clock that never goes backwards, time handed out plus time left over is,
      to the microsecond, real time less the intervals dropped by iconify events and less
      what each slow frame took beyond half a second. */
  lemma {:induction false} GameTimeExactly(start: Clock, run: seq<Entry>)
    requires IsRun(start, run) && Monotone(run)
    ensures (HandedOut(run) + Last(start, run).accum) * 1000000.0
         == (Last(start, run).previous - start.previous - Dropped(run) - Lost(run)) as real
  {
    TimeConserved(start, run);
    TakenInMicros(start, run);
  }
}
