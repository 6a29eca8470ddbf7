/** The engine life cycle of engine/engine/src/engine.cpp: Step, StepFrame's effects
    on the life-cycle fields, Exit, Reboot, dmEngineUpdate and dmEngineGetResult.
    What happens inside one frame is an arbitrary sequence of events. */
module Engine {
  import opened Basics
  import FrameClock

  const MAX_RUN_RESULT_ARGS := 32
  const ARG_COUNT := 6

  datatype Action = NONE | EXIT | REBOOT

  datatype UpdateResult = RESULT_OK | RESULT_REBOOT | RESULT_EXIT

  /** What can happen inside a frame: the window is closed; ESC or a lost window ends
      the frame at once; the window is iconified or restored; system messages arrive. */
  datatype FrameEvent =
    | WindowClose
    | Quit
    | Iconify(now: int)
    | SetFrequency(frequency: nat)
    | ExitMessage(code: int)
    | RebootMessage(args: seq<Option<string>>)
    | Other

  predicate IsVerdict(e: FrameEvent) { e.ExitMessage? || e.RebootMessage? }
  predicate IsExit(e: FrameEvent) { e.ExitMessage? }
  predicate IsReboot(e: FrameEvent) { e.RebootMessage? }
  predicate IsIconify(e: FrameEvent) { e.Iconify? }
  predicate IsSetFrequency(e: FrameEvent) { e.SetFrequency? }
  predicate Stops(e: FrameEvent) { IsVerdict(e) || e.WindowClose? || e.Quit? }

  predicate WellFormed(e: FrameEvent) {
    && (e.RebootMessage? ==> |e.args| == ARG_COUNT)
    && (e.SetFrequency? ==> e.frequency < FrameClock.FREQUENCIES)
  }

  /** The events of a frame that take place: none after a Quit. */
  function TakePlace(events: seq<FrameEvent>): seq<FrameEvent> {
    if events == [] then []
    else if events[0].Quit? then [events[0]]
    else [events[0]] + TakePlace(events[1..])
  }

  lemma {:induction false} TakesPlaceUpTo(events: seq<FrameEvent>, n: nat)
    requires n <= |events| && forall i :: 0 <= i < n - 1 ==> !events[i].Quit?
    requires n < |events| ==> n > 0 && events[n - 1].Quit?
    ensures TakePlace(events) == events[..n]
  {
    if n > 1 {
      TakesPlaceUpTo(events[1..], n - 1);
      assert events[..n] == [events[0]] + events[1..][..n - 1];
    }
  }

  ghost function LastOf(events: seq<FrameEvent>, p: FrameEvent -> bool): (last: Option<FrameEvent>)
    ensures last.Some? ==> last.value in events && p(last.value)
  {
    if events == [] then None
    else if p(events[|events| - 1]) then Some(events[|events| - 1])
    else LastOf(events[..|events| - 1], p)
  }

  /** The longest prefix of present, non-empty arguments. */
  function NonEmptyPrefix(args: seq<Option<string>>): seq<string> {
    if args == [] || args[0].None? || args[0].value == "" then []
    else [args[0].value] + NonEmptyPrefix(args[1..])
  }

  /** The command line a reboot message asks for. */
  function RebootArgv(args: seq<Option<string>>): seq<string> {
    ["dmengine"] + NonEmptyPrefix(args)
  }

  function Present(argv: seq<string>): seq<Option<string>> {
    seq(|argv|, i requires 0 <= i < |argv| => Some(argv[i]))
  }

  function ResultOf(a: Action): UpdateResult {
    match a
    case REBOOT => RESULT_REBOOT
    case EXIT => RESULT_EXIT
    case NONE => RESULT_OK
  }

  ghost function ActionOf(verdict: Option<FrameEvent>, otherwise: Action): Action {
    if verdict.None? then otherwise else if verdict.value.ExitMessage? then EXIT else REBOOT
  }

  /** The life-cycle fields of an engine. */
  datatype State = State(
    clock: FrameClock.Clock, alive: bool, action: Action, exitCode: int,
    argc: int, argv: seq<Option<string>>)
  {
    ghost predicate Valid() {
      && |argv| == MAX_RUN_RESULT_ARGS && 0 <= argc <= ARG_COUNT + 1
      && (forall i :: 0 <= i < argc ==> argv[i].Some?)
      && clock.accum >= 0.0 && clock.frequency < FrameClock.FREQUENCIES
      && (action != NONE ==> !alive)
    }
  }

  /** What a sequence of events does to an engine, message kind by message kind: the
      last exit or reboot decides the action, the last exit the exit code, the last
      reboot the command line, and one stopping event ends its life. */
  ghost predicate Effect(s: State, events: seq<FrameEvent>, s': State) {
    var reboot, exit := LastOf(events, IsReboot), LastOf(events, IsExit);
    var icon, freq := LastOf(events, IsIconify), LastOf(events, IsSetFrequency);
    && s'.alive == (s.alive && !StoppedIn(events))
    && s'.action == ActionOf(LastOf(events, IsVerdict), s.action)
    && s'.exitCode == (if exit.Some? then exit.value.code else s.exitCode)
    && s'.clock.accum == s.clock.accum
    && s'.clock.previous == (if icon.Some? then icon.value.now else s.clock.previous)
    && s'.clock.frequency == (if freq.Some? then freq.value.frequency else s.clock.frequency)
    && |s'.argv| == |s.argv|
    && if reboot.None? then s'.argc == s.argc && s'.argv == s.argv
       else
         var argv := RebootArgv(reboot.value.args);
         s'.argc == |argv| && s'.argc <= |s'.argv| && s'.argv[..s'.argc] == Present(argv)
  }

  ghost predicate StoppedIn(frame: seq<FrameEvent>) {
    exists e :: e in frame && Stops(e)
  }

  /** Frames run until `n` have run, or fewer if the last one stopped the engine. */
  ghost predicate FramesRun(n: nat, frames: seq<seq<FrameEvent>>) {
    && |frames| <= n
    && (forall i :: 0 <= i < |frames| - 1 ==> !StoppedIn(frames[i]))
    && (|frames| < n ==> |frames| > 0 && StoppedIn(frames[|frames| - 1]))
  }

  /** The frames are those of the script, as far as they take place. */
  ghost predicate Ran(script: nat -> seq<FrameEvent>, frames: seq<seq<FrameEvent>>) {
    forall i :: 0 <= i < |frames| ==> frames[i] == TakePlace(script(i))
  }

  ghost predicate NoneStopped(frames: seq<seq<FrameEvent>>) {
    forall i :: 0 <= i < |frames| ==> !StoppedIn(frames[i])
  }

  lemma {:induction false} NextFrame(script: nat -> seq<FrameEvent>, frames: seq<seq<FrameEvent>>, frame: seq<FrameEvent>)
    requires Ran(script, frames) && NoneStopped(frames) && frame == TakePlace(script(|frames|))
    ensures Ran(script, frames + [frame])
    ensures if StoppedIn(frame) then forall n :: n > |frames| ==> FramesRun(n, frames + [frame]) else NoneStopped(frames + [frame])
  {
  }

  lemma {:induction false} AllFrames(n: nat, frames: seq<seq<FrameEvent>>)
    requires NoneStopped(frames) && |frames| == n
    ensures FramesRun(n, frames)
  {
  }

  /** One tick of an engine that is alive: the clock's ticks, then the frames that run
      until the step count is reached or an event stops the engine. */
  ghost predicate Stepped(s: State, now: int, frames: seq<seq<FrameEvent>>, s': State) {
    exists c, dt, n: nat ::
      && FrameClock.Ticks(s.clock, now, c, dt, n)
      && FramesRun(n, frames)
      && Effect(s.(clock := c, alive := true, action := NONE, exitCode := 0), Flatten(frames), s')
  }

  /** One call of dmEngineUpdate: the frames it ran, each by the events that took place. */
  ghost predicate Updates(s: State, now: int, frames: seq<seq<FrameEvent>>, s': State, r: UpdateResult) {
    if s.alive then
      Stepped(s, now, frames, s') && r == ResultOf(s'.action)
    else
      frames == [] && s' == s && r == (if s.action == NONE then RESULT_EXIT else ResultOf(s.action))
  }

  // ---- composing effects

  lemma {:induction false} LastOfConcat(a: seq<FrameEvent>, b: seq<FrameEvent>, p: FrameEvent -> bool)
    ensures LastOf(a + b, p) == if LastOf(b, p).Some? then LastOf(b, p) else LastOf(a, p)
  {
    if b == [] {
      assert a + b == a;
    } else {
      assert (a + b)[..|a + b| - 1] == a + b[..|b| - 1];
      LastOfConcat(a, b[..|b| - 1], p);
    }
  }

  lemma {:induction false} LastOfNone(events: seq<FrameEvent>, p: FrameEvent -> bool)
    ensures LastOf(events, p).None? <==> forall e :: e in events ==> !p(e)
  {
    if events != [] {
      var front := events[..|events| - 1];
      assert events == front + [events[|events| - 1]];
      LastOfNone(front, p);
    }
  }

  lemma {:induction false} EffectsCompose(s: State, a: seq<FrameEvent>, m: State, b: seq<FrameEvent>, t: State)
    requires Effect(s, a, m) && Effect(m, b, t)
    ensures Effect(s, a + b, t)
  {
    LastOfConcat(a, b, IsReboot);
    LastOfConcat(a, b, IsExit);
    LastOfConcat(a, b, IsIconify);
    LastOfConcat(a, b, IsSetFrequency);
    LastOfConcat(a, b, IsVerdict);
  }

  lemma {:induction false} NonEmptyPrefixIsPrefix(args: seq<Option<string>>)
    ensures |NonEmptyPrefix(args)| <= |args|
    ensures forall i :: 0 <= i < |NonEmptyPrefix(args)| ==> args[i] == Some(NonEmptyPrefix(args)[i])
  {
    if args != [] {
      NonEmptyPrefixIsPrefix(args[1..]);
    }
  }

  lemma {:induction false} NonEmptyPrefixLength(args: seq<Option<string>>, n: nat)
    requires n <= |args| && forall i :: 0 <= i < n ==> args[i].Some? && args[i].value != ""
    requires n == |args| || args[n].None? || args[n].value == ""
    ensures |NonEmptyPrefix(args)| == n
  {
    if n > 0 {
      NonEmptyPrefixLength(args[1..], n - 1);
    }
  }

  /** The command line of a reboot, entry by entry: "dmengine", then the arguments up to the
      first that is missing or empty. */
  lemma {:induction false} RebootArgvShape(args: seq<Option<string>>)
    ensures var argv := RebootArgv(args);
            var n := |argv| - 1;
            && n >= 0 && n <= |args| && argv[0] == "dmengine"
            && (forall i :: 0 <= i < n ==> args[i] == Some(argv[i + 1]) && argv[i + 1] != "")
            && (n < |args| ==> args[n] == None || args[n] == Some(""))
  {
    PrefixStops(args);
  }

  lemma {:induction false} PrefixStops(args: seq<Option<string>>)
    ensures var p := NonEmptyPrefix(args);
            && |p| <= |args| && (forall i :: 0 <= i < |p| ==> args[i] == Some(p[i]) && p[i] != "")
            && (|p| < |args| ==> args[|p|] == None || args[|p|] == Some(""))
  {
    if args != [] && args[0].Some? && args[0].value != "" {
      PrefixStops(args[1..]);
    }
  }

  /** No event can make a valid life-cycle state invalid: in particular a decided
      action always goes with a dead engine, and every argument is there. */
  lemma {:induction false} EffectKeepsValid(s: State, events: seq<FrameEvent>, s': State)
    requires s.Valid() && Effect(s, events, s') && forall e :: e in events ==> WellFormed(e)
    ensures s'.Valid()
  {
    LastOfNone(events, IsVerdict);
    LastOfNone(events, IsReboot);
    LastOfNone(events, IsSetFrequency);
    var reboot := LastOf(events, IsReboot);
    if reboot.Some? {
      NonEmptyPrefixIsPrefix(reboot.value.args);
      forall i | 0 <= i < s'.argc
        ensures s'.argv[i].Some?
      {
        assert s'.argv[i] == s'.argv[..s'.argc][i];
      }
    }
  }

  class EngineObject {
    var previousFrameTime: int
    var accumFrameTime: real
    var updateFrequency: nat
    var alive: bool
    var action: Action
    var exitCode: int
    var argc: int
    const argv: array<Option<string>>

    constructor (now: int, frequency: nat)
      requires frequency < FrameClock.FREQUENCIES
      ensures Valid() && alive && action == NONE && argc == 0 && fresh(argv)
      ensures Clock() == FrameClock.Clock(now, 0.0, frequency)
    {
      previousFrameTime, accumFrameTime, updateFrequency := now, 0.0, frequency;
      alive, action, exitCode, argc := true, NONE, 0, 0;
      argv := new Option<string>[MAX_RUN_RESULT_ARGS](_ => None);
    }

    ghost function Clock(): FrameClock.Clock
      reads this
    {
      FrameClock.Clock(previousFrameTime, accumFrameTime, updateFrequency)
    }

    ghost function St(): State
      reads this, argv
    {
      State(Clock(), alive, action, exitCode, argc, argv[..])
    }

    ghost predicate Valid()
      reads this, argv
    {
      St().Valid()
    }

    method CalcTimeStep(now: int) returns (stepDt: real, numSteps: nat)
      requires accumFrameTime >= 0.0
      modifies this`previousFrameTime, this`accumFrameTime
      ensures FrameClock.Ticks(old(Clock()), now, Clock(), stepDt, numSteps)
      ensures accumFrameTime >= 0.0
    {
      var frameTime := FrameClock.Elapsed(previousFrameTime, now);
      previousFrameTime := now;
      var frameDt := FrameClock.Seconds(frameTime);
      if frameDt > FrameClock.LONGEST_FRAME {
        frameDt := FrameClock.LONGEST_FRAME;
      }
      if updateFrequency == 0 {
        return frameDt, 1;
      }
      var fixedDt := 1.0 / updateFrequency as real;
      FrameClock.PeriodFacts(updateFrequency);
      if fixedDt < frameDt {
        fixedDt := frameDt;
      }
      accumFrameTime := accumFrameTime + frameDt;
      numSteps := FloorDiv(accumFrameTime, fixedDt);
      stepDt := fixedDt;
      FrameClock.StepsIsProduct(numSteps, fixedDt);
      accumFrameTime := accumFrameTime - numSteps as real * fixedDt;
    }

    /** (uint32_t)(a / d): truncation of a non-negative quotient. */
    static method FloorDiv(a: real, d: real) returns (n: nat)
      requires 0.0 <= a && 0.0 < d
      ensures 0.0 <= a - FrameClock.Steps(n, d) < d
    {
      FrameClock.FloorDivides(a, d);
      n := (a / d).Floor;
    }

    method Exit(code: int)
      modifies this`alive, this`exitCode, this`action
      ensures Effect(old(St()), [ExitMessage(code)], St())
    {
      alive := false;
      exitCode := code;
      action := EXIT;
      assert ExitMessage(code) in [ExitMessage(code)];
    }

    /** Fills m_Argv from a reboot message and counts the arguments. */
    method FillArgv(args: seq<Option<string>>) returns (n: nat)
      requires argv.Length == MAX_RUN_RESULT_ARGS && |args| == ARG_COUNT
      modifies argv
      ensures n == |RebootArgv(args)| <= ARG_COUNT + 1 && argv[..n] == Present(RebootArgv(args))
    {
      n := 0;
      argv[n] := Some("dmengine");
      n := n + 1;
      for i := 0 to ARG_COUNT
        invariant n == i + 1
        invariant argv[0] == Some("dmengine")
        invariant forall j :: 0 <= j < i ==> args[j].Some? && args[j].value != "" && argv[j + 1] == args[j]
      {
        argv[i + 1] := args[i];
        if args[i].None? || args[i].value == "" {
          break;
        }
        n := n + 1;
      }
      NonEmptyPrefixLength(args, n - 1);
      NonEmptyPrefixIsPrefix(args);
    }

    method Reboot(args: seq<Option<string>>)
      requires Valid() && |args| == ARG_COUNT
      modifies this`argc, this`alive, this`action, argv
      ensures Effect(old(St()), [RebootMessage(args)], St())
    {
      argc := FillArgv(args);
      alive := false;
      action := REBOOT;
      assert argv[..][..argc] == argv[..argc];
      assert RebootMessage(args) in [RebootMessage(args)];
    }

    /** The handler of one event; Quit is handled in StepFrame. */
    method Handle(e: FrameEvent)
      requires Valid() && WellFormed(e)
      modifies this, argv
      ensures Valid() && Effect(old(St()), [e], St())
    {
      ghost var before := St();
      match e {
        case WindowClose => alive := false;
        case Quit => alive := false;
        case Iconify(now) => previousFrameTime := now;
        case SetFrequency(f) => updateFrequency := f;
        case ExitMessage(code) => Exit(code);
        case RebootMessage(args) => Reboot(args);
        case Other =>
      }
      assert e in [e];
      EffectKeepsValid(before, [e], St());
    }

    method HandleNext(events: seq<FrameEvent>, i: nat, ghost start: State)
      requires Valid() && i < |events| && WellFormed(events[i]) && Effect(start, events[..i], St())
      modifies this, argv
      ensures Valid() && Effect(start, events[..i + 1], St())
    {
      ghost var before := St();
      Handle(events[i]);
      EffectsCompose(start, events[..i], before, [events[i]], St());
      assert events[..i] + [events[i]] == events[..i + 1];
    }

    method StepFrame(events: seq<FrameEvent>)
      requires Valid() && forall e :: e in events ==> WellFormed(e)
      modifies this, argv
      ensures Valid() && Effect(old(St()), TakePlace(events), St())
    {
      ghost var start := St();
      var i := 0;
      while i < |events|
        invariant 0 <= i <= |events| && Valid()
        invariant forall j :: 0 <= j < i ==> !events[j].Quit?
        invariant Effect(start, events[..i], St())
      {
        HandleNext(events, i, start);
        if events[i].Quit? {
          TakesPlaceUpTo(events, i + 1);
          return;
        }
        i := i + 1;
      }
      TakesPlaceUpTo(events, i);
    }

    /** Frame number |frames|. */
    method StepNextFrame(script: nat -> seq<FrameEvent>, i: nat, ghost start: State, ghost frames: seq<seq<FrameEvent>>)
      returns (ghost more: seq<seq<FrameEvent>>)
      requires Valid() && alive && (forall k, e :: e in script(k) ==> WellFormed(e)) && i == |frames|
      requires Effect(start, Flatten(frames), St()) && Ran(script, frames) && NoneStopped(frames)
      modifies this, argv
      ensures Valid() && Effect(start, Flatten(more), St()) && Ran(script, more) && |more| == i + 1
      ensures if alive then NoneStopped(more) else forall n :: n > i ==> FramesRun(n, more)
    {
      ghost var before := St();
      ghost var frame := TakePlace(script(i));
      StepFrame(script(i));
      EffectsCompose(start, Flatten(frames), before, frame, St());
      FlattenSnoc(frames, frame);
      more := frames + [frame];
      NextFrame(script, frames, frame);
    }

    /** Runs frames until `numSteps` have run or one of them stops the engine. */
    method RunFrames(numSteps: nat, script: nat -> seq<FrameEvent>) returns (ghost frames: seq<seq<FrameEvent>>)
      requires Valid() && alive && forall i, e :: e in script(i) ==> WellFormed(e)
      modifies this, argv
      ensures Valid() && Effect(old(St()), Flatten(frames), St())
      ensures FramesRun(numSteps, frames) && Ran(script, frames)
    {
      ghost var start := St();
      frames := [];
      var i := 0;
      while i < numSteps
        invariant 0 <= i <= numSteps && Valid() && alive && |frames| == i
        invariant Ran(script, frames) && NoneStopped(frames) && Effect(start, Flatten(frames), St())
      {
        frames := StepNextFrame(script, i, start, frames);
        if !alive {
          return;
        }
        i := i + 1;
      }
      AllFrames(numSteps, frames);
    }

    method Step(now: int, script: nat -> seq<FrameEvent>) returns (ghost frames: seq<seq<FrameEvent>>)
      requires Valid() && forall i, e :: e in script(i) ==> WellFormed(e)
      modifies this, argv
      ensures Valid() && Stepped(old(St()), now, frames, St())
      ensures Ran(script, frames)
    {
      alive, exitCode, action := true, 0, NONE;
      var stepDt, numSteps := CalcTimeStep(now);
      assert St() == old(St()).(clock := Clock(), alive := true, action := NONE, exitCode := 0);
      frames := RunFrames(numSteps, script);
    }

    method Update(now: int, script: nat -> seq<FrameEvent>)
      returns (r: UpdateResult, ghost frames: seq<seq<FrameEvent>>)
      requires Valid() && forall i, e :: e in script(i) ==> WellFormed(e)
      modifies this, argv
      ensures Valid() && Updates(old(St()), now, frames, St(), r)
      ensures Ran(script, frames)
    {
      frames := [];
      if alive {
        frames := Step(now, script);
      } else {
        if action == NONE {
          return RESULT_EXIT, frames;
        }
      }
      r := ResultOf(action);
    }

    method GetResult() returns (runAction: UpdateResult, code: int, count: int, args: array<string>)
      requires Valid()
      ensures runAction == ResultOf(action) && code == exitCode && count == argc
      ensures fresh(args) && Present(args[..]) == argv[..argc]
    {
      runAction := ResultOf(action);
      code := exitCode;
      count := argc;
      args := new string[argc];
      for i := 0 to argc
        invariant forall j :: 0 <= j < i ==> argv[j] == Some(args[j])
      {
        args[i] := argv[i].value;
      }
    }
  }

  // ---- whole runs of updates

  /** One call of dmEngineUpdate in a run. */
  datatype Call = Call(before: State, now: int, frames: seq<seq<FrameEvent>>, after: State, result: UpdateResult)

  ghost predicate Happened(c: Call) {
    && Updates(c.before, c.now, c.frames, c.after, c.result)
    && forall f, e :: f in c.frames && e in f ==> WellFormed(e)
  }

  ghost predicate IsRun(calls: seq<Call>) {
    && (forall i :: 0 <= i < |calls| ==> Happened(calls[i]))
    && (forall i :: 0 < i < |calls| ==> calls[i].before == calls[i - 1].after)
    && (calls != [] ==> calls[0].before.Valid())
  }

  lemma {:induction false} FlattenElements(frames: seq<seq<FrameEvent>>, e: FrameEvent)
    ensures e in Flatten(frames) <==> exists i :: 0 <= i < |frames| && e in frames[i]
  {
    if frames != [] {
      FlattenElements(frames[1..], e);
      if e in Flatten(frames) && e !in frames[0] {
        var i :| 0 <= i < |frames[1..]| && e in frames[1..][i];
        assert e in frames[i + 1];
      }
      if i :| 0 <= i < |frames| && e in frames[i] {
        if i > 0 {
          assert e in frames[1..][i - 1];
        }
      }
    }
  }

  lemma {:induction false} CallKeepsValid(c: Call)
    requires Happened(c) && c.before.Valid()
    ensures c.after.Valid()
  {
    if c.before.alive {
      var c', dt, n: nat :| FrameClock.Ticks(c.before.clock, c.now, c', dt, n)
        && Effect(c.before.(clock := c', alive := true, action := NONE, exitCode := 0), Flatten(c.frames), c.after);
      forall e | e in Flatten(c.frames)
        ensures WellFormed(e)
      {
        FlattenElements(c.frames, e);
      }
      EffectKeepsValid(c.before.(clock := c', alive := true, action := NONE, exitCode := 0), Flatten(c.frames), c.after);
    }
  }

  /** In every reachable state, a decided action goes with a dead engine and the
      argument list is complete and within its bound. */
  lemma {:induction false} ReachableStatesValid(calls: seq<Call>)
    requires IsRun(calls) && calls != []
    ensures calls[|calls| - 1].before.Valid() && calls[|calls| - 1].after.Valid()
  {
    var last := calls[|calls| - 1];
    if |calls| > 1 {
      var front := calls[..|calls| - 1];
      ReachableStatesValid(front);
    }
    CallKeepsValid(last);
  }

  /** A call in which an exit or reboot message takes place returns non-zero at once,
      as the last such message asks; a call in which none does returns OK. */
  lemma {:induction false} LastMessageWins(c: Call)
    requires Happened(c) && c.before.alive
    ensures var verdict := LastOf(Flatten(c.frames), IsVerdict);
            c.result == if verdict.None? then RESULT_OK
                        else if verdict.value.ExitMessage? then RESULT_EXIT else RESULT_REBOOT
    ensures var exit := LastOf(Flatten(c.frames), IsExit);
            c.after.exitCode == if exit.Some? then exit.value.code else 0
  {
  }

  /** The command line handed to the next create is that of the last reboot message,
      however many came before it and whatever exits came between. */
  lemma {:induction false} RebootArguments(c: Call)
    requires Happened(c) && c.before.alive && c.before.Valid() && c.result == RESULT_REBOOT
    ensures var reboot := LastOf(Flatten(c.frames), IsReboot);
            && reboot.Some?
            && c.after.argc == |RebootArgv(reboot.value.args)| <= MAX_RUN_RESULT_ARGS
            && c.after.argv[..c.after.argc] == Present(RebootArgv(reboot.value.args))
  {
    LastOfNone(Flatten(c.frames), IsVerdict);
    LastOfNone(Flatten(c.frames), IsReboot);
    CallKeepsValid(c);
  }

  /** A window close (or ESC) with no message: this call still returns OK, the next
      one runs no frame and returns EXIT with code 0. */
  lemma {:induction false} WindowCloseExitsNextCall(c: Call, next: Call, e: FrameEvent)
    requires Happened(c) && Happened(next) && next.before == c.after && c.before.alive
    requires e in Flatten(c.frames) && (e.WindowClose? || e.Quit?)
    requires forall x :: x in Flatten(c.frames) ==> !IsVerdict(x)
    ensures c.result == RESULT_OK
    ensures next.result == RESULT_EXIT && next.frames == [] && next.after == c.after && next.after.exitCode == 0
  {
    LastMessageWins(c);
    LastOfNone(Flatten(c.frames), IsVerdict);
    LastOfNone(Flatten(c.frames), IsExit);
    assert Stops(e);
  }

  /** Frames stop with the engine: an event that stops it can only lie in the last
      frame of its call. */
  lemma {:induction false} NoFrameAfterStop(c: Call, i: nat, e: FrameEvent)
    requires Happened(c) && i < |c.frames| && e in c.frames[i] && Stops(e)
    ensures i == |c.frames| - 1 && !c.after.alive
  {
    FlattenElements(c.frames, e);
  }

  /** Once dead, an engine stays as it is: no later call of the run steps a frame or
      changes the state, and all of them return the same non-zero result. */
  lemma {:induction false} DeadStaysDead(calls: seq<Call>)
    requires IsRun(calls) && calls != [] && !calls[0].before.alive
    ensures forall i :: 0 <= i < |calls| ==>
              calls[i].frames == [] && calls[i].after == calls[0].before
              && calls[i].result == calls[0].result != RESULT_OK
  {
    if |calls| > 1 {
      var front := calls[..|calls| - 1];
      DeadStaysDead(front);
      var last := calls[|calls| - 1];
      assert last.before == front[|front| - 1].after;
      assert Happened(last) && Happened(calls[0]);
    } else {
      assert Happened(calls[0]);
    }
  }

  /** A call returns OK exactly when it ran on a live engine and no exit or reboot
      message took place; after any other result the engine is dead. */
  lemma {:induction false} OkExactlyWhen(c: Call)
    requires Happened(c) && c.before.Valid()
    ensures c.result == RESULT_OK <==> c.before.alive && LastOf(Flatten(c.frames), IsVerdict).None?
    ensures c.result != RESULT_OK ==> !c.after.alive
  {
    CallKeepsValid(c);
    if c.before.alive {
      LastMessageWins(c);
    }
  }

  /** Event i is the last of its kind. */
  ghost predicate IsLastOf(events: seq<FrameEvent>, i: int, kind: FrameEvent -> bool) {
    0 <= i < |events| && kind(events[i]) && forall j :: i < j < |events| ==> !kind(events[j])
  }

  lemma {:induction false} LastOfIs(events: seq<FrameEvent>, i: int, kind: FrameEvent -> bool)
    requires IsLastOf(events, i, kind)
    ensures LastOf(events, kind) == Some(events[i])
  {
    if i < |events| - 1 {
      LastOfIs(events[..|events| - 1], i, kind);
    }
  }

  /** The clock after a call: started again at the last iconify event, else at the reading of
      the tick; at the frequency of the last message that sets one, else as before. */
  lemma {:induction false} ClockAfterCall(c: Call, i: int)
    requires Happened(c) && c.before.alive
    ensures var events := Flatten(c.frames);
            && (IsLastOf(events, i, IsIconify) ==> c.after.clock.previous == events[i].now)
            && ((forall e :: e in events ==> !e.Iconify?) ==> c.after.clock.previous == c.now)
            && (IsLastOf(events, i, IsSetFrequency) ==> c.after.clock.frequency == events[i].frequency)
            && ((forall e :: e in events ==> !e.SetFrequency?) ==> c.after.clock.frequency == c.before.clock.frequency)
  {
    var events := Flatten(c.frames);
    if IsLastOf(events, i, IsIconify) {
      LastOfIs(events, i, IsIconify);
    }
    if IsLastOf(events, i, IsSetFrequency) {
      LastOfIs(events, i, IsSetFrequency);
    }
    LastOfNone(events, IsIconify);
    LastOfNone(events, IsSetFrequency);
  }

  // ---- engine runs are clock runs

  /** The clock entry of a tick that is known to have happened. */
  lemma {:induction false} TickEntry(c: Call) returns (e: FrameClock.Entry)
    requires Happened(c) && c.before.alive
    ensures e.event == FrameClock.Tick(c.now) && e.before == c.before.clock && FrameClock.Occurs(e)
    ensures |c.frames| <= e.numSteps
    ensures Effect(c.before.(clock := e.after, alive := true, action := NONE, exitCode := 0), Flatten(c.frames), c.after)
  {
    var c', dt, n: nat :| FrameClock.Ticks(c.before.clock, c.now, c', dt, n) && FramesRun(n, c.frames)
      && Effect(c.before.(clock := c', alive := true, action := NONE, exitCode := 0), Flatten(c.frames), c.after);
    e := FrameClock.Entry(FrameClock.Tick(c.now), c.before.clock, c', dt, n);
  }

  /** A call that leaves the engine alive runs all the frames its tick hands out; at a
      variable rate every call on a live engine runs exactly one. */
  lemma {:induction false} AllFramesRun(c: Call) returns (e: FrameClock.Entry)
    requires Happened(c) && c.before.alive
    ensures e.event == FrameClock.Tick(c.now) && e.before == c.before.clock && FrameClock.Occurs(e)
    ensures c.after.alive ==> |c.frames| == e.numSteps
    ensures c.before.clock.frequency == 0 ==> |c.frames| == 1
  {
    var c', dt, n: nat :| FrameClock.Ticks(c.before.clock, c.now, c', dt, n) && FramesRun(n, c.frames)
      && Effect(c.before.(clock := c', alive := true, action := NONE, exitCode := 0), Flatten(c.frames), c.after);
    e := FrameClock.Entry(FrameClock.Tick(c.now), c.before.clock, c', dt, n);
    if |c.frames| < n {
      var f := |c.frames| - 1;
      assert StoppedIn(c.frames[f]);
      var x :| x in c.frames[f] && Stops(x);
      FlattenElements(c.frames, x);
    }
  }

  ghost predicate KeepsFrequency(c: Call) {
    LastOf(Flatten(c.frames), IsSetFrequency).None?
  }

  ghost predicate AllAt(run: seq<FrameClock.Entry>, f: nat) {
    forall i :: 0 <= i < |run| ==> run[i].before.frequency == f
  }

  lemma {:induction false} FrequencyIsWellFormed(c: Call, e: FrameEvent)
    requires Happened(c) && e in Flatten(c.frames)
    ensures WellFormed(e)
  {
    FlattenElements(c.frames, e);
  }

  /** One update extends a clock run by a tick, its last iconify reading and its last
      frequency message. */
  lemma {:induction false} CallExtendsClockRun(start: FrameClock.Clock, run: seq<FrameClock.Entry>, c: Call)
    returns (run': seq<FrameClock.Entry>)
    requires Happened(c) && FrameClock.IsRun(start, run) && FrameClock.Last(start, run) == c.before.clock
    ensures FrameClock.IsRun(start, run') && FrameClock.Last(start, run') == c.after.clock
    ensures KeepsFrequency(c) ==> c.after.clock.frequency == c.before.clock.frequency
    ensures KeepsFrequency(c) && AllAt(run, c.before.clock.frequency) ==> AllAt(run', c.before.clock.frequency)
  {
    run' := run;
    if c.before.alive {
      var e := TickEntry(c);
      FrameClock.RunSnoc(start, run', e);
      run' := run' + [e];
      var clock := e.after;
      var icon, freq := LastOf(Flatten(c.frames), IsIconify), LastOf(Flatten(c.frames), IsSetFrequency);
      if icon.Some? {
        var clock' := clock.(previous := icon.value.now);
        var i := FrameClock.Entry(FrameClock.Iconify(icon.value.now), clock, clock', 0.0, 0);
        FrameClock.RunSnoc(start, run', i);
        run', clock := run' + [i], clock';
      }
      if freq.Some? {
        FrequencyIsWellFormed(c, freq.value);
        var clock' := clock.(frequency := freq.value.frequency);
        var f := FrameClock.Entry(FrameClock.SetFrequency(freq.value.frequency), clock, clock', 0.0, 0);
        FrameClock.RunSnoc(start, run', f);
        run' := run' + [f];
      }
    }
  }

  /** The clock fields of an engine go through a run of the frame clock, so every law
      of such runs is a law of the engine. */
  lemma {:induction false} EngineRunIsClockRun(start: FrameClock.Clock, calls: seq<Call>)
    returns (run: seq<FrameClock.Entry>)
    requires IsRun(calls) && start.accum == 0.0 && start.frequency < FrameClock.FREQUENCIES
    requires calls != [] ==> calls[0].before.clock == start
    ensures FrameClock.IsRun(start, run)
    ensures FrameClock.Last(start, run) == if calls == [] then start else calls[|calls| - 1].after.clock
    ensures (forall i :: 0 <= i < |calls| ==> KeepsFrequency(calls[i])) ==>
              AllAt(run, start.frequency) && FrameClock.Last(start, run).frequency == start.frequency
  {
    run := [];
    if calls != [] {
      var front, c := calls[..|calls| - 1], calls[|calls| - 1];
      run := EngineRunIsClockRun(start, front);
      assert Happened(c);
      run := CallExtendsClockRun(start, run, c);
    }
  }

  /** While no message changes the update frequency, no update runs more than one frame. */
  lemma {:induction false} OneFramePerUpdate(calls: seq<Call>)
    requires IsRun(calls) && calls != [] && calls[0].before.clock.accum == 0.0
    requires forall i :: 0 <= i < |calls| ==> KeepsFrequency(calls[i])
    ensures |calls[|calls| - 1].frames| <= 1
  {
    var start, c := calls[0].before.clock, calls[|calls| - 1];
    assert Happened(c);
    if c.before.alive {
      var run := EngineRunIsClockRun(start, calls[..|calls| - 1]);
      var e := TickEntry(c);
      FrameClock.RunSnoc(start, run, e);
      assert FrameClock.NeverRaised(run + [e]) by {
        assert AllAt(run + [e], start.frequency);
      }
      FrameClock.AtMostOneStepUnlessRaised(start, run + [e]);
      assert (run + [e])[|run|] == e;
    }
  }
}
