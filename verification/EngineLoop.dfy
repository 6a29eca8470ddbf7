/** The run loop of engine/engine/src/engine_loop.cpp over the engines of
    engine/engine/src/engine.cpp: what a message inside a frame means for the next create
    and for the exit code of the process. */
module EngineLoop {
  import opened Basics
  import opened Engine
  import RunLoop

  /** Call k of engine i. */
  type Calls = (nat, nat) -> Call

  /** The loop gets as far as update k of engine i. */
  ghost predicate Reached(p: RunLoop.Params, i: nat, k: nat) {
    forall j: nat :: j < k ==> p.update(i, j) == RESULT_OK
  }

  /** What dmEngineGetResult gives on this state. */
  ghost predicate Reports(s: State, r: RunLoop.Report)
    requires s.Valid()
  {
    r.exitCode == s.exitCode && Present(r.argv) == s.argv[..s.argc]
  }

  /** Call k of engine i is a call of dmEngineUpdate on the state the call before left, the
      loop sees its result, and after the last call it sees the state's report. */
  ghost predicate IsCall(p: RunLoop.Params, calls: Calls, i: nat, k: nat) {
    var c := calls(i, k);
    && Happened(c) && c.before.Valid() && c.after.Valid() && p.update(i, k) == c.result
    && (if k == 0 then c.before.alive && c.before.action == NONE else c.before == calls(i, k - 1).after)
    && (c.result != RESULT_OK ==> Reports(c.after, p.report(i)))
  }

  /** The callbacks of the loop are those of engines. */
  ghost predicate RunsEngines(p: RunLoop.Params, calls: Calls) {
    forall i: nat, k: nat :: Reached(p, i, k) ==> IsCall(p, calls, i, k)
  }

  /** All events that take place in the first n calls of engine i. */
  ghost function EventsOf(calls: Calls, i: nat, n: nat): seq<FrameEvent> {
    if n == 0 then [] else EventsOf(calls, i, n - 1) + Flatten(calls(i, n - 1).frames)
  }

  /** The code of the last exit message; 0 without any. */
  ghost function ExitCodeOf(events: seq<FrameEvent>): int {
    if LastOf(events, IsExit).Some? then LastOf(events, IsExit).value.code else 0
  }

  /** What the last message asks for; without any, a window was closed. */
  ghost function VerdictOf(events: seq<FrameEvent>): UpdateResult {
    var last := LastOf(events, IsVerdict);
    if last.Some? && last.value.RebootMessage? then RESULT_REBOOT else RESULT_EXIT
  }

  lemma {:induction false} NoVerdictNoExit(events: seq<FrameEvent>)
    requires LastOf(events, IsVerdict).None?
    ensures LastOf(events, IsExit).None? && LastOf(events, IsReboot).None?
  {
    LastOfNone(events, IsVerdict);
    LastOfNone(events, IsExit);
    LastOfNone(events, IsReboot);
  }

  /** A call that returns OK ran on a live engine and saw no exit or reboot message. */
  lemma {:induction false} OkCall(c: Call)
    requires Happened(c) && c.before.Valid() && c.before.action == NONE && c.result == RESULT_OK
    ensures c.before.alive && c.after.action == NONE && c.after.exitCode == 0
    ensures LastOf(Flatten(c.frames), IsVerdict).None?
  {
    LastMessageWins(c);
    NoVerdictNoExit(Flatten(c.frames));
  }

  /** Before a call that the loop reaches nothing has been decided. */
  lemma {:induction false} ReachedUndecided(p: RunLoop.Params, calls: Calls, i: nat, k: nat)
    requires RunsEngines(p, calls) && Reached(p, i, k)
    ensures IsCall(p, calls, i, k) && calls(i, k).before.action == NONE
    ensures LastOf(EventsOf(calls, i, k), IsVerdict).None?
    ensures !calls(i, k).before.alive ==> calls(i, k).before.exitCode == 0
    decreases k
  {
    assert IsCall(p, calls, i, k);
    if k > 0 {
      ReachedUndecided(p, calls, i, k - 1);
      assert p.update(i, k - 1) == RESULT_OK;
      OkCall(calls(i, k - 1));
      LastOfConcat(EventsOf(calls, i, k - 1), Flatten(calls(i, k - 1).frames), IsVerdict);
    }
  }

  lemma {:induction false} PresentInjective(a: seq<string>, b: seq<string>)
    requires Present(a) == Present(b)
    ensures a == b
  {
    assert |a| == |Present(a)| == |b|;
    forall i | 0 <= i < |a|
      ensures a[i] == b[i]
    {
      assert Present(a)[i] == Some(a[i]) && Present(b)[i] == Some(b[i]);
    }
  }

  /** The last events are those of the last call, if that has any of the kind. */
  lemma {:induction false} LastOfSession(calls: Calls, i: nat, k: nat, kind: FrameEvent -> bool)
    ensures var last := LastOf(Flatten(calls(i, k).frames), kind);
            LastOf(EventsOf(calls, i, k + 1), kind) == if last.Some? then last else LastOf(EventsOf(calls, i, k), kind)
  {
    LastOfConcat(EventsOf(calls, i, k), Flatten(calls(i, k).frames), kind);
  }

  /** How the life of an engine ends: the loop sees what the last message of the whole life
      asks for, the code of its last exit message, and, for a reboot, the command line of
      its last reboot message. */
  lemma {:induction false} LifeEnds(p: RunLoop.Params, calls: Calls, i: nat, k: nat)
    requires RunsEngines(p, calls) && Reached(p, i, k) && p.update(i, k) != RESULT_OK
    ensures var events := EventsOf(calls, i, k + 1);
            && p.update(i, k) == VerdictOf(events) && p.report(i).exitCode == ExitCodeOf(events)
            && (p.update(i, k) == RESULT_REBOOT ==>
                  LastOf(events, IsReboot).Some? && p.report(i).argv == RebootArgv(LastOf(events, IsReboot).value.args))
  {
    ReachedUndecided(p, calls, i, k);
    NoVerdictNoExit(EventsOf(calls, i, k));
    var c := calls(i, k);
    LastOfSession(calls, i, k, IsVerdict);
    LastOfSession(calls, i, k, IsExit);
    LastOfSession(calls, i, k, IsReboot);
    if c.before.alive {
      LastMessageWins(c);
      if c.result == RESULT_REBOOT {
        RebootArguments(c);
        PresentInjective(p.report(i).argv, RebootArgv(LastOf(Flatten(c.frames), IsReboot).value.args));
      }
    }
  }

  // ---- whole runs of the loop

  /** The events of a session. */
  ghost function SessionEvents(calls: Calls, s: RunLoop.Session): seq<FrameEvent> {
    EventsOf(calls, s.id, s.oks + 1)
  }

  ghost function LastReboot(calls: Calls, s: RunLoop.Session): Option<FrameEvent> {
    LastOf(SessionEvents(calls, s), IsReboot)
  }

  lemma {:induction false} SessionReached(p: RunLoop.Params, sessions: seq<RunLoop.Session>, i: nat)
    requires RunLoop.Sessions(p, sessions) && i < |sessions|
    ensures sessions[i].id == i && Reached(p, i, sessions[i].oks) && p.update(i, sessions[i].oks) == sessions[i].verdict != RESULT_OK
  {
    assert RunLoop.IsSession(p, sessions, i);
  }

  /** After a session that ended in a reboot, the next create (whether it succeeds or not)
      gets "dmengine" and the longest prefix of non-empty arguments of the last reboot
      message of that session. */
  lemma {:induction false} CreateAfterReboot(p: RunLoop.Params, calls: Calls, sessions: seq<RunLoop.Session>)
    requires RunsEngines(p, calls) && RunLoop.Sessions(p, sessions) && sessions != [] && RunLoop.Rebooted(sessions)
    ensures var last := LastReboot(calls, sessions[|sessions| - 1]);
            last.Some? && RunLoop.NextArgv(p, sessions) == RebootArgv(last.value.args)
  {
    var i := |sessions| - 1;
    SessionReached(p, sessions, i);
    LifeEnds(p, calls, i, sessions[i].oks);
  }

  /** The same for every session of a run but the first. */
  lemma {:induction false} CreateArguments(p: RunLoop.Params, calls: Calls, sessions: seq<RunLoop.Session>, i: nat)
    requires RunsEngines(p, calls) && RunLoop.Sessions(p, sessions) && i + 1 < |sessions|
    ensures var last := LastReboot(calls, sessions[i]);
            last.Some? && sessions[i + 1].argv == RebootArgv(last.value.args)
  {
    SessionReached(p, sessions, i);
    LifeEnds(p, calls, i, sessions[i].oks);
    assert RunLoop.IsSession(p, sessions, i + 1);
    assert |sessions[..i + 1]| == i + 1;
  }

  /** The exit code of a finished run: 1 if a create failed, else the code of the last exit
      message of the last session, 0 if there was none and a window was closed. */
  lemma {:induction false} ExitCodeOfRun(p: RunLoop.Params, calls: Calls, sessions: seq<RunLoop.Session>, trace: seq<RunLoop.Event>, exitCode: int)
    requires RunsEngines(p, calls) && RunLoop.Finished(p, sessions, trace, exitCode)
    ensures exitCode == if RunLoop.Rebooted(sessions) then 1 else ExitCodeOf(SessionEvents(calls, sessions[|sessions| - 1]))
  {
    if !RunLoop.Rebooted(sessions) {
      var i := |sessions| - 1;
      SessionReached(p, sessions, i);
      LifeEnds(p, calls, i, sessions[i].oks);
    }
  }

  /** Which sessions end in a reboot: those whose last message asks for one. */
  lemma {:induction false} SessionVerdict(p: RunLoop.Params, calls: Calls, sessions: seq<RunLoop.Session>, i: nat)
    requires RunsEngines(p, calls) && RunLoop.Sessions(p, sessions) && i < |sessions|
    ensures sessions[i].verdict == VerdictOf(SessionEvents(calls, sessions[i]))
  {
    SessionReached(p, sessions, i);
    LifeEnds(p, calls, i, sessions[i].oks);
  }

  // ---- an engine object lives such a life

  type Script = nat -> seq<FrameEvent>

  /** The frames of a call are those of the script, as far as they take place. */
  ghost predicate Follows(c: Call, script: Script) {
    Ran(script, c.frames)
  }

  /** Calls on a new engine, following the scripts, that have led to state `now`. */
  ghost predicate IsLife(life: seq<Call>, scripts: nat -> Script, now: State) {
    && IsRun(life) && (forall k :: 0 <= k < |life| ==> Follows(life[k], scripts(k)))
    && if life == [] then now.alive && now.action == NONE
       else life[0].before.alive && life[0].before.action == NONE && life[|life| - 1].after == now
  }

  lemma {:induction false} RunGoesOn(calls: seq<Call>, c: Call)
    requires IsRun(calls) && Happened(c) && c.before.Valid() && (calls != [] ==> calls[|calls| - 1].after == c.before)
    ensures IsRun(calls + [c])
  {
    var more := calls + [c];
    forall k | 0 <= k < |more|
      ensures Happened(more[k])
    {
      assert more[k] == if k < |calls| then calls[k] else c;
    }
    forall k | 0 < k < |more|
      ensures more[k].before == more[k - 1].after
    {
      assert more[k - 1] == calls[k - 1] && more[k] == if k < |calls| then calls[k] else c;
    }
  }

  lemma {:induction false} LifeGoesOn(life: seq<Call>, scripts: nat -> Script, c: Call)
    requires IsLife(life, scripts, c.before) && Happened(c) && c.before.Valid() && Follows(c, scripts(|life|))
    ensures IsLife(life + [c], scripts, c.after)
  {
    RunGoesOn(life, c);
    var more := life + [c];
    forall k | 0 <= k < |more|
      ensures Follows(more[k], scripts(k))
    {
      assert more[k] == if k < |life| then life[k] else c;
    }
  }

  lemma {:induction false} TakePlaceIn(events: seq<FrameEvent>, e: FrameEvent)
    requires e in TakePlace(events)
    ensures e in events
  {
    if !events[0].Quit? && e != events[0] {
      TakePlaceIn(events[1..], e);
    }
  }

  lemma {:induction false} FollowsWellFormed(c: Call, script: Script)
    requires Updates(c.before, c.now, c.frames, c.after, c.result) && Follows(c, script)
    requires forall i, e :: e in script(i) ==> WellFormed(e)
    ensures Happened(c)
  {
    forall f, e | f in c.frames && e in f
      ensures WellFormed(e)
    {
      var i :| 0 <= i < |c.frames| && c.frames[i] == f;
      TakePlaceIn(script(i), e);
    }
  }

  method UpdateOnce(engine: EngineObject, now: int, script: Script) returns (r: UpdateResult, ghost c: Call)
    requires engine.Valid() && forall i, e :: e in script(i) ==> WellFormed(e)
    modifies engine, engine.argv
    ensures engine.Valid() && Happened(c) && Follows(c, script)
    ensures c.before == old(engine.St()) && c.after == engine.St() && c.result == r
  {
    ghost var before, frames := engine.St(), [];
    r, frames := engine.Update(now, script);
    c := Call(before, now, frames, engine.St(), r);
    FollowsWellFormed(c, script);
  }

  /** A new engine lived, for at most `limit` updates, until an update was not OK: this is
      that update's result and the report on the state it left. */
  ghost predicate Lived(scripts: nat -> Script, limit: nat, result: UpdateResult, report: Option<RunLoop.Report>) {
    exists life, last :: EndsIn(life, scripts, last, limit, result, report)
  }

  ghost predicate EndsIn(life: seq<Call>, scripts: nat -> Script, last: State, limit: nat,
                         result: UpdateResult, report: Option<RunLoop.Report>) {
    && IsLife(life, scripts, last) && last.Valid() && |life| <= limit
    && (forall k :: 0 <= k < |life| ==> life[k].result == if k < |life| - 1 then RESULT_OK else result)
    && if result == RESULT_OK then |life| == limit && report == None
       else life != [] && report.Some? && Reports(last, report.value)
  }

  /** Updates a new engine up to `limit` times, as the loop does, and asks for its report
      when an update is not OK. */
  method LiveOnce(start: int, frequency: nat, now: nat -> int, scripts: nat -> Script, limit: nat)
    returns (result: UpdateResult, report: Option<RunLoop.Report>)
    requires frequency < FrameClock.FREQUENCIES
    requires forall k, i, e :: e in scripts(k)(i) ==> WellFormed(e)
    ensures Lived(scripts, limit, result, report)
  {
    var engine := new EngineObject(start, frequency);
    result, report := RESULT_OK, None;
    ghost var life: seq<Call> := [];
    var n := 0;
    while n < limit && result == RESULT_OK
      invariant n == |life| <= limit && fresh(engine) && fresh(engine.argv) && engine.Valid()
      invariant IsLife(life, scripts, engine.St()) && (life == [] ==> result == RESULT_OK)
      invariant forall k :: 0 <= k < |life| ==> life[k].result == if k < |life| - 1 then RESULT_OK else result
    {
      ghost var c;
      result, c := UpdateOnce(engine, now(n), scripts(n));
      LifeGoesOn(life, scripts, c);
      life := life + [c];
      n := n + 1;
    }
    ghost var last := engine.St();
    if result != RESULT_OK {
      var runAction, code, count, args := engine.GetResult();
      report := Some(RunLoop.Report(code, args[..]));
    }
    assert EndsIn(life, scripts, last, limit, result, report);
  }

  // ---- lives make up the callbacks of a loop

  /** A whole life: its calls, and the report at its end. */
  datatype Life = Life(calls: seq<Call>, report: RunLoop.Report)

  /** The calls of a new engine up to the first that is not OK, and the report on the state
      that one left. */
  ghost predicate IsWhole(life: Life) {
    var n := |life.calls| - 1;
    && n >= 0 && IsRun(life.calls) && life.calls[0].before.alive && life.calls[0].before.action == NONE
    && (forall k :: 0 <= k < n ==> life.calls[k].result == RESULT_OK)
    && life.calls[n].result != RESULT_OK && life.calls[n].after.Valid() && Reports(life.calls[n].after, life.report)
  }

  /** A life that has ended is whole. */
  lemma {:induction false} EndedIsWhole(life: seq<Call>, scripts: nat -> Script, last: State, limit: nat, result: UpdateResult, report: RunLoop.Report)
    requires EndsIn(life, scripts, last, limit, result, Some(report)) && result != RESULT_OK
    ensures IsWhole(Life(life, report))
  {
  }

  /** Callbacks that let engine i live life i. */
  function ParamsOf(argv: seq<string>, create: (nat, seq<string>) -> bool, lives: nat -> Life): RunLoop.Params {
    RunLoop.Params(argv, true, true, create,
                   (i: nat, k: nat) => if k < |lives(i).calls| then lives(i).calls[k].result else RESULT_EXIT,
                   (i: nat) => lives(i).report)
  }

  ghost function CallsOf(lives: nat -> Life): Calls
    requires forall i: nat :: lives(i).calls != []
  {
    (i: nat, k: nat) => if k < |lives(i).calls| then lives(i).calls[k] else lives(i).calls[0]
  }

  lemma {:induction false} WholeLifeCall(life: Life, k: nat)
    requires IsWhole(life) && k < |life.calls|
    ensures life.calls[k].before.Valid() && life.calls[k].after.Valid() && Happened(life.calls[k])
    ensures if k == 0 then life.calls[k].before.alive && life.calls[k].before.action == NONE
            else life.calls[k].before == life.calls[k - 1].after
    ensures life.calls[k].result != RESULT_OK ==> Reports(life.calls[k].after, life.report)
  {
    var front := life.calls[..k + 1];
    assert IsRun(front);
    ReachableStatesValid(front);
  }

  /** Lives of engines make a loop over engines, so that every law of such loops holds of
      them. */
  lemma {:induction false} LivesRunEngines(argv: seq<string>, create: (nat, seq<string>) -> bool, lives: nat -> Life)
    requires forall i: nat :: lives(i).calls != [] && IsWhole(lives(i))
    ensures RunsEngines(ParamsOf(argv, create, lives), CallsOf(lives))
  {
    var p, calls := ParamsOf(argv, create, lives), CallsOf(lives);
    forall i: nat, k: nat | Reached(p, i, k)
      ensures IsCall(p, calls, i, k)
    {
      assert forall j: nat :: j < |lives(i).calls| ==> p.update(i, j) == lives(i).calls[j].result && calls(i, j) == lives(i).calls[j];
      LifeGivesCall(p, calls, lives(i), i, k);
    }
  }

  lemma {:induction false} LifeGivesCall(p: RunLoop.Params, calls: Calls, life: Life, i: nat, k: nat)
    requires IsWhole(life) && Reached(p, i, k) && p.report(i) == life.report
    requires forall j: nat :: j < |life.calls| ==> p.update(i, j) == life.calls[j].result && calls(i, j) == life.calls[j]
    ensures IsCall(p, calls, i, k)
  {
    ReachedWithin(p, life, i, k);
    WholeLifeCall(life, k);
    IsCallFrom(p, calls, i, k, life.calls[k], if k > 0 then life.calls[k - 1] else life.calls[k]);
  }

  lemma {:induction false} ReachedWithin(p: RunLoop.Params, life: Life, i: nat, k: nat)
    requires IsWhole(life) && Reached(p, i, k)
    requires forall j: nat :: j < |life.calls| ==> p.update(i, j) == life.calls[j].result
    ensures k < |life.calls|
  {
    assert p.update(i, |life.calls| - 1) != RESULT_OK;
  }

  lemma {:induction false} IsCallFrom(p: RunLoop.Params, calls: Calls, i: nat, k: nat, c: Call, previous: Call)
    requires calls(i, k) == c && p.update(i, k) == c.result && (k > 0 ==> calls(i, k - 1) == previous)
    requires Happened(c) && c.before.Valid() && c.after.Valid()
    requires if k == 0 then c.before.alive && c.before.action == NONE else c.before == previous.after
    requires c.result != RESULT_OK ==> Reports(c.after, p.report(i))
    ensures IsCall(p, calls, i, k)
  {
  }
}
