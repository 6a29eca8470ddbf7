/** The desktop run loop of engine/engine/src/engine_loop.cpp: creating, updating,
    reporting and destroying engines, with reboots. */
module RunLoop {
  import opened Basics
  import opened Engine

  /** How the callbacks behave: whether the n-th create succeeds on given arguments,
      what the k-th update of engine n returns, and what engine n reports. */
  datatype Params = Params(
    argv: seq<string>, hasAppCreate: bool, hasAppDestroy: bool,
    create: (nat, seq<string>) -> bool,
    update: (nat, nat) -> UpdateResult,
    report: nat -> Report)

  datatype Report = Report(exitCode: int, argv: seq<string>)

  datatype Event =
    | AppCreate
    | Create(argv: seq<string>, created: Option<nat>)
    | Update(id: nat, result: UpdateResult)
    | GetResult(id: nat, report: Report)
    | Destroy(id: nat)
    | AppDestroy

  /** The life of engine `id`: created with `argv`, updated `oks` times with result OK
      and then once with `verdict`. */
  datatype Session = Session(id: nat, argv: seq<string>, oks: nat, verdict: UpdateResult)

  ghost function Updating(id: nat, oks: nat): seq<Event> {
    seq(oks, _ => Update(id, RESULT_OK))
  }

  ghost function SessionTrace(p: Params, s: Session): seq<Event> {
    [Create(s.argv, Some(s.id))] + Updating(s.id, s.oks)
    + [Update(s.id, s.verdict), GetResult(s.id, p.report(s.id)), Destroy(s.id)]
  }

  ghost function SessionTraces(p: Params, sessions: seq<Session>): seq<seq<Event>> {
    seq(|sessions|, i requires 0 <= i < |sessions| => SessionTrace(p, sessions[i]))
  }

  /** Arguments of the create that follows these sessions. */
  ghost function NextArgv(p: Params, sessions: seq<Session>): seq<string> {
    if sessions == [] then p.argv else p.report(|sessions| - 1).argv
  }

  /** Session i is that of the i-th engine, on the arguments its predecessor reported,
      and its updates are those the engine gives. */
  ghost predicate IsSession(p: Params, sessions: seq<Session>, i: nat)
    requires i < |sessions|
  {
    var s := sessions[i];
    && s.id == i && s.argv == NextArgv(p, sessions[..i]) && p.create(i, s.argv)
    && (forall k: nat :: k < s.oks ==> p.update(i, k) == RESULT_OK)
    && p.update(i, s.oks) == s.verdict != RESULT_OK
  }

  /** Complete sessions in which all but possibly the last ended in a reboot. */
  ghost predicate Sessions(p: Params, sessions: seq<Session>) {
    forall i :: 0 <= i < |sessions| ==>
      IsSession(p, sessions, i) && (i < |sessions| - 1 ==> sessions[i].verdict == RESULT_REBOOT)
  }

  ghost predicate Rebooted(sessions: seq<Session>) {
    sessions != [] ==> sessions[|sessions| - 1].verdict == RESULT_REBOOT
  }

  ghost function Opening(p: Params): seq<Event> { if p.hasAppCreate then [AppCreate] else [] }
  ghost function Closing(p: Params): seq<Event> { if p.hasAppDestroy then [AppDestroy] else [] }

  ghost function Body(p: Params, sessions: seq<Session>): seq<Event> {
    Opening(p) + Flatten(SessionTraces(p, sessions))
  }

  /** A finished run: sessions, then possibly one failed create; the exit code is the
      last engine's, or 1 after a failed create. */
  ghost predicate Finished(p: Params, sessions: seq<Session>, trace: seq<Event>, exitCode: int) {
    var body := Body(p, sessions);
    && Sessions(p, sessions)
    && if Rebooted(sessions) then
         var argv := NextArgv(p, sessions);
         !p.create(|sessions|, argv) && trace == body + [Create(argv, None)] + Closing(p) && exitCode == 1
       else
         trace == body + Closing(p) && exitCode == p.report(|sessions| - 1).exitCode
  }

  /** A run observed in the middle: sessions that ended in reboots, then possibly a
      live engine whose `oks` updates all returned OK. */
  ghost predicate Underway(p: Params, sessions: seq<Session>, live: bool, oks: nat, trace: seq<Event>) {
    var body := Body(p, sessions);
    var id, argv := |sessions|, NextArgv(p, sessions);
    && Sessions(p, sessions) && Rebooted(sessions)
    && if live then
         && p.create(id, argv) && (forall k: nat :: k < oks ==> p.update(id, k) == RESULT_OK)
         && trace == body + ([Create(argv, Some(id))] + Updating(id, oks))
       else
         oks == 0 && trace == body
  }

  lemma {:induction false} SessionsSnoc(p: Params, sessions: seq<Session>, s: Session)
    requires Sessions(p, sessions) && Rebooted(sessions) && IsSession(p, sessions + [s], |sessions|)
    ensures Sessions(p, sessions + [s])
    ensures Body(p, sessions + [s]) == Body(p, sessions) + SessionTrace(p, s)
  {
    var t := sessions + [s];
    forall i | 0 <= i < |sessions|
      ensures IsSession(p, t, i) && t[i].verdict == RESULT_REBOOT
    {
      assert IsSession(p, sessions, i);
      assert t[..i] == sessions[..i];
    }
    BodySnoc(p, sessions, s);
  }

  lemma {:induction false} BodySnoc(p: Params, sessions: seq<Session>, s: Session)
    ensures Body(p, sessions + [s]) == Body(p, sessions) + SessionTrace(p, s)
  {
    assert SessionTraces(p, sessions + [s]) == SessionTraces(p, sessions) + [SessionTrace(p, s)];
    FlattenSnoc(SessionTraces(p, sessions), SessionTrace(p, s));
  }

  lemma {:induction false} EngineCreated(p: Params, sessions: seq<Session>, trace: seq<Event>)
    requires Underway(p, sessions, false, 0, trace) && p.create(|sessions|, NextArgv(p, sessions))
    ensures Underway(p, sessions, true, 0, trace + [Create(NextArgv(p, sessions), Some(|sessions|))])
  {
    assert Updating(|sessions|, 0) == [];
  }

  lemma {:induction false} CreateFailed(p: Params, sessions: seq<Session>, trace: seq<Event>)
    requires Underway(p, sessions, false, 0, trace) && !p.create(|sessions|, NextArgv(p, sessions))
    ensures Finished(p, sessions, trace + [Create(NextArgv(p, sessions), None)] + Closing(p), 1)
  {
  }

  lemma {:induction false} EngineUpdated(p: Params, sessions: seq<Session>, oks: nat, trace: seq<Event>)
    requires Underway(p, sessions, true, oks, trace) && p.update(|sessions|, oks) == RESULT_OK
    ensures Underway(p, sessions, true, oks + 1, trace + [Update(|sessions|, RESULT_OK)])
  {
    assert Updating(|sessions|, oks) + [Update(|sessions|, RESULT_OK)] == Updating(|sessions|, oks + 1);
  }

  /** A non-zero update, the report and the destruction close a session. */
  lemma {:induction false} EngineEnded(p: Params, sessions: seq<Session>, oks: nat, trace: seq<Event>) returns (s: Session)
    requires Underway(p, sessions, true, oks, trace) && p.update(|sessions|, oks) != RESULT_OK
    ensures var id, r := |sessions|, p.update(|sessions|, oks);
            var trace' := trace + [Update(id, r)] + [GetResult(id, p.report(id))] + [Destroy(id)];
            if r == RESULT_REBOOT then Underway(p, sessions + [s], false, 0, trace')
            else Finished(p, sessions + [s], trace' + Closing(p), p.report(id).exitCode)
    ensures s.oks == oks && NextArgv(p, sessions + [s]) == p.report(|sessions|).argv
  {
    var id, argv := |sessions|, NextArgv(p, sessions);
    s := Session(id, argv, oks, p.update(id, oks));
    SessionIsNext(p, sessions, s);
    SessionsSnoc(p, sessions, s);
    Regroup(Body(p, sessions), [Create(argv, Some(id))] + Updating(id, oks),
            Update(id, s.verdict), GetResult(id, p.report(id)), Destroy(id));
    SessionEnds(p, sessions, s, Body(p, sessions + [s]));
  }

  lemma {:induction false} SessionIsNext(p: Params, sessions: seq<Session>, s: Session)
    requires s.id == |sessions| && s.argv == NextArgv(p, sessions) && p.create(s.id, s.argv)
    requires (forall k: nat :: k < s.oks ==> p.update(s.id, k) == RESULT_OK) && p.update(s.id, s.oks) == s.verdict != RESULT_OK
    ensures IsSession(p, sessions + [s], |sessions|)
  {
    assert (sessions + [s])[..|sessions|] == sessions;
  }

  lemma {:induction false} SessionEnds(p: Params, sessions: seq<Session>, s: Session, trace: seq<Event>)
    requires Sessions(p, sessions + [s]) && s.id == |sessions| && trace == Body(p, sessions + [s]) && s.verdict != RESULT_OK
    ensures if s.verdict == RESULT_REBOOT then Underway(p, sessions + [s], false, 0, trace)
            else Finished(p, sessions + [s], trace + Closing(p), p.report(s.id).exitCode)
    ensures NextArgv(p, sessions + [s]) == p.report(s.id).argv
  {
    assert (sessions + [s])[|sessions + [s]| - 1] == s;
  }

  lemma {:induction false} Regroup(body: seq<Event>, open: seq<Event>, x: Event, y: Event, z: Event)
    ensures body + open + [x] + [y] + [z] == body + (open + [x, y, z])
  {
  }

  /** Updates made in these sessions. */
  ghost function Rounds(sessions: seq<Session>): nat {
    if sessions == [] then 0 else Rounds(sessions[..|sessions| - 1]) + sessions[|sessions| - 1].oks + 1
  }

  lemma {:induction false} RoundsSnoc(sessions: seq<Session>, s: Session)
    ensures Rounds(sessions + [s]) == Rounds(sessions) + s.oks + 1
  {
    assert (sessions + [s])[..|sessions|] == sessions;
  }

  ghost predicate IsFinishedRun(p: Params, trace: seq<Event>, exitCode: int) {
    exists sessions :: Finished(p, sessions, trace, exitCode)
  }

  /** Underway, with one update made in each round of the loop. */
  ghost predicate IsRunUnderway(p: Params, trace: seq<Event>, rounds: nat) {
    exists sessions, live, oks :: Underway(p, sessions, live, oks, trace) && Rounds(sessions) + oks == rounds
  }

  // ---- what each event of a run follows from

  ghost predicate EndsWith(t: seq<Event>, e: Event) { t != [] && t[|t| - 1] == e }

  /** The command line last reported; before any report, that of the process. */
  ghost function Latest(p: Params, t: seq<Event>): seq<string> {
    if t == [] then p.argv
    else if t[|t| - 1].GetResult? then t[|t| - 1].report.argv else Latest(p, t[..|t| - 1])
  }

  /** How many engines were created. */
  ghost function Created(t: seq<Event>): nat {
    if t == [] then 0
    else Created(t[..|t| - 1]) + if t[|t| - 1].Create? && t[|t| - 1].created.Some? then 1 else 0
  }

  /** How often the latest engine was updated. */
  ghost function Updates(t: seq<Event>): nat {
    if t == [] || t[|t| - 1].Create? then 0
    else Updates(t[..|t| - 1]) + if t[|t| - 1].Update? then 1 else 0
  }

  /** An update returned r, and the engine was asked for its report and destroyed. */
  ghost predicate Stopped(t: seq<Event>, r: UpdateResult) {
    |t| >= 3 && t[|t| - 3].Update? && t[|t| - 3].result == r && t[|t| - 2].GetResult? && t[|t| - 1].Destroy?
  }

  ghost predicate AtStart(p: Params, t: seq<Event>) {
    if p.hasAppCreate then t == [AppCreate] else t == []
  }

  /** A create failed, or an engine asked for the exit. */
  ghost predicate AtEnd(t: seq<Event>, exitCode: int) {
    || (t != [] && t[|t| - 1].Create? && t[|t| - 1].created == None && exitCode == 1)
    || (Stopped(t, RESULT_EXIT) && exitCode == t[|t| - 2].report.exitCode)
  }

  /** When an event takes place, and with what. */
  ghost predicate Allowed(p: Params, t: seq<Event>, e: Event) {
    match e
    case AppCreate => p.hasAppCreate && t == []
    case Create(argv, created) =>
      && (AtStart(p, t) || Stopped(t, RESULT_REBOOT))
      && argv == Latest(p, t) && created == if p.create(Created(t), argv) then Some(Created(t)) else None
    case Update(id, result) =>
      && ((t != [] && t[|t| - 1].Create? && t[|t| - 1].created == Some(id)) || EndsWith(t, Update(id, RESULT_OK)))
      && result == p.update(id, Updates(t))
    case GetResult(id, report) =>
      t != [] && t[|t| - 1].Update? && t[|t| - 1].id == id && t[|t| - 1].result != RESULT_OK && report == p.report(id)
    case Destroy(id) => t != [] && t[|t| - 1].GetResult? && t[|t| - 1].id == id
    case AppDestroy => p.hasAppDestroy && exists exitCode :: AtEnd(t, exitCode)
  }

  /** Every event of the trace follows from those before it. */
  ghost predicate ByRules(p: Params, t: seq<Event>) {
    forall i :: 0 <= i < |t| ==> Allowed(p, t[..i], t[i])
  }

  /** The trace goes up to the end, and the exit code is the one reported there. */
  ghost predicate EndsByRules(p: Params, t: seq<Event>, exitCode: int) {
    && ByRules(p, t)
    && if p.hasAppDestroy then EndsWith(t, AppDestroy) && AtEnd(t[..|t| - 1], exitCode) else AtEnd(t, exitCode)
  }

  lemma {:induction false} ByRulesNext(p: Params, t: seq<Event>, e: Event)
    requires ByRules(p, t) && Allowed(p, t, e)
    ensures ByRules(p, t + [e])
  {
    var more := t + [e];
    assert more[..|t|] == t;
    forall i | 0 <= i < |more|
      ensures Allowed(p, more[..i], more[i])
    {
      if i < |t| {
        assert more[..i] == t[..i];
      }
    }
  }

  /** The n-th create is next. */
  ghost predicate Ready(p: Params, t: seq<Event>, argv: seq<string>, n: nat) {
    ByRules(p, t) && Latest(p, t) == argv && Created(t) == n && (AtStart(p, t) || Stopped(t, RESULT_REBOOT))
  }

  /** Update k of the engine is next. */
  ghost predicate Active(p: Params, t: seq<Event>, id: nat, k: nat) {
    && ByRules(p, t) && Created(t) == id + 1 && Updates(t) == k && t != []
    && ((t[|t| - 1].Create? && t[|t| - 1].created == Some(id)) || EndsWith(t, Update(id, RESULT_OK)))
  }

  lemma {:induction false} StartReady(p: Params)
    ensures Ready(p, Opening(p), p.argv, 0)
  {
    if p.hasAppCreate {
      assert [AppCreate][..0] == [];
    }
  }

  lemma {:induction false} CreateAllowed(p: Params, t: seq<Event>, argv: seq<string>, n: nat, created: Option<nat>)
    requires Ready(p, t, argv, n) && created == if p.create(n, argv) then Some(n) else None
    ensures ByRules(p, t + [Create(argv, created)])
  {
    ByRulesNext(p, t, Create(argv, created));
  }

  lemma {:induction false} CreateNext(p: Params, t: seq<Event>, argv: seq<string>, n: nat)
    requires Ready(p, t, argv, n) && p.create(n, argv)
    ensures Active(p, t + [Create(argv, Some(n))], n, 0)
  {
    CreateAllowed(p, t, argv, n, Some(n));
    assert (t + [Create(argv, Some(n))])[..|t|] == t;
  }

  lemma {:induction false} CreateFails(p: Params, t: seq<Event>, argv: seq<string>, n: nat)
    requires Ready(p, t, argv, n) && !p.create(n, argv)
    ensures ByRules(p, t + [Create(argv, None)]) && AtEnd(t + [Create(argv, None)], 1)
  {
    CreateAllowed(p, t, argv, n, None);
  }

  lemma {:induction false} UpdateNext(p: Params, t: seq<Event>, id: nat, k: nat)
    requires Active(p, t, id, k)
    ensures ByRules(p, t + [Update(id, p.update(id, k))]) && Created(t + [Update(id, p.update(id, k))]) == id + 1
    ensures p.update(id, k) == RESULT_OK ==> Active(p, t + [Update(id, RESULT_OK)], id, k + 1)
  {
    var e := Update(id, p.update(id, k));
    ByRulesNext(p, t, e);
    assert (t + [e])[..|t|] == t;
  }

  /** The report and the destruction behind a last update. */
  lemma {:induction false} StopNext(p: Params, t: seq<Event>, id: nat, r: UpdateResult)
    requires ByRules(p, t) && EndsWith(t, Update(id, r)) && r != RESULT_OK && Created(t) == id + 1
    ensures var t' := t + [GetResult(id, p.report(id))] + [Destroy(id)];
            && ByRules(p, t') && Stopped(t', r) && t'[|t'| - 2] == GetResult(id, p.report(id))
            && Latest(p, t') == p.report(id).argv && Created(t') == id + 1
  {
    var e, d := GetResult(id, p.report(id)), Destroy(id);
    ByRulesNext(p, t, e);
    assert (t + [e])[..|t|] == t;
    ByRulesNext(p, t + [e], d);
    assert (t + [e] + [d])[..|t| + 1] == t + [e];
  }

  lemma {:induction false} CloseNext(p: Params, t: seq<Event>, exitCode: int)
    requires ByRules(p, t) && AtEnd(t, exitCode)
    ensures EndsByRules(p, t + Closing(p), exitCode)
  {
    if p.hasAppDestroy {
      ByRulesNext(p, t, AppDestroy);
      assert (t + [AppDestroy])[..|t|] == t;
    } else {
      assert t + Closing(p) == t;
    }
  }

  // ---- the loop

  /** Between two steps of the loop: where the sessions are, and what the rules say is next. */
  ghost predicate Going(p: Params, sessions: seq<Session>, live: bool, updated: nat, trace: seq<Event>, argv: seq<string>) {
    && Underway(p, sessions, live, updated, trace) && argv == NextArgv(p, sessions)
    && if live then Active(p, trace, |sessions|, updated) else Ready(p, trace, argv, |sessions|)
  }

  /** After the loop, before AppDestroy. */
  ghost predicate Over(p: Params, sessions: seq<Session>, trace: seq<Event>, exitCode: int) {
    Finished(p, sessions, trace + Closing(p), exitCode) && ByRules(p, trace) && AtEnd(trace, exitCode)
  }

  /** The arguments the loop holds stay as they are while an engine lives. */
  method CreateEngine(p: Params, created: nat, argv: seq<string>, trace: seq<Event>, ghost sessions: seq<Session>)
    returns (ok: bool, trace': seq<Event>)
    requires created == |sessions| && Going(p, sessions, false, 0, trace, argv)
    ensures if ok then Going(p, sessions, true, 0, trace', argv) else Over(p, sessions, trace', 1)
  {
    ok := p.create(created, argv);
    if ok {
      EngineCreated(p, sessions, trace);
      CreateNext(p, trace, argv, created);
      trace' := trace + [Create(argv, Some(created))];
    } else {
      CreateFailed(p, sessions, trace);
      CreateFails(p, trace, argv, created);
      trace' := trace + [Create(argv, None)];
    }
  }

  /** One update of the live engine; if it is not OK, the report and the destruction. */
  method UpdateEngine(p: Params, id: nat, updated: nat, trace: seq<Event>, argv: seq<string>, ghost sessions: seq<Session>)
    returns (result: UpdateResult, trace': seq<Event>, report: Report, ghost sessions': seq<Session>)
    requires id == |sessions| && Going(p, sessions, true, updated, trace, argv)
    ensures result == p.update(id, updated) && report == p.report(id)
    ensures result == RESULT_OK ==> sessions' == sessions && Going(p, sessions, true, updated + 1, trace', argv)
    ensures result != RESULT_OK ==> |sessions'| == |sessions| + 1 && Rounds(sessions') == Rounds(sessions) + updated + 1
    ensures result == RESULT_REBOOT ==> Going(p, sessions', false, 0, trace', report.argv)
    ensures result == RESULT_EXIT ==> Over(p, sessions', trace', report.exitCode)
  {
    result := p.update(id, updated);
    trace' := trace + [Update(id, result)];
    report := p.report(id);
    sessions' := sessions;
    if result == RESULT_OK {
      GoesOn(p, sessions, updated, trace, argv);
    } else {
      sessions' := Stops(p, sessions, updated, trace, argv);
      trace' := trace' + [GetResult(id, report)];
      trace' := trace' + [Destroy(id)];
    }
  }

  lemma {:induction false} GoesOn(p: Params, sessions: seq<Session>, updated: nat, trace: seq<Event>, argv: seq<string>)
    requires Going(p, sessions, true, updated, trace, argv) && p.update(|sessions|, updated) == RESULT_OK
    ensures Going(p, sessions, true, updated + 1, trace + [Update(|sessions|, RESULT_OK)], argv)
  {
    EngineUpdated(p, sessions, updated, trace);
    UpdateNext(p, trace, |sessions|, updated);
  }

  lemma {:induction false} Stops(p: Params, sessions: seq<Session>, updated: nat, trace: seq<Event>, argv: seq<string>)
    returns (sessions': seq<Session>)
    requires Going(p, sessions, true, updated, trace, argv) && p.update(|sessions|, updated) != RESULT_OK
    ensures |sessions'| == |sessions| + 1 && Rounds(sessions') == Rounds(sessions) + updated + 1
    ensures var id, r := |sessions|, p.update(|sessions|, updated);
            var trace' := trace + [Update(id, r)] + [GetResult(id, p.report(id))] + [Destroy(id)];
            if r == RESULT_REBOOT then Going(p, sessions', false, 0, trace', p.report(id).argv)
            else Over(p, sessions', trace', p.report(id).exitCode)
  {
    var id, r := |sessions|, p.update(|sessions|, updated);
    UpdateNext(p, trace, id, updated);
    var s := EngineEnded(p, sessions, updated, trace);
    RoundsSnoc(sessions, s);
    sessions' := sessions + [s];
    StopNext(p, trace + [Update(id, r)], id, r);
  }

  method StartLoop(p: Params) returns (trace: seq<Event>)
    ensures Going(p, [], false, 0, trace, p.argv)
  {
    trace := [];
    if p.hasAppCreate {
      trace := trace + [AppCreate];
    }
    StartReady(p);
  }

  method CloseLoop(p: Params, trace: seq<Event>, exitCode: int, ghost sessions: seq<Session>) returns (trace': seq<Event>)
    requires Over(p, sessions, trace, exitCode)
    ensures Finished(p, sessions, trace', exitCode) && EndsByRules(p, trace', exitCode)
  {
    CloseNext(p, trace, exitCode);
    trace' := trace;
    if p.hasAppDestroy {
      trace' := trace' + [AppDestroy];
    }
    assert trace' == trace + Closing(p);
  }

  /** A run observed in the middle of the loop. */
  ghost predicate IsGoing(p: Params, trace: seq<Event>, rounds: nat) {
    exists sessions, live, updated, argv :: Going(p, sessions, live, updated, trace, argv) && Rounds(sessions) + updated == rounds
  }

  /** At the head of the loop, after n rounds. */
  ghost predicate AtHead(p: Params, sessions: seq<Session>, engine: Option<nat>, created: nat, updated: nat,
                         trace: seq<Event>, argv: seq<string>, n: nat) {
    && Going(p, sessions, engine.Some?, updated, trace, argv)
    && (if engine.Some? then engine.value == |sessions| && created == |sessions| + 1 else created == |sessions| && updated == 0)
    && Rounds(sessions) + updated == n
  }

  /** An update with what follows it: `argv` and the exit code are those reported, if the
      engine was asked for them. */
  method UpdateAndReport(p: Params, id: nat, updated: nat, argv: seq<string>, trace: seq<Event>, ghost sessions: seq<Session>, ghost n: nat)
    returns (result: UpdateResult, engine: Option<nat>, updated': nat, argv': seq<string>, exitCode: int, trace': seq<Event>, ghost sessions': seq<Session>)
    requires AtHead(p, sessions, Some(id), id + 1, updated, trace, argv, n)
    ensures result == if p.update(id, updated) == RESULT_EXIT then RESULT_EXIT else RESULT_OK
    ensures if p.update(id, updated) == RESULT_OK then engine == Some(id) && updated' == updated + 1 && argv' == argv
            else engine == None && updated' == 0 && exitCode == p.report(id).exitCode && argv' == p.report(id).argv
    ensures result == RESULT_OK ==> AtHead(p, sessions', engine, id + 1, updated', trace', argv', n + 1)
    ensures result != RESULT_OK ==> Over(p, sessions', trace', exitCode)
  {
    var report;
    result, trace', report, sessions' := UpdateEngine(p, id, updated, trace, argv, sessions);
    engine, updated', argv', exitCode := Some(id), updated + 1, argv, 0;
    if result != RESULT_OK {
      exitCode, argv' := report.exitCode, report.argv;
      engine, updated' := None, 0;
      if result == RESULT_REBOOT {
        result := RESULT_OK;
      }
    }
  }

  /** The first `iterations` rounds of the loop, for any behaviour of the callbacks. */
  method Loop(p: Params, iterations: nat) returns (trace: seq<Event>, exitCode: int, finished: bool)
    ensures finished ==> exists sessions :: Over(p, sessions, trace, exitCode)
    ensures !finished ==> IsGoing(p, trace, iterations)
  {
    trace := StartLoop(p);
    var argv := p.argv;
    exitCode := 0;
    var engine: Option<nat> := None;
    var result := RESULT_OK;
    var created, updated := 0, 0;
    ghost var sessions: seq<Session> := [];
    var n := 0;
    while result == RESULT_OK && n < iterations
      invariant result == RESULT_OK ==> AtHead(p, sessions, engine, created, updated, trace, argv, n)
      invariant result != RESULT_OK ==> Over(p, sessions, trace, exitCode)
      invariant n <= iterations
    {
      if engine.None? {
        var ok;
        ok, trace := CreateEngine(p, created, argv, trace, sessions);
        if !ok {
          exitCode := 1;
          result := RESULT_EXIT;  // leaves the loop, as the source's break does
          break;
        }
        engine := Some(created);
        created := created + 1;
      }
      result, engine, updated, argv, exitCode, trace, sessions := UpdateAndReport(p, engine.value, updated, argv, trace, sessions, n);
      n := n + 1;
    }
    finished := result != RESULT_OK;
  }

  /** The loop with AppCreate and AppDestroy around it: complete sessions, and every event
      when and with what the rules above say. A run that never ends is a run that is
      underway after every number of rounds. */
  method Run(p: Params, iterations: nat) returns (trace: seq<Event>, exitCode: int, finished: bool)
    ensures finished ==> IsFinishedRun(p, trace, exitCode) && EndsByRules(p, trace, exitCode)
    ensures !finished ==> IsRunUnderway(p, trace, iterations) && ByRules(p, trace)
  {
    trace, exitCode, finished := Loop(p, iterations);
    if finished {
      ghost var sessions :| Over(p, sessions, trace, exitCode);
      trace := CloseLoop(p, trace, exitCode, sessions);
    }
  }

  // ---- what the shape of a run means for engines

  /** Life of engines along a trace: at most one is live, engines are numbered in order
      of creation, only the live one is used, and only a reported one is destroyed.
      `Ended(n)` means n engines were created and all of them destroyed. */
  datatype Engines = Ended(n: nat) | Live(id: nat) | Reported(id: nat) | Misused

  function After(e: Engines, ev: Event): Engines {
    match ev
    case AppCreate => e
    case AppDestroy => if e.Ended? then e else Misused
    case Create(_, created) =>
      if !e.Ended? then Misused
      else if created.None? then e
      else if created.value == e.n then Live(e.n) else Misused
    case Update(id, _) => if e == Live(id) then e else Misused
    case GetResult(id, _) => if e == Live(id) then Reported(id) else Misused
    case Destroy(id) => if e == Reported(id) then Ended(id + 1) else Misused
  }

  function AfterAll(e: Engines, trace: seq<Event>): Engines
    decreases trace
  {
    if trace == [] then e else AfterAll(After(e, trace[0]), trace[1..])
  }

  lemma {:induction false} AfterAllConcat(e: Engines, a: seq<Event>, b: seq<Event>)
    ensures AfterAll(e, a + b) == AfterAll(AfterAll(e, a), b)
    decreases a
  {
    if a == [] {
      assert a + b == b;
    } else {
      assert (a + b)[1..] == a[1..] + b;
      AfterAllConcat(After(e, a[0]), a[1..], b);
    }
  }

  lemma {:induction false} UpdatingKeepsLive(id: nat, oks: nat)
    ensures AfterAll(Live(id), Updating(id, oks)) == Live(id)
  {
    if oks > 0 {
      assert Updating(id, oks)[1..] == Updating(id, oks - 1);
      UpdatingKeepsLive(id, oks - 1);
    }
  }

  lemma {:induction false} SessionLife(p: Params, s: Session)
    ensures AfterAll(Ended(s.id), SessionTrace(p, s)) == Ended(s.id + 1)
  {
    var a, b := [Create(s.argv, Some(s.id))], Updating(s.id, s.oks);
    var c := [Update(s.id, s.verdict), GetResult(s.id, p.report(s.id)), Destroy(s.id)];
    AfterAllConcat(Ended(s.id), a + b, c);
    AfterAllConcat(Ended(s.id), a, b);
    assert AfterAll(Ended(s.id), a) == Live(s.id) by {
      assert a[1..] == [];
    }
    UpdatingKeepsLive(s.id, s.oks);
    assert c == [c[0]] + ([c[1]] + [c[2]]);
    AfterAllConcat(Live(s.id), [c[0]], [c[1]] + [c[2]]);
    AfterAllConcat(Live(s.id), [c[1]], [c[2]]);
    AfterOne(Live(s.id), c[0]);
    AfterOne(Live(s.id), c[1]);
    AfterOne(Reported(s.id), c[2]);
  }

  lemma {:induction false} SessionsLife(p: Params, sessions: seq<Session>)
    requires forall i :: 0 <= i < |sessions| ==> sessions[i].id == i
    ensures AfterAll(Ended(0), Flatten(SessionTraces(p, sessions))) == Ended(|sessions|)
  {
    if sessions == [] {
    } else {
      var front, s := sessions[..|sessions| - 1], sessions[|sessions| - 1];
      SessionsLife(p, front);
      assert SessionTraces(p, sessions) == SessionTraces(p, front) + [SessionTrace(p, s)];
      FlattenSnoc(SessionTraces(p, front), SessionTrace(p, s));
      AfterAllConcat(Ended(0), Flatten(SessionTraces(p, front)), SessionTrace(p, s));
      SessionLife(p, s);
    }
  }

  lemma {:induction false} AfterOne(e: Engines, ev: Event)
    ensures AfterAll(e, [ev]) == After(e, ev)
  {
    assert [ev][1..] == [];
  }

  lemma {:induction false} BodyLife(p: Params, sessions: seq<Session>)
    requires Sessions(p, sessions)
    ensures AfterAll(Ended(0), Body(p, sessions)) == Ended(|sessions|)
  {
    forall i | 0 <= i < |sessions|
      ensures sessions[i].id == i
    {
      assert IsSession(p, sessions, i);
    }
    AfterAllConcat(Ended(0), Opening(p), Flatten(SessionTraces(p, sessions)));
    AfterOne(Ended(0), AppCreate);
    SessionsLife(p, sessions);
  }

  /** In a finished run every engine that was created has been reported on and
      destroyed exactly once, one after the other. */
  lemma {:induction false} FinishedRunDestroysEveryEngine(p: Params, sessions: seq<Session>, trace: seq<Event>, exitCode: int)
    requires Finished(p, sessions, trace, exitCode)
    ensures AfterAll(Ended(0), trace) == Ended(|sessions|)
  {
    var body := Body(p, sessions);
    BodyLife(p, sessions);
    var failed := if Rebooted(sessions) then [Create(NextArgv(p, sessions), None)] else [];
    assert trace == body + failed + Closing(p);
    AfterAllConcat(Ended(0), body + failed, Closing(p));
    AfterAllConcat(Ended(0), body, failed);
    AfterOne(Ended(|sessions|), Create(NextArgv(p, sessions), None));
    AfterOne(Ended(|sessions|), AppDestroy);
  }

  /** At any moment of a run underway at most one engine is live, and it is the latest. */
  lemma {:induction false} AtMostOneEngineLive(p: Params, sessions: seq<Session>, live: bool, oks: nat, trace: seq<Event>)
    requires Underway(p, sessions, live, oks, trace)
    ensures AfterAll(Ended(0), trace) == if live then Live(|sessions|) else Ended(|sessions|)
  {
    var body := Body(p, sessions);
    BodyLife(p, sessions);
    if live {
      var a, b := [Create(NextArgv(p, sessions), Some(|sessions|))], Updating(|sessions|, oks);
      AfterAllConcat(Ended(0), body, a + b);
      AfterAllConcat(Ended(|sessions|), a, b);
      AfterOne(Ended(|sessions|), a[0]);
      UpdatingKeepsLive(|sessions|, oks);
    }
  }

  lemma {:induction false} MisusedStays(trace: seq<Event>)
    ensures AfterAll(Misused, trace) == Misused
  {
    if trace != [] {
      MisusedStays(trace[1..]);
    }
  }

  /** A trace that ends well was well-behaved at every point before. */
  lemma {:induction false} WellBehavedThroughout(trace: seq<Event>, k: nat)
    requires k <= |trace| && AfterAll(Ended(0), trace) != Misused
    ensures AfterAll(Ended(0), trace[..k]) != Misused
  {
    assert trace == trace[..k] + trace[k..];
    AfterAllConcat(Ended(0), trace[..k], trace[k..]);
    MisusedStays(trace[k..]);
  }
}
