/** When a finished Run's status is final, and a run in which it is not. */
module Finality {
  import opened Wrappers
  import opened CommandDomain
  import opened ExitMarker
  import opened RunProtocol
  import opened RunInvariants
  import opened RunTheorems
  import opened CommandLifecycle

  /** In every continuation the status stays what it is, until the record is gone. */
  ghost predicate Final(s: Sys) {
    forall more: seq<Action> :: Exec(s, more).cell.Some? ==> StatusOf(Exec(s, more)) == StatusOf(s)
  }

  /** Nobody can write KILLED any more: no killer passed the gate, or the one that did is stranded. */
  predicate NobodyLeft(s: Sys) {
    s.past.gate.Some? ==>
      s.past.gate.value in s.killers && s.killers[s.past.gate.value].pc == Stopped(Stranded)
  }

  /** Saved, and if still there in this finished status for good. */
  predicate Resting(s: Sys, st: Status) {
    !BeforeSave(s.pod.task) && NobodyLeft(s) && (s.cell.Some? ==> Finished(s) && StatusOf(s) == Some(st))
  }

  lemma TaskLeavesResting(s: Sys, t: TaskAction, st: Status)
    requires Resting(s, st)
    ensures Resting(TaskStep(s, t), st)
  {
  }

  lemma OthersLeaveResting(s: Sys, a: Action, st: Status)
    requires Resting(s, st) && !a.Commit? && !a.ByKiller?
    ensures Resting(Step(s, a), st)
  {
    match a
    case Do(t) => TaskLeavesResting(s, t, st);
    case _ =>
  }

  lemma KillersLeaveResting(s: Sys, k: nat, ka: KillAction, st: Status)
    requires Resting(s, st)
    ensures Resting(KillStep(s, k, ka), st)
  {
  }

  lemma WritesLeaveResting(s: Sys, w: Writer, st: Status)
    requires GateInv(s) && CollectedInv(s) && Resting(s, st)
    ensures Resting(WriteStep(s, w), st)
  {
    match w
    case TaskWriter =>
    case KillWriter(k) => assert k in s.killers && PastGate(s.killers[k].pc) ==> s.past.gate == Some(k);
    case PollWriter(p) =>
  }

  lemma StepRests(s: Sys, a: Action, st: Status)
    requires Inv(s) && Resting(s, st)
    ensures Resting(Step(s, a), st)
  {
    match a
    case Commit(w) => WritesLeaveResting(s, w, st);
    case ByKiller(k, ka) => KillersLeaveResting(s, k, ka, st);
    case _ => OthersLeaveResting(s, a, st);
  }

  lemma {:induction false} RunRests(s: Sys, more: seq<Action>, st: Status)
    requires Inv(s) && Resting(s, st)
    ensures Inv(Exec(s, more)) && Resting(Exec(s, more), st)
  {
    if more != [] {
      var shorter := more[..|more| - 1];
      RunRests(s, shorter, st);
      StepKeeps(Exec(s, shorter), more[|more| - 1]);
      StepRests(Exec(s, shorter), more[|more| - 1], st);
    }
  }

  // ----- A killer that is left can finish

  /** Up to the first signal, with the config found and the connection up; steps that are over
      already change nothing. */
  function ReadyRun(k: nat): seq<Action> {
    [ByKiller(k, Dispatch), ByKiller(k, Read(true)), ByKiller(k, Connect(true))]
  }

  /** Between reading and connecting, or already signalling. */
  predicate PastDispatch(pc: KillPc) {
    pc.Signalling? || pc.Reading? || pc.Connecting?
  }

  lemma DispatchAdvances(s: Sys, k: nat)
    requires k in s.killers && BetweenGateAndFinish(s.killers[k].pc)
    ensures var n := KillStep(s, k, Dispatch); n.cell == s.cell && k in n.killers && PastDispatch(n.killers[k].pc)
  {
  }

  lemma ReadAdvances(s: Sys, k: nat)
    requires k in s.killers && s.cell.Some? && PastDispatch(s.killers[k].pc)
    ensures var n := KillStep(s, k, Read(true));
            && n.cell == s.cell && k in n.killers
            && (n.killers[k].pc.Signalling? || n.killers[k].pc.Connecting?)
  {
  }

  lemma ConnectAdvances(s: Sys, k: nat)
    requires k in s.killers && (s.killers[k].pc.Signalling? || s.killers[k].pc.Connecting?)
    ensures var n := KillStep(s, k, Connect(true)); n.cell == s.cell && k in n.killers && n.killers[k].pc.Signalling?
  {
  }

  lemma KillerReadies(s: Sys, k: nat)
    requires k in s.killers && s.cell.Some? && BetweenGateAndFinish(s.killers[k].pc)
    ensures var n := Exec(s, ReadyRun(k)); n.cell == s.cell && k in n.killers && n.killers[k].pc.Signalling?
  {
    ExecThree(s, ByKiller(k, Dispatch), ByKiller(k, Read(true)), ByKiller(k, Connect(true)));
    DispatchAdvances(s, k);
    var a := KillStep(s, k, Dispatch);
    ReadAdvances(a, k);
    ConnectAdvances(KillStep(a, k, Read(true)), k);
  }

  /** The signals, none getting through, and the last write. */
  function LastRun(k: nat, pgids: seq<int>): seq<Action> {
    Signals(k, pgids, _ => Dropped) + [Commit(KillWriter(k))]
  }

  lemma SignallerKills(s: Sys, k: nat)
    requires k in s.killers && s.cell.Some? && s.killers[k].pc.Signalling?
    ensures StatusOf(Exec(s, LastRun(k, s.killers[k].pc.rest))) == Some(Killed)
  {
    var signals := Signals(k, s.killers[k].pc.rest, _ => Dropped);
    SignalsSend(s, k, _ => Dropped);
    ExecConcat(s, signals, [Commit(KillWriter(k))]);
    ExecOne(Exec(s, signals), Commit(KillWriter(k)));
    MarksKilled(Exec(s, signals), k);
  }

  /** A killer past the gate and at work can still put KILLED over whatever is stored. */
  lemma FinaleKills(s: Sys, k: nat) returns (more: seq<Action>)
    requires k in s.killers && s.cell.Some? && BetweenGateAndFinish(s.killers[k].pc)
    ensures StatusOf(Exec(s, more)) == Some(Killed)
  {
    KillerReadies(s, k);
    var ready := Exec(s, ReadyRun(k));
    SignallerKills(ready, k);
    ExecConcat(s, ReadyRun(k), LastRun(k, ready.killers[k].pc.rest));
    more := ReadyRun(k) + LastRun(k, ready.killers[k].pc.rest);
  }

  lemma WinnerIsAtWork(s: Sys)
    requires GateInv(s) && WinnerInv(s) && Finished(s) && !NobodyLeft(s)
    ensures s.past.gate.value in s.killers && BetweenGateAndFinish(s.killers[s.past.gate.value].pc)
  {
    assert PastGate(s.killers[s.past.gate.value].pc);
  }

  /** A reachable SUCCESS or FAILED is final if and only if no killer has passed the gate, or the
      one that has is stranded. */
  lemma FinalExactly(cfg: Config, start: int, run: seq<Action>)
    requires ValidConfig(cfg) && Finished(Exec(Init(cfg, start), run))
    ensures var s := Exec(Init(cfg, start), run); Final(s) <==> NobodyLeft(s)
  {
    Reachable(cfg, start, run);
    var s := Exec(Init(cfg, start), run);
    if NobodyLeft(s) {
      forall more: seq<Action>
        ensures Exec(s, more).cell.Some? ==> StatusOf(Exec(s, more)) == StatusOf(s)
      {
        RunRests(s, more, StatusOf(s).value);
      }
    } else {
      WinnerIsAtWork(s);
      var more := FinaleKills(s, s.past.gate.value);
      assert StatusOf(Exec(s, more)) != StatusOf(s);
    }
  }

  // ----- A run that ends in SUCCESS and then KILLED

  const LAUNCH: seq<Action> := [Do(PoolAdd), Do(SaveInitial(true)), Do(Acquire), OnRemote(Start)]
  const GUARDS: seq<Action> := [ByKiller(0, Begin(true, true, "")), ByKiller(0, Guard), ByKiller(0, CheckConfig(true))]
  const FLIP: seq<Action> := [Commit(KillWriter(0)), ByKiller(0, Dispatch)]
  const LOOK: seq<Action> := [ByPoller(0, BeginPoll), ByPoller(0, Fetch), ByPoller(0, LookAtMarker(true, None))]
  const HEAL: seq<Action> := LOOK + [Commit(PollWriter(0))]

  function ScriptEnds(): seq<Action> {
    [OnRemote(Exit(0)), OnRemote(WriteTmp(|MarkerText(0)|)), OnRemote(Rename)]
  }

  /** A forced kill flips the record while the script ends by itself; a poll heals it, and the
      killer's last write follows. */
  function HealedThenKilled(): seq<Action> {
    LAUNCH + (ScriptEnds() + (GUARDS + (FLIP + HEAL))) + [Commit(KillWriter(0))]
  }

  /** The script at work, its task spawning, nobody else there yet. */
  predicate Launched(s: Sys, cfg: Config) {
    && s.cfg == cfg && s.pod.task == Spawning && s.pod.pooled && s.pod.pgids == []
    && s.script == Script(Working, None, None, None)
    && s.killers == map[] && s.pollers == map[]
    && s.cell.Some? && s.cell.value.rec == InitialRecord(cfg)
  }

  lemma Launches(cfg: Config)
    requires cfg.timeout + 30 > 0
    ensures Launched(Exec(Init(cfg, 0), LAUNCH), cfg)
  {
    ExecFour(Init(cfg, 0), Do(PoolAdd), Do(SaveInitial(true)), Do(Acquire), OnRemote(Start));
  }

  lemma EndsWithMarker(s: Sys)
    requires s.script == Script(Working, None, None, None) && s.cfg.logged
    ensures Exec(s, ScriptEnds()) == s.(script := Script(Trapping, Some(0), None, Some(MarkerText(0))))
  {
    ExecThree(s, OnRemote(Exit(0)), OnRemote(WriteTmp(|MarkerText(0)|)), OnRemote(Rename));
    assert MarkerText(0)[..|MarkerText(0)|] == MarkerText(0);
  }

  lemma ForcedToGate(s: Sys)
    requires s.killers == map[] && s.pod.pooled
    ensures Exec(s, GUARDS) == s.(killers := map[0 := Killer(true, true, "", Gating)])
  {
    ExecThree(s, ByKiller(0, Begin(true, true, "")), ByKiller(0, Guard), ByKiller(0, CheckConfig(true)));
    var a := KillStep(s, 0, Begin(true, true, ""));
    assert a == s.(killers := map[0 := Killer(true, true, "", Guarding)]);
    var b := KillStep(a, 0, Guard);
    assert b == s.(killers := map[0 := Killer(true, true, "", CheckingConfig)]);
  }

  lemma FlipsRecord(s: Sys)
    requires s.killers == map[0 := Killer(true, true, "", Gating)] && s.pod.pooled && s.pod.pgids == []
    requires StatusOf(s) == Some(Running)
    ensures var n := Exec(s, FLIP);
            && n.cfg == s.cfg && n.script == s.script && n.pollers == s.pollers
            && n.cell.Some? && n.cell.value.rec == s.cell.value.rec.MarkKilling("")
            && n.killers == map[0 := Killer(true, true, "", Signalling([]))]
  {
    ExecTwo(s, Commit(KillWriter(0)), ByKiller(0, Dispatch));
    var flipped := WriteStep(s, KillWriter(0));
    assert flipped.killers == map[0 := Killer(true, true, "", Dispatching)];
  }

  lemma Looks(s: Sys)
    requires s.pollers == map[] && s.script.exitFile == Some(MarkerText(0))
    requires s.cell.Some? && Healable(s.cell.value.rec)
    ensures Exec(s, LOOK) == s.(pollers := map[0 := Healing(0, None)])
  {
    ExecThree(s, ByPoller(0, BeginPoll), ByPoller(0, Fetch), ByPoller(0, LookAtMarker(true, None)));
    MarkerRoundTrip(0);
    var a := PollStep(s, 0, BeginPoll);
    assert a == s.(pollers := map[0 := Fetching]);
    var b := PollStep(a, 0, Fetch);
    assert b == s.(pollers := map[0 := ReadingMarker(s.cell.value.rec)]);
  }

  lemma Heals(s: Sys)
    requires s.pollers == map[] && s.script.exitFile == Some(MarkerText(0))
    requires s.cell.Some? && s.cell.value.rec.status == Killing && Healable(s.cell.value.rec)
    ensures var n := Exec(s, HEAL); StatusOf(n) == Some(Success) && n.killers == s.killers
  {
    Looks(s);
    assert HEAL[..|HEAL| - 1] == LOOK;
    assert Exec(s, HEAL) == WriteStep(Exec(s, LOOK), PollWriter(0));
  }

  lemma FlippedAndHealed(s: Sys, cfg: Config)
    requires Launched(s, cfg) && ValidConfig(cfg) && cfg.logged
    ensures var n := Exec(s, ScriptEnds() + (GUARDS + (FLIP + HEAL)));
            StatusOf(n) == Some(Success) && n.killers == map[0 := Killer(true, true, "", Signalling([]))]
  {
    var ended := Exec(s, ScriptEnds());
    EndsWithMarker(s);
    ForcedToGate(ended);
    var gating := Exec(ended, GUARDS);
    FlipsRecord(gating);
    Heals(Exec(gating, FLIP));
    ExecConcat(gating, FLIP, HEAL);
    ExecConcat(ended, GUARDS, FLIP + HEAL);
    ExecConcat(s, ScriptEnds(), GUARDS + (FLIP + HEAL));
  }

  /** Whatever logged Run it is, this run shows SUCCESS and then KILLED. */
  lemma SuccessBecomesKilled(cfg: Config)
    requires ValidConfig(cfg) && cfg.logged && cfg.timeout + 30 > 0
    ensures var run := HealedThenKilled();
            && StatusOf(At(cfg, 0, run, |run| - 1)) == Some(Success)
            && StatusOf(Exec(Init(cfg, 0), run)) == Some(Killed)
  {
    var run, rest := HealedThenKilled(), ScriptEnds() + (GUARDS + (FLIP + HEAL));
    Launches(cfg);
    var launched := Exec(Init(cfg, 0), LAUNCH);
    FlippedAndHealed(launched, cfg);
    ExecConcat(Init(cfg, 0), LAUNCH, rest);
    assert run[..|run| - 1] == LAUNCH + rest && run[|run| - 1] == Commit(KillWriter(0));
    var healed := Exec(launched, rest);
    MarksKilled(healed, 0);
    assert Exec(Init(cfg, 0), run) == Step(healed, Commit(KillWriter(0)));
  }
}
