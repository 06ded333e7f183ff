/** A run of the repository as it is coded that undoes a finished kill. */
module SplitRaces {
  import opened Wrappers
  import opened CommandDomain
  import opened RunProtocol
  import opened SplitStore
  import opened Finality

  function Plainly(acts: seq<Action>): (r: seq<SplitAction>)
    ensures |r| == |acts| && forall i :: 0 <= i < |acts| ==> r[i] == Plain(acts[i])
  {
    seq(|acts|, i requires 0 <= i < |acts| => Plain(acts[i]))
  }

  /** Steps of actors that are not between a read and a write are the protocol's steps. */
  lemma {:induction false} PlainlyRuns(s: Split, acts: seq<Action>)
    requires forall a :: a in acts ==> !a.Commit? && (ActorOf(a).Some? ==> ActorOf(a).value !in s.pending)
    ensures var n := SplitExec(s, Plainly(acts)); n.sys == Exec(s.sys, acts) && n.pending == s.pending
  {
    if acts != [] {
      var shorter := acts[..|acts| - 1];
      PlainlyRuns(s, shorter);
      assert Plainly(acts)[..|acts| - 1] == Plainly(shorter);
      assert acts[|acts| - 1] in acts;
      OneStepRuns(SplitExec(s, Plainly(shorter)), acts[|acts| - 1]);
    }
  }

  lemma OneStepRuns(s: Split, a: Action)
    requires !a.Commit? && (ActorOf(a).Some? ==> ActorOf(a).value !in s.pending)
    ensures PlainStep(s, a).sys == Step(s.sys, a) && PlainStep(s, a).pending == s.pending
  {
  }

  lemma {:induction false} SplitConcat(s: Split, xs: seq<SplitAction>, ys: seq<SplitAction>)
    ensures SplitExec(s, xs + ys) == SplitExec(SplitExec(s, xs), ys)
  {
    if ys == [] {
      assert xs + ys == xs;
    } else {
      var front := ys[..|ys| - 1];
      SplitConcat(s, xs, front);
      assert (xs + ys)[..|xs + ys| - 1] == xs + front;
    }
  }

  function Atomically(w: Writer): seq<SplitAction> {
    [GetFor(w), SaveFor(w)]
  }

  /** A read with its write right after it is the atomic operation. */
  lemma AtomicallyRuns(s: Split, w: Writer)
    requires w !in s.pending && WriteOf(s.sys, w).Some? && !EndsAtRead(s.sys, w)
    ensures var n := SplitExec(s, Atomically(w)); n.sys == WriteStep(s.sys, w) && n.pending == s.pending
  {
    var acts := Atomically(w);
    assert acts[..1] == [GetFor(w)] && [GetFor(w)][..0] == [];
    var got := GetStep(s, w);
    assert SplitExec(s, acts[..1]) == got;
    assert SplitExec(s, acts) == SaveStep(got, w);
    assert s.pending[w := got.pending[w]] - {w} == s.pending;
  }

  // ----- The run

  const COLLECT: seq<Action> := [Do(Spawned([])), OnRemote(Exit(0)), OnRemote(Leave), Do(Collect(Some(0), "", None))]

  /** The task reads RUNNING for its result; a forced kill goes all the way; the task writes. */
  function Prelude(): seq<SplitAction> {
    Plainly(LAUNCH + COLLECT) + [GetFor(TaskWriter)]
  }

  function ForcedKill(): seq<SplitAction> {
    Plainly(GUARDS) + (Atomically(KillWriter(0)) + (Plainly([ByKiller(0, Dispatch)]) + Atomically(KillWriter(0))))
  }

  function UndoneKill(): seq<SplitAction> {
    Prelude() + ForcedKill() + [SaveFor(TaskWriter)]
  }

  lemma Collects(s: Sys, cfg: Config)
    requires Launched(s, cfg)
    ensures var n := Exec(s, COLLECT);
            && n.pod.task == Storing(Succeed(0, "")) && n.pod.pooled && n.pod.pgids == []
            && n.killers == map[] && n.cell == s.cell
  {
    ExecFour(s, Do(Spawned([])), OnRemote(Exit(0)), OnRemote(Leave), Do(Collect(Some(0), "", None)));
    var a := TaskStep(s, Spawned([]));
    var b := RemoteStep(a, Exit(0));
    var c := RemoteStep(b, Leave);
    assert a.pod.task == Collecting && c.pod == a.pod && c.script.phase == Gone(true) && c.script.exitCode == Some(0);
    assert CanCollect(c.script, Some(0));
    assert FastResult(Some(0), StoredOutput(cfg.logged, true, "", None)) == Succeed(0, "");
  }

  /** The task has read RUNNING and is about to write SUCCESS; nobody else is there. */
  predicate ReadRunning(s: Split) {
    && s.sys.pod.task == Storing(Succeed(0, "")) && s.sys.pod.pooled && s.sys.pod.pgids == []
    && s.sys.killers == map[] && StatusOf(s.sys) == Some(Running)
    && s.pending.Keys == {TaskWriter}
  }

  lemma PreludeReads(cfg: Config)
    requires cfg.timeout + 30 > 0
    ensures ReadRunning(SplitExec(SplitInit(cfg, 0), Prelude()))
  {
    var s0 := SplitInit(cfg, 0);
    Launches(cfg);
    Collects(Exec(Init(cfg, 0), LAUNCH), cfg);
    ExecConcat(Init(cfg, 0), LAUNCH, COLLECT);
    PlainlyRuns(s0, LAUNCH + COLLECT);
    var collected := SplitExec(s0, Plainly(LAUNCH + COLLECT));
    assert Prelude()[..|Prelude()| - 1] == Plainly(LAUNCH + COLLECT);
    assert SplitExec(s0, Prelude()) == GetStep(collected, TaskWriter);
  }

  lemma FlipsAtomically(s: Split)
    requires s.sys.killers == map[0 := Killer(true, true, "", Gating)] && StatusOf(s.sys) == Some(Running)
    requires KillWriter(0) !in s.pending
    ensures var n := SplitExec(s, Atomically(KillWriter(0)));
            && n.sys.killers == map[0 := Killer(true, true, "", Dispatching)] && n.sys.cell.Some?
            && n.sys.pod == s.sys.pod && n.pending == s.pending
  {
    AtomicallyRuns(s, KillWriter(0));
  }

  lemma KillsAtomically(s: Split)
    requires s.sys.killers == map[0 := Killer(true, true, "", Signalling([]))] && s.sys.cell.Some?
    requires KillWriter(0) !in s.pending
    ensures var n := SplitExec(s, Atomically(KillWriter(0)));
            StatusOf(n.sys) == Some(Killed) && n.sys.pod == s.sys.pod && n.pending == s.pending
  {
    AtomicallyRuns(s, KillWriter(0));
  }

  /** From the flip to the last write. */
  lemma DispatchAndKill(s: Split)
    requires s.sys.killers == map[0 := Killer(true, true, "", Dispatching)] && s.sys.cell.Some?
    requires s.sys.pod.pooled && s.sys.pod.pgids == [] && KillWriter(0) !in s.pending
    ensures var n := SplitExec(s, Plainly([ByKiller(0, Dispatch)]) + Atomically(KillWriter(0)));
            StatusOf(n.sys) == Some(Killed) && n.sys.pod == s.sys.pod && n.pending == s.pending
  {
    PlainlyRuns(s, [ByKiller(0, Dispatch)]);
    DispatchesLocally(s.sys);
    KillsAtomically(SplitExec(s, Plainly([ByKiller(0, Dispatch)])));
    SplitConcat(s, Plainly([ByKiller(0, Dispatch)]), Atomically(KillWriter(0)));
  }

  lemma KillFinishes(s: Split)
    requires ReadRunning(s)
    ensures var n := SplitExec(s, ForcedKill());
            && StatusOf(n.sys) == Some(Killed) && n.pending == s.pending
            && n.sys.pod.task == Storing(Succeed(0, ""))
  {
    PlainlyRuns(s, GUARDS);
    ForcedToGate(s.sys);
    var gating := SplitExec(s, Plainly(GUARDS));
    FlipsAtomically(gating);
    DispatchAndKill(SplitExec(gating, Atomically(KillWriter(0))));
    var rest := Plainly([ByKiller(0, Dispatch)]) + Atomically(KillWriter(0));
    SplitConcat(gating, Atomically(KillWriter(0)), rest);
    SplitConcat(s, Plainly(GUARDS), Atomically(KillWriter(0)) + rest);
  }

  lemma DispatchesLocally(s: Sys)
    requires s.killers == map[0 := Killer(true, true, "", Dispatching)] && s.pod.pooled && s.pod.pgids == []
    ensures Exec(s, [ByKiller(0, Dispatch)]) == s.(killers := map[0 := Killer(true, true, "", Signalling([]))])
  {
    assert [ByKiller(0, Dispatch)][..0] == [];
    assert Exec(s, [ByKiller(0, Dispatch)]) == KillStep(s, 0, Dispatch);
  }

  /** Whatever Run it is: the record shows KILLED, and then SUCCESS. */
  lemma KillIsUndone(cfg: Config)
    requires cfg.timeout + 30 > 0
    ensures var run := UndoneKill();
            && StatusOf(SplitExec(SplitInit(cfg, 0), run[..|run| - 1]).sys) == Some(Killed)
            && StatusOf(SplitExec(SplitInit(cfg, 0), run).sys) == Some(Success)
  {
    var run := UndoneKill();
    PreludeReads(cfg);
    var read := SplitExec(SplitInit(cfg, 0), Prelude());
    KillFinishes(read);
    SplitConcat(SplitInit(cfg, 0), Prelude(), ForcedKill());
    assert run[..|run| - 1] == Prelude() + ForcedKill();
    var killed := SplitExec(read, ForcedKill());
    assert SplitExec(SplitInit(cfg, 0), run) == SaveStep(killed, TaskWriter);
  }
}
