/** What a task that is over has left in the record. */
module Leftovers {
  import opened Wrappers
  import opened CommandDomain
  import opened RunProtocol
  import opened RunInvariants
  import opened RunTheorems

  predicate Over(t: Task) {
    t.Cleaning? || t.Ended?
  }

  /** While the task is timing out, its kill call stands for what the task will leave. */
  predicate TimeoutInv(s: Sys) {
    s.pod.task.TimingOut? ==>
      && s.pod.task.killer in s.killers
      && var kl := s.killers[s.pod.task.killer];
         && !kl.force && kl.onLauncher
         && kl.pc != Stopped(ConfigMissing)
         && (kl.pc == Stopped(Refused) ==> !s.cfg.killable)
         && (kl.pc == Stopped(Unknown) ==> s.cell.None?)
         && (kl.pc == Stopped(LostGate) ==> s.past.left)
  }

  lemma TaskKeepsTimeout(s: Sys, t: TaskAction)
    requires LaunchInv(s) && TimeoutInv(s)
    ensures TimeoutInv(TaskStep(s, t))
  {
  }

  lemma KillKeepsTimeout(s: Sys, k: nat, ka: KillAction)
    requires LaunchInv(s) && TimeoutInv(s)
    ensures TimeoutInv(KillStep(s, k, ka))
  {
  }

  lemma WriteKeepsTimeout(s: Sys, w: Writer)
    requires GateInv(s) && TimeoutInv(s)
    ensures TimeoutInv(WriteStep(s, w))
  {
  }

  lemma StepKeepsTimeout(s: Sys, a: Action)
    requires LaunchInv(s) && GateInv(s) && TimeoutInv(s)
    ensures TimeoutInv(Step(s, a))
  {
    match a
    case Do(t) => TaskKeepsTimeout(s, t);
    case ByKiller(k, ka) => KillKeepsTimeout(s, k, ka);
    case Commit(w) => WriteKeepsTimeout(s, w);
    case _ =>
  }

  lemma {:induction false} TimeoutReachable(cfg: Config, start: int, run: seq<Action>)
    requires ValidConfig(cfg)
    ensures TimeoutInv(Exec(Init(cfg, start), run))
  {
    if run != [] {
      var shorter := run[..|run| - 1];
      TimeoutReachable(cfg, start, shorter);
      Reachable(cfg, start, shorter);
      StepKeepsTimeout(Exec(Init(cfg, start), shorter), run[|run| - 1]);
    }
  }

  /** A call as a timeout makes it, that was refused because the Run is protected, or that broke off
      before it flipped the record. */
  predicate LetGo(cfg: Config, kl: Killer) {
    && !kl.force && kl.onLauncher
    && ((kl.pc == Stopped(Refused) && !cfg.killable) || kl.pc == Stopped(GaveUp))
  }

  predicate Excused(s: Sys) {
    exists k :: k in s.killers && LetGo(s.cfg, s.killers[k])
  }

  predicate LeftRunning(s: Sys) {
    Over(s.pod.task) && StatusOf(s) == Some(Running)
  }

  lemma TaskLeaves(s: Sys, t: TaskAction)
    requires LaunchInv(s) && GateInv(s) && TimeoutInv(s) && LeftRunning(TaskStep(s, t))
    ensures LeftRunning(s) || t.StoreFails? || Excused(s)
  {
    if t.Resume? && s.pod.task.TimingOut? {
      var k := s.pod.task.killer;
      assert s.killers[k].pc.Stopped? && !PastGate(s.killers[k].pc);
      assert LetGo(s.cfg, s.killers[k]);
    }
  }

  /** The result write itself leaves nothing RUNNING, and nobody makes a record RUNNING again. */
  lemma WriteLeaves(s: Sys, w: Writer)
    requires CollectedInv(s) && LeftRunning(WriteStep(s, w))
    ensures LeftRunning(s)
  {
  }

  lemma StepLeaves(s: Sys, a: Action)
    requires LaunchInv(s) && GateInv(s) && CollectedInv(s) && TimeoutInv(s) && LeftRunning(Step(s, a))
    ensures LeftRunning(s) || a == Do(StoreFails) || Excused(s)
  {
    match a
    case Do(t) => TaskLeaves(s, t);
    case Commit(w) => WriteLeaves(s, w);
    case _ =>
  }

  lemma ExcuseLasts(s: Sys, a: Action)
    requires Excused(s)
    ensures Excused(Step(s, a))
  {
    var k :| k in s.killers && LetGo(s.cfg, s.killers[k]);
    StepKeepsConfig(s, a);
    StoppedStays(s, a, k);
  }

  lemma StoppedStays(s: Sys, a: Action, k: nat)
    requires k in s.killers && s.killers[k].pc.Stopped?
    ensures k in Step(s, a).killers && Step(s, a).killers[k] == s.killers[k]
  {
    match a
    case Commit(w) => WriteLeavesStopped(s, w, k);
    case _ =>
  }

  lemma WriteLeavesStopped(s: Sys, w: Writer, k: nat)
    requires k in s.killers && s.killers[k].pc.Stopped?
    ensures k in WriteStep(s, w).killers && WriteStep(s, w).killers[k] == s.killers[k]
  {
  }

  /** A task that is over has left a record that is still there RUNNING only if its timeout was let
      go by a protected Run or by a call that broke off, or if storing its failure raised. */
  lemma {:induction false} LeftRunningExplained(cfg: Config, start: int, run: seq<Action>)
    requires ValidConfig(cfg) && LeftRunning(Exec(Init(cfg, start), run))
    ensures Excused(Exec(Init(cfg, start), run)) || Do(StoreFails) in run
  {
    var shorter, a := run[..|run| - 1], run[|run| - 1];
    var s := Exec(Init(cfg, start), shorter);
    Reachable(cfg, start, shorter);
    TimeoutReachable(cfg, start, shorter);
    StepLeaves(s, a);
    if LeftRunning(s) {
      LeftRunningExplained(cfg, start, shorter);
    }
    if Excused(s) {
      ExcuseLasts(s, a);
    }
  }
}
