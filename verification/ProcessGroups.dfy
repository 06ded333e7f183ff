/** Where the process groups of a Run are kept, and whom a kill signals. */
module ProcessGroups {
  import opened Wrappers
  import opened CommandDomain
  import opened RunProtocol
  import opened RunInvariants
  import opened RunTheorems
  import opened CommandLifecycle

  // ----- The record's groups

  /** Nothing has been spawned yet. */
  predicate BeforeSpawn(t: Task) {
    BeforeSave(t) || t.Queued? || t.Spawning?
  }

  /** The process-group write, if one was due, lies behind the task. */
  predicate PastGroups(t: Task) {
    t.Collecting? || t.Backfilling? || t.Storing?
  }

  /** The record has no groups before the write and the spawned ones after it, and never any others. */
  predicate GroupsInv(s: Sys) {
    && (BeforeSpawn(s.pod.task) ==> s.pod.pgids == [])
    && (s.cell.Some? ==>
          var groups := s.cell.value.rec.pgids;
          && (groups == [] || groups == s.pod.pgids)
          && (BeforeSpawn(s.pod.task) || s.pod.task.WritingPgids? ==> groups == [])
          && (PastGroups(s.pod.task) ==> groups == s.pod.pgids))
  }

  lemma TaskKeepsGroups(s: Sys, t: TaskAction)
    requires LaunchInv(s) && GroupsInv(s)
    ensures GroupsInv(TaskStep(s, t))
  {
  }

  lemma TaskWriteKeepsGroups(s: Sys)
    requires CollectedInv(s) && GroupsInv(s)
    ensures GroupsInv(WriteStep(s, TaskWriter))
  {
  }

  lemma KillWriteKeepsGroups(s: Sys, k: nat)
    requires GroupsInv(s)
    ensures GroupsInv(WriteStep(s, KillWriter(k)))
  {
  }

  lemma PollWriteKeepsGroups(s: Sys, p: nat)
    requires GroupsInv(s)
    ensures GroupsInv(WriteStep(s, PollWriter(p)))
  {
  }

  lemma StepKeepsGroups(s: Sys, a: Action)
    requires LaunchInv(s) && CollectedInv(s) && GroupsInv(s)
    ensures GroupsInv(Step(s, a))
  {
    match a
    case Do(t) => TaskKeepsGroups(s, t);
    case Commit(w) =>
      match w {
        case TaskWriter => TaskWriteKeepsGroups(s);
        case KillWriter(k) => KillWriteKeepsGroups(s, k);
        case PollWriter(p) => PollWriteKeepsGroups(s, p);
      }
    case _ =>
  }

  /** In every reachable state. */
  lemma {:induction false} ReachableGroups(cfg: Config, start: int, run: seq<Action>)
    requires ValidConfig(cfg)
    ensures GroupsInv(Exec(Init(cfg, start), run))
  {
    if run != [] {
      var shorter := run[..|run| - 1];
      ReachableGroups(cfg, start, shorter);
      Reachable(cfg, start, shorter);
      StepKeepsGroups(Exec(Init(cfg, start), shorter), run[|run| - 1]);
    }
  }

  // ----- The signals

  /** Without the stamps of their senders. */
  function Plain(stamped: seq<(nat, Signal)>): seq<Signal> {
    seq(|stamped|, i requires 0 <= i < |stamped| => stamped[i].1)
  }

  /** The groups that any call ever sent a TERM, in order. */
  function TermedSoFar(s: Sys): seq<int> {
    Termed(Plain(s.past.signals))
  }

  /** Every KILL comes right after a TERM to the same group. */
  predicate TermFirst(sigs: seq<Signal>) {
    forall i :: 0 <= i < |sigs| && sigs[i].Kill? ==> i > 0 && sigs[i - 1] == Term(sigs[i].pgid)
  }

  /** Only to groups of the Run. */
  predicate OwnGroups(s: Sys, groups: seq<int>) {
    forall i :: 0 <= i < |groups| ==> groups[i] in s.pod.pgids
  }

  /** What a killer still has to signal is the Run's. */
  predicate OwnTargets(s: Sys, pc: KillPc) {
    match pc
    case Connecting(groups) => OwnGroups(s, groups)
    case Signalling(rest) => OwnGroups(s, rest)
    case _ => true
  }

  predicate SignalsInv(s: Sys) {
    && TermFirst(Plain(s.past.signals))
    && OwnGroups(s, TermedSoFar(s))
    && forall k :: k in s.killers ==> OwnTargets(s, s.killers[k].pc)
  }

  lemma TaskKeepsSignals(s: Sys, t: TaskAction)
    requires LaunchInv(s) && GroupsInv(s) && SignalsInv(s)
    ensures SignalsInv(TaskStep(s, t))
  {
    TaskKeepsKnown(s, t);
    var n := TaskStep(s, t);
    assert TermedSoFar(n) == TermedSoFar(s);
    forall k | k in n.killers
      ensures OwnTargets(n, n.killers[k].pc)
    {
      assert k in s.killers ==> OwnTargets(s, s.killers[k].pc);
    }
  }

  lemma SentIsTermFirst(pgid: int, how: Delivery)
    ensures TermFirst(Sent(pgid, how))
  {
  }

  lemma TermFirstConcat(a: seq<Signal>, b: seq<Signal>)
    requires TermFirst(a) && TermFirst(b)
    ensures TermFirst(a + b)
  {
    forall i | 0 <= i < |a + b| && (a + b)[i].Kill?
      ensures i > 0 && (a + b)[i - 1] == Term((a + b)[i].pgid)
    {
      if i < |a| {
        assert a[i].Kill? && (a + b)[i - 1] == a[i - 1];
      } else {
        assert b[i - |a|].Kill? && (a + b)[i - 1] == b[i - |a| - 1];
      }
    }
  }

  lemma SentInPhases(sigs: seq<Signal>, pgid: int, how: Delivery)
    requires TermFirst(sigs)
    ensures TermFirst(sigs + Sent(pgid, how))
    ensures Termed(sigs + Sent(pgid, how)) == Termed(sigs) + if how.Dropped? then [] else [pgid]
  {
    SentIsTermFirst(pgid, how);
    TermFirstConcat(sigs, Sent(pgid, how));
    TermedConcat(sigs, Sent(pgid, how));
    TermedOfSent(pgid, how);
  }

  lemma SignalKeepsSignals(s: Sys, k: nat, how: Delivery)
    requires SignalsInv(s) && k in s.killers
    ensures SignalsInv(KillStep(s, k, SignalNext(how)))
  {
    var pc := s.killers[k].pc;
    if pc.Signalling? && pc.rest != [] {
      assert OwnTargets(s, pc);
      PlainAppends(s.past.signals, k, Sent(pc.rest[0], how));
      SentInPhases(Plain(s.past.signals), pc.rest[0], how);
      var n := KillStep(s, k, SignalNext(how));
      assert OwnTargets(n, Signalling(pc.rest[1..]));
      assert forall j :: j in s.killers && j != k ==> OwnTargets(n, s.killers[j].pc);
    }
  }

  lemma KillKeepsSignals(s: Sys, k: nat, ka: KillAction)
    requires GroupsInv(s) && SignalsInv(s)
    ensures SignalsInv(KillStep(s, k, ka))
  {
    if ka.SignalNext? {
      if k in s.killers {
        SignalKeepsSignals(s, k, ka.how);
      }
    } else {
      var n := KillStep(s, k, ka);
      assert TermedSoFar(n) == TermedSoFar(s);
      assert forall j :: j in n.killers && j != k ==> n.killers[j] == s.killers[j] && OwnTargets(s, s.killers[j].pc);
      assert k in s.killers ==> OwnTargets(s, s.killers[k].pc);
    }
  }

  lemma WriteKeepsSignals(s: Sys, w: Writer)
    requires CollectedInv(s) && GroupsInv(s) && SignalsInv(s)
    ensures SignalsInv(WriteStep(s, w))
  {
    var n := WriteStep(s, w);
    if !w.KillWriter? {
      OtherWriteSendsNothing(s, w);
    } else if w.k in s.killers {
      KillWriteSendsNothing(s, w.k);
    }
    assert TermedSoFar(n) == TermedSoFar(s);
    assert forall j :: j in s.killers ==> OwnTargets(s, s.killers[j].pc);
  }

  lemma TaskWriteSendsNothing(s: Sys)
    requires CollectedInv(s) && GroupsInv(s)
    ensures var n := WriteStep(s, TaskWriter);
            && n.past.signals == s.past.signals && n.past.gate == s.past.gate && n.killers == s.killers
            && n.pod.pgids == s.pod.pgids && (Known(s) ==> Known(n))
  {
  }

  /** Writes of tasks and polls leave killers and signals alone. */
  lemma OtherWriteSendsNothing(s: Sys, w: Writer)
    requires CollectedInv(s) && GroupsInv(s) && !w.KillWriter?
    ensures var n := WriteStep(s, w);
            && n.past.signals == s.past.signals && n.past.gate == s.past.gate && n.killers == s.killers
            && n.pod.pgids == s.pod.pgids && (Known(s) ==> Known(n))
  {
    if w.TaskWriter? {
      TaskWriteSendsNothing(s);
    }
  }

  /** A killer's write sends nothing and gives it no target. */
  lemma KillWriteSendsNothing(s: Sys, k: nat)
    requires k in s.killers
    ensures var n := WriteStep(s, KillWriter(k));
            && n.past.signals == s.past.signals && n.pod == s.pod && (Known(s) ==> Known(n))
            && n.killers == s.killers[k := n.killers[k]]
            && (n.killers[k].pc == s.killers[k].pc || n.killers[k].pc.Dispatching? || n.killers[k].pc.Stopped?)
  {
  }

  lemma StepKeepsSignals(s: Sys, a: Action)
    requires LaunchInv(s) && CollectedInv(s) && GroupsInv(s) && SignalsInv(s)
    ensures SignalsInv(Step(s, a))
  {
    match a
    case Do(t) => TaskKeepsSignals(s, t);
    case ByKiller(k, ka) => KillKeepsSignals(s, k, ka);
    case Commit(w) => WriteKeepsSignals(s, w);
    case _ => assert TermedSoFar(Step(s, a)) == TermedSoFar(s);
  }

  /** Over any run, only process groups that this Run's task spawned are ever signalled, and no
      KILL comes without a TERM to the same group right before it. */
  lemma {:induction false} SignalsHitOwnGroups(cfg: Config, start: int, run: seq<Action>)
    requires ValidConfig(cfg)
    ensures var s := Exec(Init(cfg, start), run);
            && SignalsInv(s)
            && forall i :: 0 <= i < |s.past.signals| ==> s.past.signals[i].1.pgid in s.pod.pgids
  {
    if run != [] {
      var shorter := run[..|run| - 1];
      SignalsHitOwnGroups(cfg, start, shorter);
      Reachable(cfg, start, shorter);
      ReachableGroups(cfg, start, shorter);
      StepKeepsSignals(Exec(Init(cfg, start), shorter), run[|run| - 1]);
    }
    AllAreOwn(Exec(Init(cfg, start), run));
  }

  lemma AllAreOwn(s: Sys)
    requires SignalsInv(s)
    ensures forall i :: 0 <= i < |s.past.signals| ==> s.past.signals[i].1.pgid in s.pod.pgids
  {
    var sigs := Plain(s.past.signals);
    TermedHolds(sigs);
    forall i | 0 <= i < |s.past.signals|
      ensures s.past.signals[i].1.pgid in s.pod.pgids
    {
      assert sigs[i] == s.past.signals[i].1;
      assert sigs[i] in sigs && (sigs[i].Kill? ==> sigs[i - 1] in sigs);
      assert sigs[i].pgid in Termed(sigs);
    }
  }

  // ----- A kill is whole

  /** All groups of the Run; or, for a kill that may have come before they were known, none. */
  predicate Whole(s: Sys, groups: seq<int>, known: bool) {
    groups == s.pod.pgids || (!known && groups == [])
  }

  /** The groups are known: to the launching pod, and to every reader of the record. */
  predicate Known(s: Sys) {
    !BeforeSpawn(s.pod.task) && (s.cell.Some? ==> s.cell.value.rec.pgids == s.pod.pgids)
  }

  /** How far the winner's signals have come, if none of them fails. */
  predicate Progress(s: Sys, pc: KillPc, known: bool) {
    match pc
    case Connecting(groups) => TermedSoFar(s) == [] && groups == s.pod.pgids != []
    case Signalling(rest) => Whole(s, TermedSoFar(s) + rest, known)
    case Stopped(why) =>
      if why.Done? then Whole(s, TermedSoFar(s), known) else TermedSoFar(s) <= s.pod.pgids
    case _ => TermedSoFar(s) == []
  }

  predicate WholeInv(s: Sys, known: bool) {
    && (known ==> Known(s))
    && (s.past.gate.None? ==> s.past.signals == [])
    && (s.past.gate.Some? ==>
          s.past.gate.value in s.killers && Progress(s, s.killers[s.past.gate.value].pc, known))
  }

  predicate Drops(a: Action) {
    a.ByKiller? && a.ka == SignalNext(Dropped)
  }

  lemma TaskKeepsKnown(s: Sys, t: TaskAction)
    requires LaunchInv(s) && GroupsInv(s)
    ensures Known(s) ==> Known(TaskStep(s, t))
    ensures TaskStep(s, t).past == s.past
    ensures TaskStep(s, t).pod.pgids == s.pod.pgids || (s.pod.pgids == [] && !Known(s))
    ensures forall k :: k in s.killers ==> k in TaskStep(s, t).killers && TaskStep(s, t).killers[k] == s.killers[k]
  {
  }

  lemma TaskKeepsWhole(s: Sys, t: TaskAction, known: bool)
    requires LaunchInv(s) && GroupsInv(s) && WholeInv(s, known)
    ensures WholeInv(TaskStep(s, t), known)
  {
    TaskKeepsKnown(s, t);
    var n := TaskStep(s, t);
    assert TermedSoFar(n) == TermedSoFar(s);
    if s.past.gate.Some? {
      var pc := s.killers[s.past.gate.value].pc;
      assert Progress(s, pc, known);
      assert Progress(n, pc, known);
    }
  }

  /** A step of a killer that sends nothing. */
  lemma AdvanceKeepsWhole(s: Sys, k: nat, ka: KillAction, known: bool)
    requires GateInv(s) && GroupsInv(s) && WholeInv(s, known) && k in s.killers && !ka.Begin? && !ka.SignalNext?
    ensures WholeInv(KillStep(s, k, ka), known)
  {
    var n := KillStep(s, k, ka);
    assert TermedSoFar(n) == TermedSoFar(s);
    if s.past.gate == Some(k) {
      assert Progress(s, s.killers[k].pc, known);
      assert Progress(s, NextKillPc(s, s.killers[k], ka), known);
    }
  }

  lemma PlainAppends(stamped: seq<(nat, Signal)>, k: nat, sigs: seq<Signal>)
    ensures Plain(stamped + Stamp(k, sigs)) == Plain(stamped) + sigs
  {
  }

  lemma TermsNext(s: Sys, k: nat, how: Delivery)
    requires k in s.killers && s.killers[k].pc.Signalling? && s.killers[k].pc.rest != [] && !how.Dropped?
    ensures TermedSoFar(KillStep(s, k, SignalNext(how))) == TermedSoFar(s) + [s.killers[k].pc.rest[0]]
  {
    var g := s.killers[k].pc.rest[0];
    PlainAppends(s.past.signals, k, Sent(g, how));
    TermedConcat(Plain(s.past.signals), Sent(g, how));
    TermedOfSent(g, how);
  }

  lemma SignalKeepsWhole(s: Sys, k: nat, how: Delivery, known: bool)
    requires GateInv(s) && WholeInv(s, known) && k in s.killers && !how.Dropped?
    ensures WholeInv(KillStep(s, k, SignalNext(how)), known)
  {
    var pc := s.killers[k].pc;
    if pc.Signalling? && pc.rest != [] {
      var n := KillStep(s, k, SignalNext(how));
      assert PastGate(pc);
      assert Progress(s, pc, known);
      TermsNext(s, k, how);
      assert TermedSoFar(n) + pc.rest[1..] == TermedSoFar(s) + pc.rest;
      assert Progress(n, Signalling(pc.rest[1..]), known);
    }
  }

  lemma KillKeepsWhole(s: Sys, k: nat, ka: KillAction, known: bool)
    requires GateInv(s) && GroupsInv(s) && WholeInv(s, known) && ka != SignalNext(Dropped)
    ensures WholeInv(KillStep(s, k, ka), known)
  {
    if ka.SignalNext? {
      if k in s.killers {
        SignalKeepsWhole(s, k, ka.how, known);
      }
    } else if ka.Begin? {
      assert TermedSoFar(KillStep(s, k, ka)) == TermedSoFar(s);
    } else if k in s.killers {
      AdvanceKeepsWhole(s, k, ka, known);
    }
  }

  /** What a killer's write makes of its own place. */
  lemma KillWriteAdvances(s: Sys, k: nat)
    requires k in s.killers
    ensures var n := WriteStep(s, KillWriter(k));
            var pc, pc' := s.killers[k].pc, n.killers[k].pc;
            && (pc.Gating? ==> pc'.Dispatching? || pc'.Stopped? || pc' == pc)
            && (pc == Signalling([]) ==> pc'.Stopped?)
            && (!pc.Gating? && pc != Signalling([]) ==> n == s)
            && (n.past.gate == s.past.gate || (pc.Gating? && pc'.Dispatching? && n.past.gate == Some(k)))
  {
  }

  lemma KillWriteKeepsWhole(s: Sys, k: nat, known: bool)
    requires LaunchInv(s) && GateInv(s) && WholeInv(s, known)
    ensures WholeInv(WriteStep(s, KillWriter(k)), known)
  {
    if k in s.killers {
      var n := WriteStep(s, KillWriter(k));
      KillWriteSendsNothing(s, k);
      KillWriteAdvances(s, k);
      KillWriteKeepsGate(s, k);
      assert TermedSoFar(n) == TermedSoFar(s);
      if s.past.gate.Some? {
        assert Progress(s, s.killers[s.past.gate.value].pc, known);
      }
      if n.past.gate.Some? {
        assert Progress(n, n.killers[n.past.gate.value].pc, known);
      }
    }
  }

  lemma OtherWriteKeepsWhole(s: Sys, w: Writer, known: bool)
    requires CollectedInv(s) && GroupsInv(s) && WholeInv(s, known) && !w.KillWriter?
    ensures WholeInv(WriteStep(s, w), known)
  {
    var n := WriteStep(s, w);
    OtherWriteSendsNothing(s, w);
    assert TermedSoFar(n) == TermedSoFar(s);
    if s.past.gate.Some? {
      assert Progress(s, s.killers[s.past.gate.value].pc, known);
    }
  }

  lemma StepKeepsWhole(s: Sys, a: Action, known: bool)
    requires LaunchInv(s) && GateInv(s) && CollectedInv(s) && GroupsInv(s) && WholeInv(s, known) && !Drops(a)
    ensures WholeInv(Step(s, a), known)
  {
    match a
    case Do(t) => TaskKeepsWhole(s, t, known);
    case ByKiller(k, ka) => KillKeepsWhole(s, k, ka, known);
    case Commit(w) =>
      if w.KillWriter? {
        KillWriteKeepsWhole(s, w.k, known);
      } else {
        OtherWriteKeepsWhole(s, w, known);
      }
    case _ => assert TermedSoFar(Step(s, a)) == TermedSoFar(s);
  }

  lemma {:induction false} RunKeepsWhole(s: Sys, more: seq<Action>, known: bool)
    requires Inv(s) && GroupsInv(s) && WholeInv(s, known)
    requires forall i :: 0 <= i < |more| ==> !Drops(more[i])
    ensures var n := Exec(s, more); Inv(n) && GroupsInv(n) && WholeInv(n, known)
  {
    if more != [] {
      var shorter, last := more[..|more| - 1], more[|more| - 1];
      RunKeepsWhole(s, shorter, known);
      StepKeeps(Exec(s, shorter), last);
      StepKeepsGroups(Exec(s, shorter), last);
      StepKeepsWhole(Exec(s, shorter), last, known);
    }
  }

  lemma KilledIsWhole(s: Sys, known: bool)
    requires WinnerInv(s) && WholeInv(s, known) && StatusOf(s) == Some(Killed)
    ensures Whole(s, TermedSoFar(s), known)
  {
    assert Progress(s, s.killers[s.past.gate.value].pc, known);
  }

  /** Where no signal fails, KILLED means that all the Run's groups got their TERM, in order, or
      that none did. */
  lemma KillIsAllOrNothing(cfg: Config, start: int, run: seq<Action>)
    requires ValidConfig(cfg) && StatusOf(Exec(Init(cfg, start), run)) == Some(Killed)
    requires forall i :: 0 <= i < |run| ==> !Drops(run[i])
    ensures var s := Exec(Init(cfg, start), run);
            TermedSoFar(s) == s.pod.pgids || TermedSoFar(s) == []
  {
    Reachable(cfg, start, []);
    RunKeepsWhole(Init(cfg, start), run, false);
    KilledIsWhole(Exec(Init(cfg, start), run), false);
  }

  /** Once the groups are known and no call is past the gate, whichever pod's call wins later, it
      is all: the launcher's from its pool entry, any other's from the record. */
  lemma KnownKillIsWhole(cfg: Config, start: int, run: seq<Action>, more: seq<Action>)
    requires ValidConfig(cfg)
    requires var s := Exec(Init(cfg, start), run); Known(s) && s.past.gate.None?
    requires StatusOf(Exec(Exec(Init(cfg, start), run), more)) == Some(Killed)
    requires forall i :: 0 <= i < |more| ==> !Drops(more[i])
    ensures var n := Exec(Exec(Init(cfg, start), run), more); TermedSoFar(n) == n.pod.pgids
  {
    var s := Exec(Init(cfg, start), run);
    Reachable(cfg, start, run);
    ReachableGroups(cfg, start, run);
    assert s.past.signals == [];
    RunKeepsWhole(s, more, true);
    KilledIsWhole(Exec(s, more), true);
  }

  /** They are known from the process-group write on, until the result is stored. */
  lemma KnownAfterWrite(cfg: Config, start: int, run: seq<Action>)
    requires ValidConfig(cfg) && PastGroups(Exec(Init(cfg, start), run).pod.task)
    ensures Known(Exec(Init(cfg, start), run))
  {
    ReachableGroups(cfg, start, run);
  }
}
