/** The repository as it is coded: `update` and `update_if` read, yield to other actors, and
    only then write. A run of this finer system in which every write is the write the atomic
    operation would do just then is a run of the atomic system; so is every run in which nothing
    else is saved and nothing expires between an operation's read and its write. */
module SplitStore {
  import opened Wrappers
  import opened CommandDomain
  import opened CommandStore
  import opened RunProtocol
  import opened RunInvariants
  import opened RunTheorems

  /** An operation between its read and its write: what it read, and how many changes the
      stored record had seen by then. */
  datatype Pending = Pending(fetched: Record, version: nat)

  datatype Split = Split(sys: Sys, pending: map<Writer, Pending>, version: nat)

  datatype SplitAction =
    | Plain(a: Action)
    | GetFor(w: Writer)
    | SaveFor(w: Writer)

  /** The actor whose step this is, if it is one that writes to the repository. */
  function ActorOf(a: Action): Option<Writer> {
    match a
    case Do(_) => Some(TaskWriter)
    case ByKiller(k, _) => Some(KillWriter(k))
    case ByPoller(p, _) => Some(PollWriter(p))
    case Commit(w) => Some(w)
    case _ => None
  }

  /** A timeout, an exception or a dying pod ends an operation that has not written yet. */
  predicate Cancels(a: Action) {
    || (a.Do? && (a.t.TimeOut? || a.t.Fault? || a.t.StoreFails? || a.t.Crash?))
    || (a.ByKiller? && a.ka.Abandon?)
  }

  predicate Blocked(s: Split, a: Action) {
    a.Commit? || (ActorOf(a).Some? && ActorOf(a).value in s.pending && !Cancels(a))
  }

  /** Does the operation end at its read: no record, or the condition is false? */
  predicate EndsAtRead(s: Sys, w: Writer)
    requires WriteOf(s, w).Some?
  {
    s.cell.None? || !WriteOf(s, w).value.cond.Holds(s.cell.value.rec)
  }

  function PlainStep(s: Split, a: Action): Split {
    if Blocked(s, a) then s
    else
      var n := Step(s.sys, a);
      var pending := if n != s.sys && Cancels(a) then s.pending - {ActorOf(a).value} else s.pending;
      Split(n, pending, if n.cell == s.sys.cell then s.version else s.version + 1)
  }

  function GetStep(s: Split, w: Writer): Split {
    if w in s.pending || WriteOf(s.sys, w).None? then s
    else if s.sys.cell.None? then s.(sys := AfterWrite(s.sys, w, Missing))
    else if EndsAtRead(s.sys, w) then s.(sys := AfterWrite(s.sys, w, Declined))
    else s.(pending := s.pending[w := Pending(s.sys.cell.value.rec, s.version)])
  }

  /** The write half stores the updated copy of what was read, whatever is stored by now. */
  function SaveStep(s: Split, w: Writer): Split {
    if w !in s.pending || WriteOf(s.sys, w).None? then s
    else
      var wr := WriteOf(s.sys, w).value;
      var cell := Cell(wr.upd.Apply(s.pending[w].fetched), s.sys.now + wr.ttl);
      Split(AfterWrite(s.sys, w, Saved).(cell := Some(cell)), s.pending - {w}, s.version + 1)
  }

  function SplitStep(s: Split, a: SplitAction): Split {
    match a
    case Plain(b) => PlainStep(s, b)
    case GetFor(w) => GetStep(s, w)
    case SaveFor(w) => SaveStep(s, w)
  }

  function SplitExec(s: Split, run: seq<SplitAction>): Split {
    if run == [] then s else SplitStep(SplitExec(s, run[..|run| - 1]), run[|run| - 1])
  }

  function SplitInit(cfg: Config, start: int): Split {
    Split(Init(cfg, start), map[], 0)
  }

  // ----- The atomic run it simulates

  /** Nothing was saved or dropped since the operation read the record. */
  predicate Undisturbed(s: Split, a: SplitAction) {
    a.SaveFor? && a.w in s.pending ==> s.pending[a.w].version == s.version
  }

  predicate QuietRun(cfg: Config, start: int, run: seq<SplitAction>) {
    forall i :: 0 <= i < |run| ==> Undisturbed(SplitExec(SplitInit(cfg, start), run[..i]), run[i])
  }

  /** The record is there, the condition still holds on it, and changing it or changing what was
      read comes to the same. */
  predicate AtomicNow(s: Split, w: Writer)
    requires w in s.pending && WriteOf(s.sys, w).Some?
  {
    var wr := WriteOf(s.sys, w).value;
    && s.sys.cell.Some?
    && wr.cond.Holds(s.sys.cell.value.rec)
    && wr.upd.Apply(s.sys.cell.value.rec) == wr.upd.Apply(s.pending[w].fetched)
  }

  predicate Clean(s: Split, a: SplitAction) {
    a.SaveFor? && a.w in s.pending && WriteOf(s.sys, a.w).Some? ==> AtomicNow(s, a.w)
  }

  predicate CleanRun(cfg: Config, start: int, run: seq<SplitAction>) {
    forall i :: 0 <= i < |run| ==> Clean(SplitExec(SplitInit(cfg, start), run[..i]), run[i])
  }

  /** An operation takes effect at its write, or at the read that ends it. */
  function Abstract(s: Split, a: SplitAction): seq<Action> {
    match a
    case Plain(b) => if Blocked(s, b) then [] else [b]
    case GetFor(w) =>
      if w !in s.pending && WriteOf(s.sys, w).Some? && EndsAtRead(s.sys, w) then [Commit(w)] else []
    case SaveFor(w) => if w in s.pending then [Commit(w)] else []
  }

  function AbstractRun(cfg: Config, start: int, run: seq<SplitAction>): seq<Action> {
    if run == [] then []
    else
      var shorter := run[..|run| - 1];
      AbstractRun(cfg, start, shorter) + Abstract(SplitExec(SplitInit(cfg, start), shorter), run[|run| - 1])
  }

  /** A pending operation is still due, its condition held when it read, and if nothing changed
      since then the stored record is the one it read. */
  predicate PendingOk(s: Split, w: Writer)
    requires w in s.pending
  {
    && WriteOf(s.sys, w).Some?
    && WriteOf(s.sys, w).value.cond.Holds(s.pending[w].fetched)
    && s.pending[w].version <= s.version
    && (s.pending[w].version == s.version ==>
          s.sys.cell.Some? && s.sys.cell.value.rec == s.pending[w].fetched)
  }

  predicate SplitInv(s: Split) {
    forall w :: w in s.pending ==> PendingOk(s, w)
  }

  lemma TaskLeavesDue(s: Sys, t: TaskAction, w: Writer)
    requires WriteOf(s, w).Some? && !w.TaskWriter?
    ensures WriteOf(TaskStep(s, t), w) == WriteOf(s, w)
  {
  }

  lemma KillLeavesDue(s: Sys, k: nat, ka: KillAction, w: Writer)
    requires WriteOf(s, w).Some? && w != KillWriter(k)
    ensures WriteOf(KillStep(s, k, ka), w) == WriteOf(s, w)
  {
  }

  /** Another actor's step leaves this actor at its write. */
  lemma WriteStaysDue(s: Sys, a: Action, w: Writer)
    requires WriteOf(s, w).Some? && !a.Commit?
    requires ActorOf(a) != Some(w) || (Cancels(a) && Step(s, a) == s)
    ensures WriteOf(Step(s, a), w) == WriteOf(s, w)
  {
    if ActorOf(a) != Some(w) {
      match a
      case Do(t) => TaskLeavesDue(s, t, w);
      case ByKiller(k, ka) => KillLeavesDue(s, k, ka, w);
      case _ =>
    }
  }

  lemma OtherWriteStaysDue(s: Sys, v: Writer, o: Outcome, w: Writer)
    requires WriteOf(s, w).Some? && WriteOf(s, v).Some? && v != w
    ensures WriteOf(AfterWrite(s, v, o), w) == WriteOf(s, w)
  {
    match v
    case TaskWriter =>
    case KillWriter(k) =>
    case PollWriter(p) =>
  }

  lemma PlainKeeps(s: Split, a: Action)
    requires SplitInv(s)
    ensures SplitInv(PlainStep(s, a))
  {
    if !Blocked(s, a) {
      var n := PlainStep(s, a);
      forall w | w in n.pending
        ensures PendingOk(n, w)
      {
        assert PendingOk(s, w);
        WriteStaysDue(s.sys, a, w);
      }
    }
  }

  lemma GetKeeps(s: Split, v: Writer)
    requires SplitInv(s)
    ensures SplitInv(GetStep(s, v))
  {
    var n := GetStep(s, v);
    forall w | w in n.pending
      ensures PendingOk(n, w)
    {
      if w != v {
        assert PendingOk(s, w);
        if WriteOf(s.sys, v).Some? {
          OtherWriteStaysDue(s.sys, v, if s.sys.cell.None? then Missing else Declined, w);
        }
      } else if w in s.pending {
        assert PendingOk(s, w);
      }
    }
  }

  lemma SaveKeeps(s: Split, v: Writer)
    requires SplitInv(s)
    ensures SplitInv(SaveStep(s, v))
  {
    var n := SaveStep(s, v);
    forall w | w in n.pending
      ensures PendingOk(n, w)
    {
      assert PendingOk(s, w);
      if w != v && WriteOf(s.sys, v).Some? {
        OtherWriteStaysDue(s.sys, v, Saved, w);
      }
    }
  }

  /** The write half is the atomic operation's saved write if and only if the record is there, the
      condition still holds on it, and changing it comes to the same as changing what was read. */
  lemma SaveIsAtomicExactly(s: Split, w: Writer)
    requires SplitInv(s) && w in s.pending && WriteOf(s.sys, w).Some?
    ensures var wr := WriteOf(s.sys, w).value;
            && UpdateCell(s.sys.cell, wr.cond, wr.upd, s.sys.now + wr.ttl).0.Saved?
            && SaveStep(s, w).sys == WriteStep(s.sys, w)
            <==> AtomicNow(s, w)
  {
    assert PendingOk(s, w);
    var wr := WriteOf(s.sys, w).value;
    assert SaveStep(s, w).sys.cell == Some(Cell(wr.upd.Apply(s.pending[w].fetched), s.sys.now + wr.ttl));
  }

  lemma UndisturbedIsClean(s: Split, a: SplitAction)
    requires SplitInv(s) && Undisturbed(s, a)
    ensures Clean(s, a)
  {
    if a.SaveFor? && a.w in s.pending {
      assert PendingOk(s, a.w);
    }
  }

  lemma StepSimulated(s: Split, a: SplitAction)
    requires SplitInv(s) && Clean(s, a)
    ensures SplitInv(SplitStep(s, a))
    ensures SplitStep(s, a).sys == Exec(s.sys, Abstract(s, a))
  {
    match a {
      case Plain(b) => PlainKeeps(s, b);
      case GetFor(w) => GetKeeps(s, w);
      case SaveFor(w) =>
        SaveKeeps(s, w);
        if w in s.pending {
          assert PendingOk(s, w);
          SaveIsAtomicExactly(s, w);
        }
    }
    var acts := Abstract(s, a);
    if acts != [] {
      assert acts[..0] == [];
      assert Exec(s.sys, acts) == Step(s.sys, acts[0]);
    }
  }

  /** Every clean run of the split system reaches exactly the state its atomic run reaches. */
  lemma {:induction false} CleanRunsAreAtomic(cfg: Config, start: int, run: seq<SplitAction>)
    requires CleanRun(cfg, start, run)
    ensures SplitInv(SplitExec(SplitInit(cfg, start), run))
    ensures SplitExec(SplitInit(cfg, start), run).sys == Exec(Init(cfg, start), AbstractRun(cfg, start, run))
  {
    if run != [] {
      var shorter := run[..|run| - 1];
      assert forall i :: 0 <= i < |shorter| ==> shorter[..i] == run[..i];
      CleanRunsAreAtomic(cfg, start, shorter);
      var s := SplitExec(SplitInit(cfg, start), shorter);
      StepSimulated(s, run[|run| - 1]);
      ExecConcat(Init(cfg, start), AbstractRun(cfg, start, shorter), Abstract(s, run[|run| - 1]));
    }
  }

  /** With no other save and no expiry between an operation's read and its write, every write is
      clean. */
  lemma {:induction false} QuietRunsAreClean(cfg: Config, start: int, run: seq<SplitAction>)
    requires QuietRun(cfg, start, run)
    ensures CleanRun(cfg, start, run)
  {
    if run != [] {
      var shorter := run[..|run| - 1];
      assert forall i :: 0 <= i < |shorter| ==> shorter[..i] == run[..i];
      QuietRunsAreClean(cfg, start, shorter);
      CleanRunsAreAtomic(cfg, start, shorter);
      UndisturbedIsClean(SplitExec(SplitInit(cfg, start), shorter), run[|run| - 1]);
      CleanExtends(cfg, start, run);
    }
  }

  lemma CleanExtends(cfg: Config, start: int, run: seq<SplitAction>)
    requires run != [] && CleanRun(cfg, start, run[..|run| - 1])
    requires Clean(SplitExec(SplitInit(cfg, start), run[..|run| - 1]), run[|run| - 1])
    ensures CleanRun(cfg, start, run)
  {
    var shorter := run[..|run| - 1];
    forall i | 0 <= i < |run|
      ensures Clean(SplitExec(SplitInit(cfg, start), run[..i]), run[i])
    {
      if i < |shorter| {
        assert shorter[..i] == run[..i] && shorter[i] == run[i];
      }
    }
  }

  lemma {:induction false} AbstractPrefix(cfg: Config, start: int, run: seq<SplitAction>, i: nat)
    requires i <= |run|
    ensures AbstractRun(cfg, start, run[..i]) <= AbstractRun(cfg, start, run)
  {
    if i == |run| {
      assert run[..i] == run;
    } else {
      AbstractPrefix(cfg, start, run[..|run| - 1], i);
      assert run[..|run| - 1][..i] == run[..i];
    }
  }

  lemma CleanPrefix(cfg: Config, start: int, run: seq<SplitAction>, i: nat)
    requires CleanRun(cfg, start, run) && i <= |run|
    ensures SplitExec(SplitInit(cfg, start), run[..i]).sys == Exec(Init(cfg, start), AbstractRun(cfg, start, run[..i]))
  {
    assert forall m :: 0 <= m < i ==> run[..i][..m] == run[..m];
    CleanRunsAreAtomic(cfg, start, run[..i]);
  }

  /** So what holds of atomic runs holds of clean ones: here, that statuses only rise. */
  lemma SplitStatusRises(cfg: Config, start: int, run: seq<SplitAction>, i: nat, j: nat)
    requires ValidConfig(cfg) && CleanRun(cfg, start, run) && i <= j <= |run|
    ensures var s := SplitExec(SplitInit(cfg, start), run[..i]).sys;
            var n := SplitExec(SplitInit(cfg, start), run[..j]).sys;
            && Inv(n)
            && (StatusOf(s).Some? && StatusOf(n).Some? ==> Risen(StatusOf(s).value, StatusOf(n).value))
  {
    var early, late := AbstractRun(cfg, start, run[..i]), AbstractRun(cfg, start, run[..j]);
    CleanPrefix(cfg, start, run, i);
    CleanPrefix(cfg, start, run, j);
    assert run[..j][..i] == run[..i];
    AbstractPrefix(cfg, start, run[..j], i);
    assert late[..|early|] == early && late[..|late|] == late;
    Reachable(cfg, start, late);
    StatusRises(cfg, start, late, |early|, |late|);
  }

  // ----- Why it must be undisturbed

  /** A result write that read RUNNING before a kill undoes the finished kill. */
  lemma DirtySaveUndoesKill(s: Split)
    requires SplitInv(s) && Inv(s.sys)
    requires StatusOf(s.sys) == Some(Killed)
    requires TaskWriter in s.pending && s.sys.pod.task.Storing?
    ensures var st := StatusOf(SaveStep(s, TaskWriter).sys); st == Some(Success) || st == Some(Failed)
  {
    assert PendingOk(s, TaskWriter);
  }

  /** A process-group write that read the record before it expired and writes after. */
  function Resurrection(cfg: Config): seq<SplitAction>
    requires cfg.timeout > 0
  {
    [Plain(Do(PoolAdd)), Plain(Do(SaveInitial(true))), Plain(Do(Acquire)), Plain(OnRemote(Start)),
     Plain(Do(Spawned([7]))), GetFor(TaskWriter), Plain(Tick(cfg.timeout + 30)), SaveFor(TaskWriter)]
  }

  lemma ReplaySplit(cfg: Config, run: seq<SplitAction>, i: nat, s: Split)
    requires i < |run| && SplitExec(SplitInit(cfg, 0), run[..i]) == s
    ensures SplitExec(SplitInit(cfg, 0), run[..i + 1]) == SplitStep(s, run[i])
  {
    assert run[..i + 1][..i] == run[..i];
  }

  /** Saved, executing, and its script started; nothing pending. */
  predicate Started(cfg: Config, s: Split, task: Task, script: Remote) {
    && s.sys.cfg == cfg && s.sys.now == 0 && s.sys.pod.task == task && s.sys.script.phase == script
    && s.pending == map[]
    && s.sys.cell.Some? && s.sys.cell.value.expiresAt == cfg.timeout + 30
  }

  lemma Saves(cfg: Config)
    requires ValidConfig(cfg) && cfg.timeout > 0
    ensures Started(cfg, SplitExec(SplitInit(cfg, 0), Resurrection(cfg)[..2]), Queued, Idle)
  {
    var run := Resurrection(cfg);
    var s0 := SplitInit(cfg, 0);
    ReplaySplit(cfg, run, 0, s0);
    var s1 := SplitStep(s0, run[0]);
    assert s1.sys == s0.sys.(pod := s0.sys.pod.(task := Launching, pooled := true));
    ReplaySplit(cfg, run, 1, s1);
  }

  lemma StartsExecuting(cfg: Config)
    requires ValidConfig(cfg) && cfg.timeout > 0
    ensures Started(cfg, SplitExec(SplitInit(cfg, 0), Resurrection(cfg)[..3]), Spawning, Idle)
  {
    Saves(cfg);
    ReplaySplit(cfg, Resurrection(cfg), 2, SplitExec(SplitInit(cfg, 0), Resurrection(cfg)[..2]));
  }

  lemma ScriptStarts(cfg: Config)
    requires ValidConfig(cfg) && cfg.timeout > 0
    ensures Started(cfg, SplitExec(SplitInit(cfg, 0), Resurrection(cfg)[..4]), Spawning, Working)
  {
    StartsExecuting(cfg);
    ReplaySplit(cfg, Resurrection(cfg), 3, SplitExec(SplitInit(cfg, 0), Resurrection(cfg)[..3]));
  }

  lemma WritesPgidsNext(cfg: Config)
    requires ValidConfig(cfg) && cfg.timeout > 0
    ensures Started(cfg, SplitExec(SplitInit(cfg, 0), Resurrection(cfg)[..5]), WritingPgids, Working)
  {
    ScriptStarts(cfg);
    ReplaySplit(cfg, Resurrection(cfg), 4, SplitExec(SplitInit(cfg, 0), Resurrection(cfg)[..4]));
  }

  lemma ReadsInTime(cfg: Config)
    requires ValidConfig(cfg) && cfg.timeout > 0
    ensures var s := SplitExec(SplitInit(cfg, 0), Resurrection(cfg)[..6]);
            TaskWriter in s.pending && Started(cfg, s.(pending := map[]), WritingPgids, Working)
  {
    WritesPgidsNext(cfg);
    ReplaySplit(cfg, Resurrection(cfg), 5, SplitExec(SplitInit(cfg, 0), Resurrection(cfg)[..5]));
  }

  /** Disturbed by an expiry, a write recreates the record that had vanished. */
  lemma DirtySaveRecreates(cfg: Config)
    requires ValidConfig(cfg) && cfg.timeout > 0
    ensures SplitExec(SplitInit(cfg, 0), Resurrection(cfg)[..7]).sys.cell.None?
    ensures SplitExec(SplitInit(cfg, 0), Resurrection(cfg)[..8]).sys.cell.Some?
  {
    var run := Resurrection(cfg);
    ReadsInTime(cfg);
    var s6 := SplitExec(SplitInit(cfg, 0), run[..6]);
    ReplaySplit(cfg, run, 6, s6);
    var s7 := SplitStep(s6, run[6]);
    assert s7.sys.cell.None? && s7.sys.pod.task == WritingPgids && TaskWriter in s7.pending;
    ReplaySplit(cfg, run, 7, s7);
  }
}
