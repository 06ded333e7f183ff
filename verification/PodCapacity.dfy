/** One pod with all the Runs it launched: the capacity check, the pool and the semaphore. */
module PodCapacity {
  import opened RunProtocol
  import opened RunInvariants

  datatype Limits = Limits(maxRunning: int, maxConcurrency: nat)

  /** `admitted` counts requests between the capacity check and `pool_add`; `peak` is the most
      there ever were at once. */
  datatype PodState = PodState(limits: Limits, now: int, runs: map<string, Sys>, admitted: nat, peak: nat)

  datatype PodAction =
    | Admit                              // _check_capacity let a request through
    | Drop                               // it ended before pool_add
    | Launch(id: string, cfg: Config)
    | Act(id: string, a: Action)
    | TickAll(d: nat)

  function Empty(limits: Limits, start: int): PodState {
    PodState(limits, start, map[], 0, 0)
  }

  /** The ids in the local pool. */
  function Pooled(p: PodState): set<string> {
    set id | id in p.runs && p.runs[id].pod.pooled
  }

  /** The ids whose task holds the semaphore. */
  function Holding(p: PodState): set<string> {
    set id | id in p.runs && Executing(p.runs[id].pod.task)
  }

  function PodStep(p: PodState, a: PodAction): PodState {
    match a
    case Admit =>
      if |Pooled(p)| >= p.limits.maxRunning then p
      else p.(admitted := p.admitted + 1, peak := if p.peak < p.admitted + 1 then p.admitted + 1 else p.peak)
    case Drop =>
      if p.admitted == 0 then p else p.(admitted := p.admitted - 1)
    case Launch(id, cfg) =>
      if p.admitted == 0 || id in p.runs || !ValidConfig(cfg) then p
      else p.(admitted := p.admitted - 1, runs := p.runs[id := Step(Init(cfg, p.now), Do(PoolAdd))])
    case Act(id, b) =>
      if id !in p.runs || b.Tick? || (b == Do(Acquire) && |Holding(p)| >= p.limits.maxConcurrency) then p
      else p.(runs := p.runs[id := Step(p.runs[id], b)])
    case TickAll(d) =>
      p.(now := p.now + d, runs := map id | id in p.runs :: Step(p.runs[id], Tick(d)))
  }

  function PodExec(p: PodState, run: seq<PodAction>): PodState {
    if run == [] then p else PodStep(PodExec(p, run[..|run| - 1]), run[|run| - 1])
  }

  predicate Launched(s: Sys) {
    Inv(s) && !s.pod.task.NotLaunched?
  }

  predicate Bounded(p: PodState) {
    && p.admitted <= p.peak
    && |Holding(p)| <= p.limits.maxConcurrency
    && (|Pooled(p)| + p.admitted == 0 || |Pooled(p)| + p.admitted <= p.limits.maxRunning - 1 + p.peak)
  }

  predicate PodInv(p: PodState) {
    Bounded(p) && forall id :: id in p.runs ==> Launched(p.runs[id])
  }

  // ----- One Run's step, seen from the pod

  lemma TaskAndPool(s: Sys, a: Action)
    requires !s.pod.task.NotLaunched?
    ensures !Step(s, a).pod.task.NotLaunched?
    ensures Step(s, a).pod.pooled ==> s.pod.pooled
    ensures Executing(Step(s, a).pod.task) && !Executing(s.pod.task) ==> a == Do(Acquire)
  {
    match a
    case Do(_) =>
    case ByKiller(k, ka) => assert KillStep(s, k, ka).pod == s.pod;
    case Commit(w) =>
    case _ => assert Step(s, a).pod == s.pod;
  }

  lemma Grows<T>(small: set<T>, big: set<T>)
    requires small <= big
    ensures |small| <= |big|
  {
    assert big == small + (big - small);
  }

  lemma GrowsByOne<T>(small: set<T>, big: set<T>, x: T)
    requires big <= small + {x}
    ensures |big| <= |small| + 1
  {
    Grows(big, small + {x});
  }

  lemma ActKeeps(p: PodState, id: string, b: Action)
    requires PodInv(p)
    ensures PodInv(PodStep(p, Act(id, b)))
  {
    var n := PodStep(p, Act(id, b));
    if n != p {
      StepKeeps(p.runs[id], b);
      TaskAndPool(p.runs[id], b);
      assert Pooled(n) <= Pooled(p);
      Grows(Pooled(n), Pooled(p));
      if b == Do(Acquire) {
        GrowsByOne(Holding(p), Holding(n), id);
      } else {
        assert Holding(n) <= Holding(p);
        Grows(Holding(n), Holding(p));
      }
    }
  }

  lemma FreshRun(cfg: Config, now: int)
    requires ValidConfig(cfg)
    ensures var s := Step(Init(cfg, now), Do(PoolAdd)); Launched(s) && !Executing(s.pod.task)
  {
    Reachable(cfg, now, []);
    StepKeeps(Init(cfg, now), Do(PoolAdd));
  }

  lemma RequestKeeps(p: PodState, a: PodAction)
    requires Bounded(p) && (a.Admit? || a.Drop?)
    ensures Bounded(PodStep(p, a)) && PodStep(p, a).runs == p.runs
  {
    assert Pooled(PodStep(p, a)) == Pooled(p) && Holding(PodStep(p, a)) == Holding(p);
  }

  /** `pool_add` turns an admitted request into a pool entry. */
  lemma AddRunBounded(p: PodState, id: string, s: Sys)
    requires Bounded(p) && p.admitted > 0 && !Executing(s.pod.task)
    ensures Bounded(p.(admitted := p.admitted - 1, runs := p.runs[id := s]))
  {
    var n := p.(admitted := p.admitted - 1, runs := p.runs[id := s]);
    assert Pooled(n) <= Pooled(p) + {id};
    GrowsByOne(Pooled(p), Pooled(n), id);
    assert Holding(n) <= Holding(p);
    Grows(Holding(n), Holding(p));
  }

  lemma LaunchKeeps(p: PodState, id: string, cfg: Config)
    requires PodInv(p)
    ensures PodInv(PodStep(p, Launch(id, cfg)))
  {
    if p.admitted > 0 && id !in p.runs && ValidConfig(cfg) {
      FreshRun(cfg, p.now);
      AddRunBounded(p, id, Step(Init(cfg, p.now), Do(PoolAdd)));
    }
  }

  lemma TickAllKeeps(p: PodState, d: nat)
    requires PodInv(p)
    ensures PodInv(PodStep(p, TickAll(d)))
  {
    var n := PodStep(p, TickAll(d));
    forall id | id in n.runs
      ensures Launched(n.runs[id])
    {
      assert n.runs[id] == Step(p.runs[id], Tick(d));
      StepKeeps(p.runs[id], Tick(d));
    }
    assert Pooled(n) == Pooled(p);
    assert Holding(n) == Holding(p);
  }

  lemma {:induction false} PodReachable(limits: Limits, start: int, run: seq<PodAction>)
    ensures PodInv(PodExec(Empty(limits, start), run))
    ensures PodExec(Empty(limits, start), run).limits == limits
  {
    if run == [] {
      assert Pooled(Empty(limits, start)) == {};
      assert Holding(Empty(limits, start)) == {};
    } else {
      PodReachable(limits, start, run[..|run| - 1]);
      var p := PodExec(Empty(limits, start), run[..|run| - 1]);
      match run[|run| - 1]
      case Launch(id, cfg) => LaunchKeeps(p, id, cfg);
      case Act(id, b) => ActKeeps(p, id, b);
      case TickAll(d) => TickAllKeeps(p, d);
      case _ => RequestKeeps(p, run[|run| - 1]);
    }
  }

  /** Never more tasks executing than COMMAND_MAX_CONCURRENCY. */
  lemma ConcurrencyBounded(limits: Limits, start: int, run: seq<PodAction>)
    ensures |Holding(PodExec(Empty(limits, start), run))| <= limits.maxConcurrency
  {
    PodReachable(limits, start, run);
  }

  /** The check and `pool_add` are not atomic, so the pool can exceed its limit, but only by the
      requests that were under way at once: pool and pending requests stay within
      COMMAND_MAX_RUNNING - 1 + peak. */
  lemma PoolBounded(limits: Limits, start: int, run: seq<PodAction>)
    requires limits.maxRunning >= 1
    ensures var p := PodExec(Empty(limits, start), run);
            |Pooled(p)| + p.admitted <= limits.maxRunning - 1 + p.peak
  {
    PodReachable(limits, start, run);
  }

  /** With one request at a time the pool keeps to COMMAND_MAX_RUNNING. */
  lemma SerialPoolBounded(limits: Limits, start: int, run: seq<PodAction>)
    requires limits.maxRunning >= 1
    requires PodExec(Empty(limits, start), run).peak <= 1
    ensures |Pooled(PodExec(Empty(limits, start), run))| <= limits.maxRunning
  {
    PoolBounded(limits, start, run);
  }

  /** A request is let through exactly while there is room, and then its Run gets into the pool. */
  lemma RoomIsUsed(p: PodState, id: string, cfg: Config)
    requires id !in p.runs && ValidConfig(cfg) && p.admitted == 0
    ensures id in Pooled(PodStep(PodStep(p, Admit), Launch(id, cfg))) <==> |Pooled(p)| < p.limits.maxRunning
  {
    assert Step(Init(cfg, p.now), Do(PoolAdd)).pod.pooled;
    assert PodStep(p, Admit).runs == p.runs;
  }

  /** A waiting task gets the semaphore exactly while a place is free. */
  lemma PlaceIsUsed(p: PodState, id: string)
    requires id in p.runs && p.runs[id].pod.task.Queued?
    ensures id in Holding(PodStep(p, Act(id, Do(Acquire)))) <==> |Holding(p)| < p.limits.maxConcurrency
  {
  }

  // ----- Each Run on its own

  /** The actions of a pod's run that reach the Run called id. */
  function Projection(limits: Limits, start: int, run: seq<PodAction>, id: string): seq<Action> {
    if run == [] then []
    else
      var shorter := run[..|run| - 1];
      var p := PodExec(Empty(limits, start), shorter);
      var n := PodExec(Empty(limits, start), run);
      var before := Projection(limits, start, shorter, id);
      match run[|run| - 1]
      case Launch(j, _) => if j == id && id !in p.runs && id in n.runs then [Do(PoolAdd)] else before
      case Act(j, b) => if j == id && n != p then before + [b] else before
      case TickAll(d) => if id in p.runs then before + [Tick(d)] else before
      case _ => before
  }

  /** What happens to one Run among many is a run of its own: every theorem about single Runs
      holds for each Run of a pod. */
  lemma {:induction false} EachRunIsARun(limits: Limits, start: int, run: seq<PodAction>, id: string)
    requires id in PodExec(Empty(limits, start), run).runs
    ensures exists cfg: Config, at: int :: ValidConfig(cfg) &&
              PodExec(Empty(limits, start), run).runs[id] == Exec(Init(cfg, at), Projection(limits, start, run, id))
  {
    var shorter, last := run[..|run| - 1], run[|run| - 1];
    var p := PodExec(Empty(limits, start), shorter);
    var acts := Projection(limits, start, run, id);
    if id in p.runs {
      EachRunIsARun(limits, start, shorter, id);
      var before := Projection(limits, start, shorter, id);
      var cfg, at :| ValidConfig(cfg) && p.runs[id] == Exec(Init(cfg, at), before);
      assert PodExec(Empty(limits, start), run).runs[id] == Exec(Init(cfg, at), acts) by {
        if acts != before {
          assert acts[..|acts| - 1] == before;
        }
      }
    } else {
      assert last.Launch? && last.id == id && acts == [Do(PoolAdd)];
      assert acts[..0] == [];
      assert Exec(Init(last.cfg, p.now), acts) == Step(Init(last.cfg, p.now), Do(PoolAdd));
    }
  }
}
