/** One call of `kill_command` as it is written, and the proof that, left alone, it does what
    the protocol's steps for one killer do. */
module CommandLifecycle {
  import opened Wrappers
  import opened CommandDomain
  import opened CommandStore
  import opened CommandPool
  import opened RunProtocol

  /** What the environment answers: is the recorded SSH config there (before the gate, and again
      after it), does the connection come up, and how does each signal end. */
  datatype KillEnv = KillEnv(config: bool, configLater: bool, connects: bool, delivery: int -> Delivery)

  /** The signals a two-phase kill of these process groups sends, in order. */
  function AllSent(pgids: seq<int>, delivery: int -> Delivery): seq<Signal> {
    if pgids == [] then [] else Sent(pgids[0], delivery(pgids[0])) + AllSent(pgids[1..], delivery)
  }

  /** Do the guards let this call reach the gate? */
  predicate Admitted(cell: Option<Cell>, entry: Option<Entry>, force: bool, env: KillEnv) {
    && (force || (if entry.Some? then entry.value.killable else cell.Some? && cell.value.rec.killable))
    && (entry.Some? || cell.None? || env.config)
  }

  /** Past the gate: the groups still to be signalled, or nothing if the call ends in KILLING. */
  function Targets(cell: Cell, entry: Option<Entry>, env: KillEnv): Option<seq<int>> {
    if entry.Some? then Some(entry.value.pgids)
    else if cell.rec.pgids == [] || (env.configLater && env.connects) then Some(cell.rec.pgids)
    else None
  }

  /** The record and the signals an uninterrupted call leaves behind. */
  function KillAlone(cell: Option<Cell>, entry: Option<Entry>, force: bool, message: string, env: KillEnv, expiresAt: int)
    : (Option<Cell>, seq<Signal>)
  {
    if !Admitted(cell, entry, force, env) || cell.None? || !cell.value.rec.status.Running? then (cell, [])
    else
      match Targets(cell.value, entry, env)
      case None => (Some(Cell(cell.value.rec.MarkKilling(message), expiresAt)), [])
      case Some(pgids) => (Some(Cell(cell.value.rec.MarkKilled(message), expiresAt)), AllSent(pgids, env.delivery))
  }

  // ----- What a kill sends, said without the code that sends it

  /** The groups that got a TERM, in order. */
  function Termed(sigs: seq<Signal>): seq<int> {
    if sigs == [] then []
    else Termed(sigs[..|sigs| - 1]) + (match sigs[|sigs| - 1] case Term(g) => [g] case Kill(_) => [])
  }

  /** The listed groups whose commands do not raise, in order. */
  function Answering(pgids: seq<int>, delivery: int -> Delivery): seq<int> {
    if pgids == [] then []
    else Answering(pgids[..|pgids| - 1], delivery)
         + if delivery(pgids[|pgids| - 1]).Dropped? then [] else [pgids[|pgids| - 1]]
  }

  /** A TERM is followed by a KILL to the same group exactly if that group survived it, and no KILL
      comes otherwise. */
  predicate PhaseAt(sigs: seq<Signal>, i: nat, delivery: int -> Delivery)
    requires i < |sigs|
  {
    match sigs[i]
    case Term(g) => (delivery(g).Hard? <==> i + 1 < |sigs| && sigs[i + 1] == Kill(g))
    case Kill(g) => i > 0 && sigs[i - 1] == Term(g)
  }

  predicate InPhases(sigs: seq<Signal>, delivery: int -> Delivery) {
    forall i :: 0 <= i < |sigs| ==> PhaseAt(sigs, i, delivery)
  }

  /** A two-phase kill of these groups and no others. */
  predicate Kills(sigs: seq<Signal>, pgids: seq<int>, delivery: int -> Delivery) {
    Termed(sigs) == Answering(pgids, delivery) && InPhases(sigs, delivery)
  }

  lemma {:induction false} TermedHolds(sigs: seq<Signal>)
    ensures forall g :: g in Termed(sigs) <==> Term(g) in sigs
  {
    if sigs != [] {
      TermedHolds(sigs[..|sigs| - 1]);
      assert sigs == sigs[..|sigs| - 1] + [sigs[|sigs| - 1]];
    }
  }

  lemma {:induction false} AnsweringHolds(pgids: seq<int>, delivery: int -> Delivery)
    ensures forall g :: g in Answering(pgids, delivery) <==> g in pgids && !delivery(g).Dropped?
  {
    if pgids != [] {
      AnsweringHolds(pgids[..|pgids| - 1], delivery);
      assert pgids == pgids[..|pgids| - 1] + [pgids[|pgids| - 1]];
    }
  }

  /** Every listed group that can be signalled gets its TERM, then KILL exactly if it survived, and
      no other group gets anything. */
  lemma KillsReachThese(sigs: seq<Signal>, pgids: seq<int>, delivery: int -> Delivery)
    requires Kills(sigs, pgids, delivery)
    ensures forall g :: Term(g) in sigs <==> g in pgids && !delivery(g).Dropped?
    ensures forall g :: Kill(g) in sigs <==> g in pgids && delivery(g).Hard?
  {
    TermedHolds(sigs);
    AnsweringHolds(pgids, delivery);
    forall g
      ensures Kill(g) in sigs <==> g in pgids && delivery(g).Hard?
    {
      if Kill(g) in sigs {
        var i :| 0 <= i < |sigs| && sigs[i] == Kill(g);
        assert PhaseAt(sigs, i, delivery);
        assert sigs[i - 1] == Term(g) && PhaseAt(sigs, i - 1, delivery);
      }
      if g in pgids && delivery(g).Hard? {
        var i :| 0 <= i < |sigs| && sigs[i] == Term(g);
        assert PhaseAt(sigs, i, delivery);
      }
    }
  }

  lemma {:induction false} TermedConcat(a: seq<Signal>, b: seq<Signal>)
    ensures Termed(a + b) == Termed(a) + Termed(b)
  {
    if b == [] {
      assert a + b == a;
    } else {
      assert (a + b)[..|a + b| - 1] == a + b[..|b| - 1];
      TermedConcat(a, b[..|b| - 1]);
    }
  }

  lemma InPhasesConcat(a: seq<Signal>, b: seq<Signal>, delivery: int -> Delivery)
    requires InPhases(a, delivery) && InPhases(b, delivery)
    ensures InPhases(a + b, delivery)
  {
    assert b != [] ==> PhaseAt(b, 0, delivery);
    forall i | 0 <= i < |a + b|
      ensures PhaseAt(a + b, i, delivery)
    {
      assert if i < |a| then PhaseAt(a, i, delivery) else PhaseAt(b, i - |a|, delivery);
    }
  }

  lemma TermedOfSent(pgid: int, how: Delivery)
    ensures Termed(Sent(pgid, how)) == if how.Dropped? then [] else [pgid]
  {
    assert Termed([]) == [];
    assert [Term(pgid)][..0] == [] && Termed([Term(pgid)]) == [pgid];
    assert [Term(pgid), Kill(pgid)][..1] == [Term(pgid)];
  }

  lemma {:induction false} AllSentAppends(pgids: seq<int>, pgid: int, delivery: int -> Delivery)
    ensures AllSent(pgids + [pgid], delivery) == AllSent(pgids, delivery) + Sent(pgid, delivery(pgid))
  {
    if pgids == [] {
      assert ([] + [pgid])[1..] == [] && AllSent([], delivery) == [];
      assert [] + [pgid] == [pgid];
    } else {
      assert (pgids + [pgid])[1..] == pgids[1..] + [pgid];
      AllSentAppends(pgids[1..], pgid, delivery);
    }
  }

  /** What the loop sends is such a kill. */
  lemma {:induction false} AllSentKills(pgids: seq<int>, delivery: int -> Delivery)
    ensures Kills(AllSent(pgids, delivery), pgids, delivery)
  {
    if pgids != [] {
      var front, last := pgids[..|pgids| - 1], pgids[|pgids| - 1];
      AllSentKills(front, delivery);
      assert pgids == front + [last];
      AllSentAppends(front, last, delivery);
      TermedOfSent(last, delivery(last));
      TermedConcat(AllSent(front, delivery), Sent(last, delivery(last)));
      InPhasesConcat(AllSent(front, delivery), Sent(last, delivery(last)), delivery);
    }
  }

  /** What an uninterrupted call does, case by case. */
  lemma KillLeaves(cell: Option<Cell>, entry: Option<Entry>, force: bool, message: string, env: KillEnv, expiresAt: int)
    ensures var (left, sigs) := KillAlone(cell, entry, force, message, env, expiresAt);
            && (cell.None? || !cell.value.rec.status.Running? ==> left == cell && sigs == [])
            && (cell.Some? && cell.value.rec.status.Running? ==>
                  var rec := cell.value.rec;
                  var targets := if entry.Some? then entry.value.pgids else rec.pgids;
                  var killed := Some(Cell(rec.(status := Killed, message := Some(message)), expiresAt));
                  var stuck := Some(Cell(rec.(status := Killing, message := Some(message)), expiresAt));
                  if !force && !(if entry.Some? then entry.value.killable else rec.killable) then left == cell && sigs == []
                  else if entry.None? && !env.config then left == cell && sigs == []
                  else if entry.None? && targets != [] && !(env.configLater && env.connects) then left == stuck && sigs == []
                  else left == killed && Kills(sigs, targets, env.delivery))
  {
    if entry.Some? {
      AllSentKills(entry.value.pgids, env.delivery);
    }
    if cell.Some? {
      AllSentKills(cell.value.rec.pgids, env.delivery);
    }
  }

  /** A control-node connection; it keeps every signal that was sent over it and counts its closes. */
  class Connection {
    var sent: seq<Signal>
    var closes: nat

    constructor ()
      ensures sent == [] && closes == 0
    {
      sent, closes := [], 0;
    }

    /** `conn.run("kill ...")`. */
    method Send(sig: Signal)
      modifies this`sent
      ensures sent == old(sent) + [sig]
    {
      sent := sent + [sig];
    }

    method Close()
      modifies this`closes
      ensures closes == old(closes) + 1
    {
      closes := closes + 1;
    }
  }

  /** Soft kill, then a hard one if the group is still there. */
  method KillGroup(conn: Connection, pgid: int, how: Delivery)
    modifies conn`sent
    ensures conn.sent == old(conn.sent) + Sent(pgid, how)
  {
    if !how.Dropped? {
      conn.Send(Term(pgid));
      if how.Hard? {
        conn.Send(Kill(pgid));
      }
    }
  }

  /** `_do_kill_via_connection`: every group in turn. A group whose commands raise is skipped. */
  method DoKillViaConnection(conn: Connection, pgids: seq<int>, delivery: int -> Delivery)
    modifies conn`sent
    ensures conn.sent == old(conn.sent) + AllSent(pgids, delivery)
    ensures Kills(conn.sent[|old(conn.sent)|..], pgids, delivery)
  {
    AllSentKills(pgids, delivery);
    ghost var before := conn.sent;
    ghost var done: seq<Signal> := [];
    var i := 0;
    while i < |pgids|
      invariant 0 <= i <= |pgids|
      invariant conn.sent == before + done
      invariant AllSent(pgids, delivery) == done + AllSent(pgids[i..], delivery)
    {
      KillGroup(conn, pgids[i], delivery(pgids[i]));
      AllSentFrom(pgids, i, delivery);
      Regroup(before, done, Sent(pgids[i], delivery(pgids[i])));
      Regroup(done, Sent(pgids[i], delivery(pgids[i])), AllSent(pgids[i + 1..], delivery));
      done := done + Sent(pgids[i], delivery(pgids[i]));
      i := i + 1;
    }
  }

  lemma Regroup(a: seq<Signal>, b: seq<Signal>, c: seq<Signal>)
    ensures (a + b) + c == a + (b + c)
  {
  }

  lemma AllSentFrom(pgids: seq<int>, i: nat, delivery: int -> Delivery)
    requires i < |pgids|
    ensures AllSent(pgids[i..], delivery) == Sent(pgids[i], delivery(pgids[i])) + AllSent(pgids[i + 1..], delivery)
  {
    assert pgids[i..][1..] == pgids[i + 1..];
  }

  /** Steps 0 and 0b: may this call go on to the gate? */
  method Guards(repo: CommandStateRepository, entry: Option<Entry>, id: string, force: bool, env: KillEnv)
    returns (ok: bool)
    ensures ok <==> Admitted(repo.CellAt(id), entry, force, env)
  {
    if !force {
      var killable := true;
      if entry.Some? {
        killable := entry.value.killable;
      } else {
        var got := repo.Get(id);
        if got.Err? {
          return false;
        }
        killable := got.value.killable;
      }
      if !killable {
        return false;
      }
    }
    if entry.None? {
      var recorded := repo.Get(id);
      if recorded.Ok? && !env.config {
        return false;
      }
    }
    return true;
  }

  /** What `pool_get` finds. */
  function PoolEntry(pool: RunningPool, id: string): Option<Entry>
    reads pool
  {
    if id in pool.entries then Some(pool.entries[id]) else None
  }

  method KillCommand(repo: CommandStateRepository, pool: RunningPool, conn: Connection, id: string,
                     message: string, force: bool, env: KillEnv, ttl: int)
    requires ttl > 0
    modifies repo`redis, conn`sent
    ensures var alone := KillAlone(old(repo.CellAt(id)), PoolEntry(pool, id), force, message, env, repo.now + ttl);
            repo.CellAt(id) == alone.0 && conn.sent == old(conn.sent) + alone.1
    ensures repo.OthersKept(id)
  {
    var entry := pool.Get(id);
    var ok := Guards(repo, entry, id, force, env);
    if !ok {
      return;
    }
    var flipped := repo.UpdateIf(id, IfRunning, ToKilling(message), ttl);
    if flipped != Ok(true) {
      return;
    }
    var pgids;
    if entry.Some? {
      pgids := entry.value.pgids;
    } else {
      var state := repo.Get(id);
      if state.Err? {
        return;
      }
      pgids := state.value.pgids;
      if pgids != [] && (!env.configLater || !env.connects) {
        return;
      }
    }
    DoKillViaConnection(conn, pgids, env.delivery);
    var marked := repo.Update(id, ToKilled(message), ttl);
  }

  // ----- The same call as steps of the protocol

  function Signals(k: nat, pgids: seq<int>, delivery: int -> Delivery): seq<Action> {
    if pgids == [] then [] else [ByKiller(k, SignalNext(delivery(pgids[0])))] + Signals(k, pgids[1..], delivery)
  }

  /** The guards that come before the gate; steps that do not apply change nothing. */
  function UpToGate(s: Sys, k: nat, force: bool, onLauncher: bool, message: string, env: KillEnv): Sys {
    var begun := KillStep(s, k, Begin(force, onLauncher, message));
    KillStep(KillStep(begun, k, Guard), k, CheckConfig(env.config))
  }

  /** From the gate to the first signal. */
  function UpToSignals(s: Sys, k: nat, env: KillEnv): Sys {
    var flipped := WriteStep(s, KillWriter(k));
    KillStep(KillStep(KillStep(flipped, k, Dispatch), k, Read(env.configLater)), k, Connect(env.connects))
  }

  /** The rest of the call from the gate on. */
  function FromGate(g: Sys, k: nat, env: KillEnv): Sys {
    var ready := UpToSignals(g, k, env);
    if k in ready.killers && ready.killers[k].pc.Signalling? then
      WriteStep(Exec(ready, Signals(k, ready.killers[k].pc.rest, env.delivery)), KillWriter(k))
    else ready
  }

  /** The whole call, uninterrupted. */
  function CallAlone(s: Sys, k: nat, force: bool, onLauncher: bool, message: string, env: KillEnv): Sys {
    FromGate(UpToGate(s, k, force, onLauncher, message, env), k, env)
  }

  lemma StampConcat(k: nat, xs: seq<Signal>, ys: seq<Signal>)
    ensures Stamp(k, xs + ys) == Stamp(k, xs) + Stamp(k, ys)
  {
  }

  /** The state once killer k has sent these signals and has those groups left. */
  function AfterSignals(s: Sys, k: nat, rest: seq<int>, sigs: seq<Signal>): Sys
    requires k in s.killers
  {
    SetKillPc(s, k, Signalling(rest)).(past := s.past.(signals := s.past.signals + Stamp(k, sigs)))
  }

  lemma AfterMoreSignals(s: Sys, k: nat, rest: seq<int>, xs: seq<Signal>, rest': seq<int>, ys: seq<Signal>)
    requires k in s.killers
    ensures AfterSignals(AfterSignals(s, k, rest, xs), k, rest', ys) == AfterSignals(s, k, rest', xs + ys)
  {
    StampConcat(k, xs, ys);
    assert s.past.signals + Stamp(k, xs + ys) == s.past.signals + Stamp(k, xs) + Stamp(k, ys);
    var kl := s.killers[k];
    assert s.killers[k := kl.(pc := Signalling(rest))][k := kl.(pc := Signalling(rest'))]
        == s.killers[k := kl.(pc := Signalling(rest'))];
  }

  /** The signalling steps send exactly what the loop sends and touch nothing else. */
  lemma {:induction false} SignalsSend(s: Sys, k: nat, delivery: int -> Delivery)
    requires k in s.killers && s.killers[k].pc.Signalling?
    ensures var rest := s.killers[k].pc.rest;
            Exec(s, Signals(k, rest, delivery)) == AfterSignals(s, k, [], AllSent(rest, delivery))
    decreases |s.killers[k].pc.rest|
  {
    var rest := s.killers[k].pc.rest;
    if rest == [] {
      assert Stamp(k, []) == [];
      assert s.killers == s.killers[k := s.killers[k]];
    } else {
      var first := ByKiller(k, SignalNext(delivery(rest[0])));
      var sent := Sent(rest[0], delivery(rest[0]));
      ExecFront(s, first, Signals(k, rest[1..], delivery));
      assert Step(s, first) == AfterSignals(s, k, rest[1..], sent);
      SignalsSend(AfterSignals(s, k, rest[1..], sent), k, delivery);
      AfterMoreSignals(s, k, rest[1..], sent, [], AllSent(rest[1..], delivery));
    }
  }

  /** What `pool_get` returns to this caller. */
  function EntrySeen(s: Sys, onLauncher: bool): Option<Entry> {
    if onLauncher && s.pod.pooled then Some(Entry(s.cfg.killable, s.pod.pgids)) else None
  }

  /** The call has not begun, or it is the task's own, begun by its timeout. */
  predicate Callable(s: Sys, k: nat, force: bool, onLauncher: bool, message: string) {
    k in s.killers ==> s.killers[k] == Killer(force, onLauncher, message, Guarding)
  }

  lemma ReachesGate(s: Sys, k: nat, force: bool, onLauncher: bool, message: string, env: KillEnv)
    requires Callable(s, k, force, onLauncher, message)
    ensures var n := UpToGate(s, k, force, onLauncher, message, env);
            && k in n.killers
            && n == s.(killers := s.killers[k := n.killers[k]])
            && n.killers[k] == Killer(force, onLauncher, message, n.killers[k].pc)
            && (if Admitted(s.cell, EntrySeen(s, onLauncher), force, env) then n.killers[k].pc == Gating
                else n.killers[k].pc.Stopped?)
  {
    var begun := KillStep(s, k, Begin(force, onLauncher, message));
    assert begun == s.(killers := s.killers[k := Killer(force, onLauncher, message, Guarding)]);
    var guarded := KillStep(begun, k, Guard);
    assert guarded == s.(killers := s.killers[k := Killer(force, onLauncher, message, guarded.killers[k].pc)]);
  }

  lemma ReachesSignals(s: Sys, k: nat, env: KillEnv)
    requires k in s.killers && s.killers[k].pc == Gating
    requires s.cell.Some? && s.cell.value.rec.status.Running?
    ensures var n := UpToSignals(s, k, env);
            var kl := s.killers[k];
            var targets := Targets(s.cell.value, EntrySeen(s, kl.onLauncher), env);
            && n.cell == Some(Cell(s.cell.value.rec.MarkKilling(kl.message), s.now + s.cfg.resultTtl))
            && n.now == s.now && n.cfg == s.cfg && n.pod == s.pod && n.past.signals == s.past.signals
            && k in n.killers && n.killers[k].message == kl.message
            && n.killers[k].pc == (if targets.Some? then Signalling(targets.value) else Stopped(Stranded))
  {
    var flipped := WriteStep(s, KillWriter(k));
    assert flipped.killers[k] == s.killers[k].(pc := Dispatching);
    var dispatched := KillStep(flipped, k, Dispatch);
    assert dispatched.killers[k].pc == if SeesEntry(s, s.killers[k]) then Signalling(s.pod.pgids) else Reading;
  }

  lemma StaysAtGate(s: Sys, k: nat, env: KillEnv)
    requires k in s.killers
    requires s.killers[k].pc.Stopped? || (s.killers[k].pc == Gating && (s.cell.None? || !s.cell.value.rec.status.Running?))
    ensures var n := UpToSignals(s, k, env);
            n.cell == s.cell && n.past == s.past && n.pod == s.pod && k in n.killers && n.killers[k].pc.Stopped?
  {
    assert WriteStep(s, KillWriter(k)).killers[k].pc.Stopped?;
  }

  lemma MarksKilled(s: Sys, k: nat)
    requires k in s.killers && s.killers[k].pc == Signalling([]) && s.cell.Some?
    ensures var n := WriteStep(s, KillWriter(k));
            && n.cell == Some(Cell(s.cell.value.rec.MarkKilled(s.killers[k].message), s.now + s.cfg.resultTtl))
            && n.past.signals == s.past.signals
            && n.pod == s.pod && k in n.killers && n.killers[k].pc.Stopped?
  {
  }

  /** A call that reaches an open gate. */
  lemma PassesAlone(g: Sys, k: nat, env: KillEnv)
    requires k in g.killers && g.killers[k].pc == Gating
    requires g.cell.Some? && g.cell.value.rec.status.Running?
    ensures var n := FromGate(g, k, env);
            var rec := g.cell.value.rec;
            var message := g.killers[k].message;
            var pgids := Targets(g.cell.value, EntrySeen(g, g.killers[k].onLauncher), env);
            && n.cell == Some(Cell(if pgids.Some? then rec.MarkKilled(message) else rec.MarkKilling(message),
                                   g.now + g.cfg.resultTtl))
            && n.past.signals == g.past.signals
                                 + Stamp(k, if pgids.Some? then AllSent(pgids.value, env.delivery) else [])
            && n.pod == g.pod && k in n.killers && n.killers[k].pc.Stopped?
  {
    assert Stamp(k, []) == [];
    ReachesSignals(g, k, env);
    var ready := UpToSignals(g, k, env);
    if ready.killers[k].pc.Signalling? {
      SignalsSend(ready, k, env.delivery);
      MarksKilled(Exec(ready, Signals(k, ready.killers[k].pc.rest, env.delivery)), k);
    }
  }

  /** From the gate on, whether the call was let through or not. */
  lemma FromGateAlone(s: Sys, g: Sys, k: nat, force: bool, onLauncher: bool, message: string, env: KillEnv)
    requires k in g.killers && g == s.(killers := g.killers)
    requires var pc := g.killers[k].pc;
             && g.killers[k] == Killer(force, onLauncher, message, pc)
             && (if Admitted(s.cell, EntrySeen(s, onLauncher), force, env) then pc == Gating else pc.Stopped?)
    ensures var n := FromGate(g, k, env);
            var alone := KillAlone(s.cell, EntrySeen(s, onLauncher), force, message, env, s.now + s.cfg.resultTtl);
            && n.cell == alone.0 && n.past.signals == s.past.signals + Stamp(k, alone.1)
            && n.pod == s.pod && k in n.killers && n.killers[k].pc.Stopped?
  {
    assert Stamp(k, []) == [];
    if g.killers[k].pc == Gating && s.cell.Some? && s.cell.value.rec.status.Running? {
      PassesAlone(g, k, env);
    } else {
      StaysAtGate(g, k, env);
    }
  }

  /** `kill_command` left alone is the protocol's killer left alone: same record, same signals. */
  lemma KillAloneIsProtocol(s: Sys, k: nat, force: bool, onLauncher: bool, message: string, env: KillEnv)
    requires Callable(s, k, force, onLauncher, message)
    ensures var n := CallAlone(s, k, force, onLauncher, message, env);
            var alone := KillAlone(s.cell, EntrySeen(s, onLauncher), force, message, env, s.now + s.cfg.resultTtl);
            && n.cell == alone.0 && n.past.signals == s.past.signals + Stamp(k, alone.1)
            && n.pod == s.pod && k in n.killers && n.killers[k].pc.Stopped?
  {
    ReachesGate(s, k, force, onLauncher, message, env);
    FromGateAlone(s, UpToGate(s, k, force, onLauncher, message, env), k, force, onLauncher, message, env);
  }
}
