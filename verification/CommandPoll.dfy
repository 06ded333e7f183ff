/** One poll of a Run's result as it is written, heal included, and the proof that, left alone,
    it does what the protocol's steps for one poller do. */
module CommandPoll {
  import opened Wrappers
  import opened CommandDomain
  import opened CommandStore
  import opened ExitMarker
  import opened Text
  import opened RunProtocol

  datatype PollError = RunNotFound | FormatRefused

  /** What the control node answers: can it be reached, the sidecar's contents, the log tail. */
  datatype PollEnv = PollEnv(reachable: bool, sidecar: Option<string>, tail: Option<string>)

  /** `_read_run_exit_marker` with SSH failures swallowed. */
  function CodeSeen(env: PollEnv): Option<int> {
    if env.reachable then ReadMarker(env.sidecar) else None
  }

  /** The tail is only fetched for a failure. */
  function TailSeen(env: PollEnv, code: int): Option<string> {
    if code == 0 then None else env.tail
  }

  /** The answer and the record an uninterrupted poll leaves behind. */
  function PollAlone(cell: Option<Cell>, fmt: Format, env: PollEnv, expiresAt: int)
    : (Result<Record, PollError>, Option<Cell>)
  {
    if cell.None? then (Err(RunNotFound), cell)
    else
      var rec := cell.value.rec;
      if !FormatAllowed(rec, fmt) then (Err(FormatRefused), cell)
      else if !Healable(rec) || CodeSeen(env).None? then (Ok(rec), cell)
      else
        var healed := HealUpdate(CodeSeen(env).value, TailSeen(env, CodeSeen(env).value)).Apply(rec);
        (Ok(healed), Some(Cell(healed, expiresAt)))
  }

  /** What an uninterrupted poll answers and leaves, case by case. A rendering as JSON is refused for
      a Run that never promised it; a logged Run in flight whose sidecar says how the script ended is
      finished with just that; everything else is answered as it is stored. */
  lemma PollLeaves(cell: Option<Cell>, fmt: Format, env: PollEnv, expiresAt: int)
    ensures var (reply, left) := PollAlone(cell, fmt, env, expiresAt);
            && (cell.None? ==> reply == Err(RunNotFound) && left == cell)
            && (cell.Some? ==>
                  var rec := cell.value.rec;
                  if fmt.JsonFormat? && rec.contract.Text? then reply == Err(FormatRefused) && left == cell
                  else if (rec.status.Running? || rec.status.Killing?) && rec.runLogPath.Some? && rec.runLogPath.value != ""
                          && Tells(env)
                  then Finishes(reply, left, rec, env, expiresAt)
                  else reply == Ok(rec) && left == cell)
  {
    SeesExactly(env);
    if cell.Some? && CodeSeen(env).Some? {
      HealFinishes(cell.value.rec, env, expiresAt);
    }
  }

  /** The sidecar could be read and spells an exit code. */
  ghost predicate Tells(env: PollEnv) {
    env.reachable && env.sidecar.Some? && exists code :: Spells(Strip(env.sidecar.value), code)
  }

  lemma SeesExactly(env: PollEnv)
    ensures CodeSeen(env).Some? <==> Tells(env)
    ensures CodeSeen(env).Some? ==> env.sidecar.Some? && Spells(Strip(env.sidecar.value), CodeSeen(env).value)
  {
    if env.sidecar.Some? {
      forall code
        ensures ParseInt(Strip(env.sidecar.value)) == Some(code) <==> Spells(Strip(env.sidecar.value), code)
      {
        ParsesExactly(Strip(env.sidecar.value), code);
      }
    }
  }

  lemma HealFinishes(rec: Record, env: PollEnv, expiresAt: int)
    requires CodeSeen(env).Some? && env.sidecar.Some? && Spells(Strip(env.sidecar.value), CodeSeen(env).value)
    ensures var healed := HealUpdate(CodeSeen(env).value, TailSeen(env, CodeSeen(env).value)).Apply(rec);
            Finishes(Ok(healed), Some(Cell(healed, expiresAt)), rec, env, expiresAt)
  {
  }

  /** The record is finished with the code its sidecar spells: SUCCESS without output for 0, otherwise
      FAILED with the log's tail, if it could be read, and what else it held before. */
  ghost predicate Finishes(reply: Result<Record, PollError>, left: Option<Cell>, rec: Record, env: PollEnv, expiresAt: int) {
    && left.Some? && left.value.expiresAt == expiresAt && reply == Ok(left.value.rec)
    && left.value.rec.exitCode.Some? && env.sidecar.Some? && Spells(Strip(env.sidecar.value), left.value.rec.exitCode.value)
    && left.value.rec ==
       if left.value.rec.exitCode == Some(0)
       then rec.(status := Success, exitCode := Some(0), output := Some(""))
       else rec.(status := Failed, exitCode := left.value.rec.exitCode, message := left.value.rec.message,
                 output := if env.tail.Some? then env.tail else rec.output)
  }

  /** `_heal_from_marker`. */
  method HealFromMarker(repo: CommandStateRepository, id: string, seen: Record, env: PollEnv, ttl: int)
    returns (r: Result<Record, StoreError>)
    requires ttl > 0
    modifies repo`redis
    ensures CodeSeen(env).None? ==> r == Ok(seen) && repo.redis == old(repo.redis)
    ensures CodeSeen(env).Some? ==>
              var code := CodeSeen(env).value;
              && repo.CellAt(id) ==
                 UpdateCell(old(repo.CellAt(id)), IfInFlight, HealUpdate(code, TailSeen(env, code)), repo.now + ttl).1
              && r == (if repo.CellAt(id).Some? then Ok(repo.CellAt(id).value.rec) else Err(NotFound))
    ensures repo.OthersKept(id)
  {
    var code := CodeSeen(env);
    if code.None? {
      return Ok(seen);
    }
    var upd := if code.value == 0 then Succeed(code.value, "")
               else Fail(HealMessage(code.value), Some(code.value), env.tail);
    var healed := repo.UpdateIf(id, IfInFlight, upd, ttl);
    if healed.Err? {
      return Err(healed.error);
    }
    r := repo.Get(id);
  }

  /** `get_command_execution_result`. */
  method GetExecutionResult(repo: CommandStateRepository, id: string, fmt: Format, env: PollEnv, ttl: int)
    returns (r: Result<Record, PollError>)
    requires ttl > 0
    modifies repo`redis
    ensures (r, repo.CellAt(id)) == PollAlone(old(repo.CellAt(id)), fmt, env, repo.now + ttl)
    ensures repo.OthersKept(id)
  {
    var state := repo.Get(id);
    if state.Err? {
      return Err(RunNotFound);
    }
    if !FormatAllowed(state.value, fmt) {
      return Err(FormatRefused);
    }
    if Healable(state.value) {
      state := HealFromMarker(repo, id, state.value, env, ttl);
      if state.Err? {
        return Err(RunNotFound);
      }
    }
    return Ok(state.value);
  }

  /** The same poll as steps of the protocol. */
  function PollSteps(s: Sys, p: nat, env: PollEnv): Sys {
    var begun := PollStep(PollStep(s, p, BeginPoll), p, Fetch);
    var looked := PollStep(begun, p, LookAtMarker(env.reachable, env.tail));
    PollStep(WriteStep(looked, PollWriter(p)), p, Reread)
  }

  lemma LooksAtMarker(s: Sys, p: nat, env: PollEnv)
    requires p !in s.pollers && s.script.exitFile == env.sidecar
    ensures var n := PollStep(PollStep(PollStep(s, p, BeginPoll), p, Fetch), p, LookAtMarker(env.reachable, env.tail));
            && p in n.pollers && n == s.(pollers := n.pollers)
            && n.pollers[p] ==
               (if s.cell.Some? && Healable(s.cell.value.rec) && CodeSeen(env).Some?
                then Healing(CodeSeen(env).value, TailSeen(env, CodeSeen(env).value))
                else Answered(Reply(s.cell)))
  {
    var begun := PollStep(PollStep(s, p, BeginPoll), p, Fetch);
    assert begun.pollers[p] ==
      (if s.cell.Some? && Healable(s.cell.value.rec) then ReadingMarker(s.cell.value.rec) else Answered(Reply(s.cell)));
  }

  /** The heal's write and the second read. */
  lemma HealsAndRereads(s: Sys, p: nat, code: int, tail: Option<string>)
    requires p in s.pollers && s.pollers[p] == Healing(code, tail)
    requires s.cell.Some? && Healable(s.cell.value.rec)
    ensures var n := PollStep(WriteStep(s, PollWriter(p)), p, Reread);
            var healed := HealUpdate(code, tail).Apply(s.cell.value.rec);
            && n.cell == Some(Cell(healed, s.now + s.cfg.resultTtl))
            && p in n.pollers && n.pollers[p] == Answered(Some(healed))
  {
    assert WriteStep(s, PollWriter(p)).pollers[p] == Rereading;
  }

  lemma AnsweredStays(s: Sys, p: nat)
    requires p in s.pollers && s.pollers[p].Answered?
    ensures var n := PollStep(WriteStep(s, PollWriter(p)), p, Reread);
            n.cell == s.cell && p in n.pollers && n.pollers[p] == s.pollers[p]
  {
  }

  /** A poll left alone is the protocol's poller left alone: same answer, same record. */
  lemma PollAloneIsProtocol(s: Sys, p: nat, env: PollEnv)
    requires p !in s.pollers && s.script.exitFile == env.sidecar
    ensures var n := PollSteps(s, p, env);
            var (reply, cell) := PollAlone(s.cell, RawFormat, env, s.now + s.cfg.resultTtl);
            && n.cell == cell
            && p in n.pollers
            && n.pollers[p] == Answered(if reply.Ok? then Some(reply.value) else None)
  {
    LooksAtMarker(s, p, env);
    var n := PollStep(PollStep(PollStep(s, p, BeginPoll), p, Fetch), p, LookAtMarker(env.reachable, env.tail));
    if n.pollers[p].Healing? {
      HealsAndRereads(n, p, n.pollers[p].code, n.pollers[p].tail);
    } else {
      AnsweredStays(n, p);
    }
  }
}
