/** The Redis-backed state repository: one cell per command id, each with an expiry time. */
module CommandStore {
  import opened Wrappers
  import opened CommandDomain

  /** A stored record and the instant from which Redis no longer returns it. */
  datatype Cell = Cell(rec: Record, expiresAt: int)

  /** How a read-modify-write ended: no record, condition false, or written. */
  datatype Outcome = Missing | Declined | Saved

  /** One atomic `update_if` on one cell; `Always` makes it `update`. */
  function UpdateCell(cell: Option<Cell>, cond: Condition, upd: Updater, expiresAt: int)
    : (r: (Outcome, Option<Cell>))
    ensures r.0.Saved? <==> cell.Some? && cond.Holds(cell.value.rec)
    ensures !r.0.Saved? ==> r.1 == cell
    ensures r.1.Some? <==> cell.Some?
  {
    match cell
    case None => (Missing, None)
    case Some(c) =>
      if cond.Holds(c.rec) then (Saved, Some(Cell(upd.Apply(c.rec), expiresAt))) else (Declined, cell)
  }

  const PREFIX := "command"

  function Key(id: string): string {
    PREFIX + ":" + id
  }

  lemma KeyInjective(a: string, b: string)
    requires Key(a) == Key(b)
    ensures a == b
  {
    assert a == Key(a)[|PREFIX| + 1..];
    assert b == Key(b)[|PREFIX| + 1..];
  }

  datatype StoreError = NotFound | InvalidTtl

  class CommandStateRepository {
    /** Cells whose expiry lies in the past read as absent. */
    var redis: map<string, Cell>
    var now: int

    constructor (start: int)
      ensures redis == map[] && now == start
    {
      redis := map[];
      now := start;
    }

    /** What a read of this id returns at this instant. */
    function CellAt(id: string): Option<Cell>
      reads this
    {
      if Key(id) in redis && now < redis[Key(id)].expiresAt then Some(redis[Key(id)]) else None
    }

    /** No key but this id's own was touched. */
    twostate predicate OthersKept(id: string)
      reads this
    {
      && now == old(now)
      && forall k :: k != Key(id) ==> (k in redis <==> k in old(redis)) && (k in redis ==> redis[k] == old(redis)[k])
    }

    /** Time passes. */
    method Pass(d: nat)
      modifies this`now
      ensures now == old(now) + d
    {
      now := now + d;
    }

    method Save(id: string, rec: Record, ttl: int) returns (r: Result<(), StoreError>)
      modifies this`redis
      ensures r == if ttl > 0 then Ok(()) else Err(InvalidTtl)
      ensures r.Ok? ==> CellAt(id) == Some(Cell(rec, now + ttl)) && OthersKept(id)
      ensures r.Err? ==> redis == old(redis)
    {
      if ttl <= 0 {
        return Err(InvalidTtl);
      }
      redis := redis[Key(id) := Cell(rec, now + ttl)];
      return Ok(());
    }

    method Get(id: string) returns (r: Result<Record, StoreError>)
      ensures r == if CellAt(id).Some? then Ok(CellAt(id).value.rec) else Err(NotFound)
    {
      var key := Key(id);
      if key !in redis || redis[key].expiresAt <= now {
        return Err(NotFound);
      }
      return Ok(redis[key].rec);
    }

    method Update(id: string, upd: Updater, ttl: int) returns (r: Result<(), StoreError>)
      modifies this`redis
      ensures r == if old(CellAt(id)).None? then Err(NotFound) else if ttl <= 0 then Err(InvalidTtl) else Ok(())
      ensures r.Ok? ==> CellAt(id) == UpdateCell(old(CellAt(id)), Always, upd, now + ttl).1 && OthersKept(id)
      ensures r.Err? ==> redis == old(redis)
    {
      var got := Get(id);
      if got.Err? {
        return Err(got.error);
      }
      var state := new CommandState.Parse(got.value);
      state.Run(upd);
      r := Save(id, state.Snapshot(), ttl);
    }

    method UpdateIf(id: string, cond: Condition, upd: Updater, ttl: int) returns (r: Result<bool, StoreError>)
      modifies this`redis
      ensures r == match UpdateCell(old(CellAt(id)), cond, upd, now + ttl).0
                   case Missing => Err(NotFound)
                   case Declined => Ok(false)
                   case Saved => if ttl <= 0 then Err(InvalidTtl) else Ok(true)
      ensures r == Ok(true) ==>
                CellAt(id) == UpdateCell(old(CellAt(id)), cond, upd, now + ttl).1 && OthersKept(id)
      ensures r != Ok(true) ==> redis == old(redis)
    {
      var got := Get(id);
      if got.Err? {
        return Err(got.error);
      }
      if !cond.Holds(got.value) {
        return Ok(false);
      }
      var state := new CommandState.Parse(got.value);
      state.Run(upd);
      var saved := Save(id, state.Snapshot(), ttl);
      if saved.Err? {
        return Err(saved.error);
      }
      return Ok(true);
    }
  }
}
