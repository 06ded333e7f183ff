/** The record kept for one Run (`CommandState`), its status changes, and the whitelist
    validator that constrains it. The connection metadata, fixed at launch, is left out. */
module CommandDomain {
  import opened Wrappers

  datatype Status = Running | Killing | Success | Failed | Killed

  /** The operator's declaration of what a Command writes on stdout. */
  datatype OutputContract = Text | Json

  /** The part of a stored `CommandState` that the protocol reads or writes. */
  datatype Record = Record(
    status: Status,
    exitCode: Option<int>,
    output: Option<string>,
    message: Option<string>,
    runLogPath: Option<string>,
    contract: OutputContract,
    killable: bool,
    pgids: seq<int>)
  {
    function MarkSuccess(code: int, out: string): Record {
      this.(status := Success, exitCode := Some(code), output := Some(out))
    }

    function MarkFailed(msg: string, code: Option<int>, out: Option<string>): Record {
      this.(status := Failed,
            message := Some(msg),
            exitCode := if code.Some? then code else exitCode,
            output := if out.Some? then out else output)
    }

    function MarkKilling(msg: string): Record {
      this.(status := Killing, message := Some(msg))
    }

    function MarkKilled(msg: string): Record {
      this.(status := Killed, message := Some(msg))
    }
  }

  /** What the closures handed to `update` and `update_if` do to the record. */
  datatype Updater =
    | SetPgids(pgids: seq<int>)
    | Succeed(code: int, out: string)
    | Fail(msg: string, exit: Option<int>, tail: Option<string>)
    | ToKilling(msg: string)
    | ToKilled(msg: string)
  {
    function Apply(r: Record): Record {
      match this
      case SetPgids(p) => r.(pgids := p)
      case Succeed(code, out) => r.MarkSuccess(code, out)
      case Fail(msg, exit, tail) => r.MarkFailed(msg, exit, tail)
      case ToKilling(msg) => r.MarkKilling(msg)
      case ToKilled(msg) => r.MarkKilled(msg)
    }
  }

  /** The conditions handed to `update_if`; `Always` stands for a plain `update`. */
  datatype Condition = Always | IfRunning | IfInFlight
  {
    predicate Holds(r: Record) {
      match this
      case Always => true
      case IfRunning => r.status.Running?
      case IfInFlight => r.status.Running? || r.status.Killing?
    }
  }

  /** The mutable model object a repository call works on between its read and its write. */
  class CommandState {
    var status: Status
    var exitCode: Option<int>
    var output: Option<string>
    var message: Option<string>
    var runLogPath: Option<string>
    var contract: OutputContract
    var killable: bool
    var pgids: seq<int>

    /** What `model_dump_json` would store for this object. */
    function Snapshot(): Record
      reads this
    {
      Record(status, exitCode, output, message, runLogPath, contract, killable, pgids)
    }

    constructor Parse(r: Record)
      ensures Snapshot() == r
    {
      status, exitCode, output, message := r.status, r.exitCode, r.output, r.message;
      runLogPath, contract, killable, pgids := r.runLogPath, r.contract, r.killable, r.pgids;
    }

    method MarkSuccess(code: int, out: string)
      modifies this
      ensures Snapshot() == old(Snapshot()).MarkSuccess(code, out)
    {
      status := Success;
      exitCode := Some(code);
      output := Some(out);
    }

    method MarkFailed(msg: string, code: Option<int>, out: Option<string>)
      modifies this
      ensures Snapshot() == old(Snapshot()).MarkFailed(msg, code, out)
    {
      status := Failed;
      message := Some(msg);
      if code.Some? {
        exitCode := code;
      }
      if out.Some? {
        output := out;
      }
    }

    method MarkKilling(msg: string)
      modifies this
      ensures Snapshot() == old(Snapshot()).MarkKilling(msg)
    {
      status := Killing;
      message := Some(msg);
    }

    method MarkKilled(msg: string)
      modifies this
      ensures Snapshot() == old(Snapshot()).MarkKilled(msg)
    {
      status := Killed;
      message := Some(msg);
    }

    /** Runs one of the services' updater closures on this object. */
    method Run(u: Updater)
      modifies this
      ensures Snapshot() == u.Apply(old(Snapshot()))
      ensures u.SetPgids? ==> pgids == u.pgids && Snapshot().(pgids := []) == old(Snapshot()).(pgids := [])
    {
      match u
      case SetPgids(p) => pgids := p;
      case Succeed(code, out) => MarkSuccess(code, out);
      case Fail(msg, exit, tail) => MarkFailed(msg, exit, tail);
      case ToKilling(msg) => MarkKilling(msg);
      case ToKilled(msg) => MarkKilled(msg);
    }
  }

  datatype ConfigError = JsonWithLogged | JsonWithDisconnect

  /** `_validate_output_format`: which output contracts a whitelist entry may declare. */
  function ValidateOutputFormat(contract: OutputContract, logged: bool, disconnects: bool)
    : Result<(), ConfigError>
  {
    if !contract.Json? then Ok(())
    else if logged then Err(JsonWithLogged)
    else if disconnects then Err(JsonWithDisconnect)
    else Ok(())
  }

  datatype Format = RawFormat | JsonFormat

  /** `ensure_format_allowed`: may the caller ask for this rendering? */
  predicate FormatAllowed(r: Record, fmt: Format) {
    fmt.RawFormat? || r.contract.Json?
  }

  datatype JsonError = ParseFailed | OutputUnavailable | NotApplicable

  /** `parse_output`, with the JSON parser as a parameter. */
  function ParseOutput<V>(r: Record, parse: string -> Option<V>): Result<V, JsonError> {
    if !r.status.Success? then Err(NotApplicable)
    else if r.output.None? || r.output.value == "" then Err(OutputUnavailable)
    else
      match parse(r.output.value)
      case Some(v) => Ok(v)
      case None => Err(ParseFailed)
  }
}
