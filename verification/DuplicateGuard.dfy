/** Triggering pipelines behind the duplicate guard. */
module DuplicateGuard {
  import opened Wrappers
  import opened PipelineScan

  type Variables = map<string, string>

  // ----- Variables

  /** A dict filled in order: the last value of a key stays. */
  function ToMap(vars: seq<Variable>): Variables {
    if vars == [] then map[]
    else ToMap(vars[..|vars| - 1])[vars[|vars| - 1].key := vars[|vars| - 1].value]
  }

  predicate LastOfKey(vars: seq<Variable>, i: int) {
    0 <= i < |vars| && forall j :: i < j < |vars| ==> vars[j].key != vars[i].key
  }

  lemma {:induction false} LastStays(vars: seq<Variable>, i: int)
    requires LastOfKey(vars, i)
    ensures vars[i].key in ToMap(vars) && ToMap(vars)[vars[i].key] == vars[i].value
  {
    var n := |vars| - 1;
    if i < n {
      assert vars[n].key != vars[i].key;
      LastStays(vars[..n], i);
    }
  }

  lemma {:induction false} KeyHasLast(vars: seq<Variable>, key: string) returns (i: int)
    requires key in ToMap(vars)
    ensures LastOfKey(vars, i) && vars[i].key == key
  {
    var n := |vars| - 1;
    i := n;
    if vars[n].key != key {
      i := KeyHasLast(vars[..n], key);
      assert forall j :: i < j < n ==> vars[j] == vars[..n][j];
    }
  }

  /** EXECUTION from the action, then the caller's variables over it. */
  function Merged(action: string, extra: seq<Variable>): Variables {
    map["EXECUTION" := action] + ToMap(extra)
  }

  /** Every key of the caller's has the value of its last occurrence, EXECUTION is the action if the
      caller has no such key, and there is nothing else. */
  ghost predicate HoldsExactly(variables: Variables, action: string, extra: seq<Variable>) {
    && (forall i :: LastOfKey(extra, i) ==> extra[i].key in variables && variables[extra[i].key] == extra[i].value)
    && ((forall i :: LastOfKey(extra, i) ==> extra[i].key != "EXECUTION") ==>
          "EXECUTION" in variables && variables["EXECUTION"] == action)
    && (forall key :: key in variables && key != "EXECUTION" ==> Sent(extra, key))
  }

  ghost predicate Sent(extra: seq<Variable>, key: string) {
    exists i :: LastOfKey(extra, i) && extra[i].key == key
  }

  /** That is what merging gives. */
  lemma MergedHoldsExactly(action: string, extra: seq<Variable>)
    ensures HoldsExactly(Merged(action, extra), action, extra)
  {
    forall i | LastOfKey(extra, i)
      ensures extra[i].key in ToMap(extra) && ToMap(extra)[extra[i].key] == extra[i].value
    {
      LastStays(extra, i);
    }
    forall key | key in ToMap(extra)
      ensures Sent(extra, key)
    {
      var i := KeyHasLast(extra, key);
    }
    if "EXECUTION" in ToMap(extra) {
      assert Sent(extra, "EXECUTION");
    }
  }

  lemma MergedNext(action: string, extra: seq<Variable>, i: nat)
    requires i < |extra|
    ensures Merged(action, extra[..i + 1]) == Merged(action, extra[..i])[extra[i].key := extra[i].value]
  {
    assert extra[..i + 1][..i] == extra[..i];
  }

  method BuildVariables(action: string, extra: seq<Variable>) returns (variables: Variables)
    ensures variables == Merged(action, extra) && HoldsExactly(variables, action, extra)
  {
    variables := map["EXECUTION" := action];
    for i := 0 to |extra|
      invariant variables == Merged(action, extra[..i])
    {
      MergedNext(action, extra, i);
      variables := variables[extra[i].key := extra[i].value];
    }
    assert extra[..|extra|] == extra;
    MergedHoldsExactly(action, extra);
  }

  /** EXECUTION is the action exactly if the caller sends no EXECUTION variable, or ends with
      one that has that very value. */
  lemma ExecutionIsAction(action: string, extra: seq<Variable>)
    ensures "EXECUTION" in Merged(action, extra)
    ensures Merged(action, extra)["EXECUTION"] == action <==>
            forall i :: LastOfKey(extra, i) && extra[i].key == "EXECUTION" ==> extra[i].value == action
  {
    forall i | LastOfKey(extra, i) && extra[i].key == "EXECUTION"
      ensures Merged(action, extra)["EXECUTION"] == extra[i].value
    {
      LastStays(extra, i);
    }
    if "EXECUTION" in ToMap(extra) {
      var i := KeyHasLast(extra, "EXECUTION");
    }
  }

  const EXCLUDED: set<string> := {"SERVICE_FROM"}

  /** What duplicates are compared by. */
  function Business(variables: Variables): Variables {
    variables - EXCLUDED
  }

  /** The same values for everything but the account. */
  ghost predicate DoTheSame(a: Variables, b: Variables) {
    forall key :: key != "SERVICE_FROM" ==> (key in a <==> key in b) && (key in a ==> a[key] == b[key])
  }

  /** Only the account is left out of the comparison. */
  lemma BusinessExactly(a: Variables, b: Variables)
    ensures Business(a) == Business(b) <==> DoTheSame(a, b)
  {
    assert forall key :: key in Business(a) <==> key in a && key != "SERVICE_FROM";
    assert forall key :: key in Business(b) <==> key in b && key != "SERVICE_FROM";
    if Business(a) == Business(b) {
      forall key | key != "SERVICE_FROM"
        ensures (key in a <==> key in b) && (key in a ==> a[key] == b[key])
      {
        assert key in a <==> key in Business(a);
        assert key in b <==> key in Business(b);
        assert key in Business(a) ==> Business(a)[key] == a[key] && Business(b)[key] == b[key];
      }
    }
    if DoTheSame(a, b) {
      assert Business(a).Keys == Business(b).Keys;
      assert forall key :: key in Business(a) ==> Business(a)[key] == Business(b)[key];
    }
  }

  predicate VariablesMatch(p: Listed, expected: Variables) {
    Business(ToMap(p.variables)) == Business(expected)
  }

  /** A pipeline whose variables could not be read is never taken for a duplicate. */
  lemma UnreadMatchesNothing(p: Stub, fetch: int -> Option<seq<Variable>>, action: string, extra: seq<Variable>)
    requires fetch(p.id).None?
    ensures !VariablesMatch(WithVariables(p, fetch), Merged(action, extra))
  {
    assert "EXECUTION" in Business(Merged(action, extra));
  }

  // ----- find_duplicate_pipelines, trigger_pipeline

  function Duplicates(running: seq<Listed>, target: Variables): seq<Listed> {
    if running == [] then []
    else (if VariablesMatch(running[0], target) then [running[0]] else []) + Duplicates(running[1..], target)
  }

  method FindDuplicatePipelines(action: string, extra: seq<Variable>, running: seq<Listed>)
    returns (duplicates: seq<Listed>)
    ensures duplicates == Duplicates(running, Merged(action, extra))
  {
    var target := BuildVariables(action, extra);
    return Duplicates(running, target);
  }

  datatype Pipeline = Pipeline(ref: string, status: string, variables: Variables)

  predicate Active(p: Pipeline) { p.status in ACTIVE }

  /** All pipelines of the project. */
  type Project = map<int, Pipeline>

  class PipelineServer {
    var pipelines: Project

    constructor ()
      ensures pipelines == map[]
    {
      pipelines := map[];
    }

    /** `id` is the one GitLab gives the new pipeline. */
    method Create(ref: string, variables: Variables, id: int)
      requires id !in pipelines
      modifies this
      ensures pipelines == old(pipelines)[id := Pipeline(ref, "created", variables)]
    {
      pipelines := pipelines[id := Pipeline(ref, "created", variables)];
    }
  }

  datatype Conflict = Conflict(id: int, status: string)

  method TriggerPipeline(server: PipelineServer, action: string, ref: string, extra: seq<Variable>,
                         running: seq<Listed>, id: int)
    returns (r: Result<int, Conflict>)
    requires id !in server.pipelines
    modifies server
    ensures var found := Duplicates(running, Merged(action, extra));
            if found != [] then r == Err(Conflict(found[0].id, found[0].status)) && server.pipelines == old(server.pipelines)
            else r == Ok(id) && server.pipelines == old(server.pipelines)[id := Pipeline(ref, "created", Merged(action, extra))]
    ensures r.Ok? ==> id in server.pipelines && HoldsExactly(server.pipelines[id].variables, action, extra)
  {
    var duplicates := FindDuplicatePipelines(action, extra, running);
    if duplicates != [] {
      return Err(Conflict(duplicates[0].id, duplicates[0].status));
    }
    var variables := BuildVariables(action, extra);
    server.Create(ref, variables, id);
    return Ok(id);
  }

  /** The trigger endpoint puts the caller's account first. */
  function WithAccount(account: string, body: seq<Variable>): seq<Variable> {
    [Variable("SERVICE_FROM", account)] + body
  }

  lemma {:induction false} ToMapConcat(a: seq<Variable>, b: seq<Variable>)
    ensures ToMap(a + b) == ToMap(a) + ToMap(b)
  {
    if b == [] {
      assert a + b == a;
    } else {
      var n := |b| - 1;
      ToMapConcat(a, b[..n]);
      assert (a + b)[..|a + b| - 1] == a + b[..n] && (a + b)[|a + b| - 1] == b[n];
      var all := ToMap(a) + ToMap(b[..n]);
      assert all[b[n].key := b[n].value] == ToMap(a) + ToMap(b[..n])[b[n].key := b[n].value];
    }
  }

  lemma AccountIsNoBusiness(action: string, account: string, body: seq<Variable>)
    ensures Business(Merged(action, WithAccount(account, body))) == Business(Merged(action, body))
  {
    var first := [Variable("SERVICE_FROM", account)];
    ToMapConcat(first, body);
    assert first[..0] == [];
    assert ToMap(first) == map["SERVICE_FROM" := account];
  }

  /** The endpoint adds the caller's account and nothing else; it is the one stored exactly if the
      body brings none, or ends with one that has that very value. */
  lemma AccountIsAdded(action: string, account: string, body: seq<Variable>)
    ensures var created := Merged(action, WithAccount(account, body));
            && DoTheSame(created, Merged(action, body))
            && "SERVICE_FROM" in created
            && (created["SERVICE_FROM"] == account <==>
                forall i :: LastOfKey(body, i) && body[i].key == "SERVICE_FROM" ==> body[i].value == account)
  {
    AccountIsNoBusiness(action, account, body);
    BusinessExactly(Merged(action, WithAccount(account, body)), Merged(action, body));
    var first := [Variable("SERVICE_FROM", account)];
    ToMapConcat(first, body);
    assert first[..0] == [] && ToMap(first) == map["SERVICE_FROM" := account];
    forall i | LastOfKey(body, i) && body[i].key == "SERVICE_FROM"
      ensures "SERVICE_FROM" in ToMap(body) && ToMap(body)["SERVICE_FROM"] == body[i].value
    {
      LastStays(body, i);
    }
    if "SERVICE_FROM" in ToMap(body) {
      var i := KeyHasLast(body, "SERVICE_FROM");
    }
  }

  lemma {:induction false} DuplicatesBySubject(running: seq<Listed>, target: Variables, target': Variables)
    requires Business(target) == Business(target')
    ensures Duplicates(running, target) == Duplicates(running, target')
  {
    if running != [] {
      DuplicatesBySubject(running[1..], target, target');
    }
  }

  /** The check endpoint shows exactly what would block the trigger, whoever calls either. */
  lemma CheckPredictsTrigger(action: string, account: string, body: seq<Variable>, running: seq<Listed>)
    ensures Duplicates(running, Merged(action, body)) == Duplicates(running, Merged(action, WithAccount(account, body)))
  {
    AccountIsNoBusiness(action, account, body);
    DuplicatesBySubject(running, Merged(action, WithAccount(account, body)), Merged(action, body));
  }

  lemma {:induction false} DuplicatesAreTheMatches(running: seq<Listed>, target: Variables)
    ensures forall p :: p in Duplicates(running, target) <==> p in running && VariablesMatch(p, target)
  {
    if running != [] {
      DuplicatesAreTheMatches(running[1..], target);
    }
  }

  // ----- A listing of a project at rest

  function OnRef(project: Project, ref: string): Snapshot {
    map id | id in project && project[id].ref == ref :: project[id].status
  }

  /** The listing holds the active pipelines of the ref with their variables. */
  predicate Faithful(project: Project, ref: string, running: seq<Listed>) {
    && (forall p :: p in running ==> Shows(project, ref, p))
    && (forall id :: id in project && project[id].ref == ref && Active(project[id]) ==> Reported(running, id))
  }

  predicate Shows(project: Project, ref: string, p: Listed) {
    && p.id in project && project[p.id].ref == ref && Active(project[p.id])
    && ToMap(p.variables) == project[p.id].variables
  }

  /** Variables are read back as they were stored. */
  predicate ReadsBack(project: Project, fetch: int -> Option<seq<Variable>>) {
    forall id :: id in project ==> fetch(id).Some? && ToMap(fetch(id).value) == project[id].variables
  }

  /** A scan during which nothing moves is faithful, if no status overflows its page and every
      pipeline's variables can be read. */
  lemma QuietScanIsFaithful(project: Project, ref: string, pages: seq<seq<Stub>>, fetch: int -> Option<seq<Variable>>)
    requires Answers(pages, seq(|ACTIVE|, _ => OnRef(project, ref))) && ReadsBack(project, fetch)
    ensures Faithful(project, ref, Scan(pages, fetch))
  {
    var snap := OnRef(project, ref);
    var snaps: seq<Snapshot> := seq(|ACTIVE|, _ => snap);
    var running := Scan(pages, fetch);
    forall p | p in running
      ensures Shows(project, ref, p)
    {
      var i :| 0 <= i < |running| && running[i] == p;
      ScanSeesExactly(pages, snaps, fetch, p.id);
      assert Reported(running, p.id);
      var k: nat :| Caught(snaps, p.id, k);
      assert snap[p.id] == ACTIVE[k];
    }
    forall id | id in project && project[id].ref == ref && Active(project[id])
      ensures Reported(running, id)
    {
      var k: nat :| k < |ACTIVE| && ACTIVE[k] == project[id].status;
      assert Caught(snaps, id, k);
      ScanSeesExactly(pages, snaps, fetch, id);
    }
  }

  // ----- No two active twins

  predicate Twins(p: Pipeline, q: Pipeline) {
    Active(p) && Active(q) && p.ref == q.ref && Business(p.variables) == Business(q.variables)
  }

  predicate NoTwins(project: Project) {
    forall i, j :: i in project && j in project && i != j ==> !Twins(project[i], project[j])
  }

  datatype Event =
    | Trigger(action: string, ref: string, account: string, body: seq<Variable>, running: seq<Listed>, id: int)
    | Move(id: int, status: string)    // GitLab runs it, finishes it, or is told to cancel it
    | Reactivate(id: int, status: string)  // a retry, or a manual job that is played

  /** Triggers see the project as it is; a move does not bring a finished pipeline back. */
  predicate Possible(project: Project, e: Event) {
    match e
    case Trigger(_, ref, _, _, running, id) => Faithful(project, ref, running) && id !in project
    case Move(id, status) => id in project && (status in ACTIVE ==> Active(project[id]))
    case Reactivate(id, status) => id in project && !Active(project[id]) && status in ACTIVE
  }

  function Happen(project: Project, e: Event): Project {
    match e
    case Trigger(action, ref, account, body, running, id) =>
      var vars := Merged(action, WithAccount(account, body));
      if Duplicates(running, vars) != [] then project else project[id := Pipeline(ref, "created", vars)]
    case Move(id, status) => Restated(project, id, status)
    case Reactivate(id, status) => Restated(project, id, status)
  }

  function Restated(project: Project, id: int, status: string): Project {
    if id in project then project[id := project[id].(status := status)] else project
  }

  /** The trigger endpoint. */
  method Stage(server: PipelineServer, action: string, ref: string, account: string, body: seq<Variable>,
               running: seq<Listed>, id: int)
    returns (r: Result<int, Conflict>)
    requires id !in server.pipelines
    modifies server
    ensures server.pipelines == Happen(old(server.pipelines), Trigger(action, ref, account, body, running, id))
    ensures r.Err? <==> Duplicates(running, Merged(action, body)) != []
  {
    CheckPredictsTrigger(action, account, body, running);
    r := TriggerPipeline(server, action, ref, WithAccount(account, body), running, id);
  }

  /** With a faithful listing, the guard refuses exactly what would be a twin. */
  lemma GuardRefusesTwins(project: Project, ref: string, running: seq<Listed>, vars: Variables)
    requires Faithful(project, ref, running)
    ensures Duplicates(running, vars) != [] <==>
            exists id :: id in project && Twins(project[id], Pipeline(ref, "created", vars))
  {
    DuplicatesAreTheMatches(running, vars);
    var found := Duplicates(running, vars);
    assert ACTIVE[0] == "created";
    if found != [] {
      assert found[0] in found && Shows(project, ref, found[0]);
    }
    if id :| id in project && Twins(project[id], Pipeline(ref, "created", vars)) {
      assert Reported(running, id);
      var i :| 0 <= i < |running| && running[i].id == id;
      assert running[i] in running && Shows(project, ref, running[i]);
      assert running[i] in found;
    }
  }

  lemma EventKeepsNoTwins(project: Project, e: Event)
    requires NoTwins(project) && Possible(project, e) && !e.Reactivate?
    ensures NoTwins(Happen(project, e))
  {
    match e {
      case Trigger(action, ref, account, body, running, id) =>
        GuardRefusesTwins(project, ref, running, Merged(action, WithAccount(account, body)));
      case Move(id, status) =>
        var after := Happen(project, e);
        assert forall i, j :: i in project && j in project && Twins(after[i], after[j]) ==> Twins(project[i], project[j]);
    }
  }

  /** Reactivating keeps the project free of twins exactly if no active pipeline has taken the
      reactivated one's place: the check that a retry does not make. */
  lemma ReactivationKeepsExactly(project: Project, e: Event)
    requires NoTwins(project) && Possible(project, e) && e.Reactivate?
    ensures NoTwins(Happen(project, e)) <==>
            forall j :: j in project && Active(project[j]) && project[j].ref == project[e.id].ref
                        ==> Business(project[j].variables) != Business(project[e.id].variables)
  {
    var after := Happen(project, e);
    assert forall j :: j in project && j != e.id ==> after[j] == project[j];
    assert !Active(project[e.id]) && Active(after[e.id]);
    if j :| j in project && Active(project[j]) && project[j].ref == project[e.id].ref
            && Business(project[j].variables) == Business(project[e.id].variables) {
      assert Twins(after[e.id], after[j]);
    }
  }

  predicate Run(projects: seq<Project>, events: seq<Event>) {
    && |projects| == |events| + 1
    && projects[0] == map[]
    && forall i :: 0 <= i < |events| ==> Possible(projects[i], events[i]) && projects[i + 1] == Happen(projects[i], events[i])
  }

  /** Over any run of triggers and moves that do not overlap, starting from nothing, no two active
      pipelines of one ref do the same thing. */
  lemma {:induction false} NeverTwins(projects: seq<Project>, events: seq<Event>, n: nat)
    requires Run(projects, events) && n < |projects|
    requires forall i :: 0 <= i < |events| ==> !events[i].Reactivate?
    ensures NoTwins(projects[n])
  {
    if n > 0 {
      NeverTwins(projects, events, n - 1);
      EventKeepsNoTwins(projects[n - 1], events[n - 1]);
    }
  }

  function VariablesOf(e: Event): Variables
    requires e.Trigger?
  {
    Merged(e.action, WithAccount(e.account, e.body))
  }

  /** A trigger that the guard lets through, by a listing that shows this project. */
  predicate Admitted(project: Project, e: Event) {
    e.Trigger? && Possible(project, e) && Duplicates(e.running, VariablesOf(e)) == []
  }

  /** Two triggers that both check the same project before either creates: both are admitted, and
      the result is free of twins if and only if they differ in ref or business variables. */
  lemma OverlapKeepsExactly(project: Project, first: Event, second: Event)
    requires NoTwins(project) && Admitted(project, first) && Admitted(project, second) && first.id != second.id
    ensures NoTwins(Happen(Happen(project, first), second)) <==>
            first.ref != second.ref || Business(VariablesOf(first)) != Business(VariablesOf(second))
  {
    var one, two := Pipeline(first.ref, "created", VariablesOf(first)), Pipeline(second.ref, "created", VariablesOf(second));
    var after := Happen(Happen(project, first), second);
    assert after == project[first.id := one][second.id := two];
    GuardRefusesTwins(project, first.ref, first.running, VariablesOf(first));
    GuardRefusesTwins(project, second.ref, second.running, VariablesOf(second));
    assert forall i :: i in project && i != first.id && i != second.id ==> after[i] == project[i];
    assert ACTIVE[0] == "created";
    if first.ref == second.ref && Business(VariablesOf(first)) == Business(VariablesOf(second)) {
      assert Twins(after[first.id], after[second.id]);
    }
  }

  /** Two users who trigger the same on an empty project, both checking first, get twins. */
  lemma OverlapMakesTwins(action: string, ref: string, account: string, account': string, body: seq<Variable>)
    ensures var first, second := Trigger(action, ref, account, body, [], 1), Trigger(action, ref, account', body, [], 2);
            && Admitted(map[], first) && Admitted(map[], second)
            && !NoTwins(Happen(Happen(map[], first), second))
  {
    var first, second := Trigger(action, ref, account, body, [], 1), Trigger(action, ref, account', body, [], 2);
    AccountIsNoBusiness(action, account, body);
    AccountIsNoBusiness(action, account', body);
    OverlapKeepsExactly(map[], first, second);
  }
}
