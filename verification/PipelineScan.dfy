/** The scan for active pipelines: one request per status, merged by pipeline id. */
module PipelineScan {
  import opened Wrappers

  /** `_ACTIVE_STATUSES`, in the order of the requests. */
  const ACTIVE: seq<string> := ["created", "waiting_for_resource", "preparing", "pending", "running"]

  const PER_PAGE: nat := 50

  datatype Stub = Stub(id: int, status: string)
  datatype Variable = Variable(key: string, value: string)
  datatype Listed = Listed(id: int, status: string, variables: seq<Variable>)

  /** GitLab refused one of the list requests. */
  datatype ScanError = ListFailed

  /** A refused request for a pipeline's variables leaves it without any. */
  function WithVariables(p: Stub, fetch: int -> Option<seq<Variable>>): Listed {
    Listed(p.id, p.status, match fetch(p.id) case Some(vs) => vs case None => [])
  }

  function Ids(stubs: seq<Stub>): set<int> {
    set p | p in stubs :: p.id
  }

  /** The first stub of every id, in order. */
  function FirstSeen(stubs: seq<Stub>): seq<Stub> {
    if stubs == [] then []
    else
      var shorter, last := stubs[..|stubs| - 1], stubs[|stubs| - 1];
      if last.id in Ids(shorter) then FirstSeen(shorter) else FirstSeen(shorter) + [last]
  }

  function Listing(stubs: seq<Stub>, fetch: int -> Option<seq<Variable>>): (r: seq<Listed>)
    ensures |r| == |stubs| && forall i :: 0 <= i < |stubs| ==> r[i] == WithVariables(stubs[i], fetch)
  {
    seq(|stubs|, i requires 0 <= i < |stubs| => WithVariables(stubs[i], fetch))
  }

  function Concat(pages: seq<seq<Stub>>): seq<Stub> {
    if pages == [] then [] else Concat(pages[..|pages| - 1]) + pages[|pages| - 1]
  }

  /** What the whole scan reports. */
  function Scan(pages: seq<seq<Stub>>, fetch: int -> Option<seq<Variable>>): seq<Listed> {
    Listing(FirstSeen(Concat(pages)), fetch)
  }

  method ListRunning(replies: seq<Option<seq<Stub>>>, fetch: int -> Option<seq<Variable>>)
    returns (r: Result<seq<Listed>, ScanError>)
    requires |replies| == |ACTIVE|
    ensures r.Err? <==> exists k :: 0 <= k < |ACTIVE| && replies[k].None?
    ensures r.Ok? ==> forall pages :: Answered(replies, pages) ==> r.value == Scan(pages, fetch)
  {
    var seen: set<int> := {};
    var result: seq<Listed> := [];
    ghost var pages: seq<seq<Stub>> := [];
    for k := 0 to |replies|
      invariant Answered(replies[..k], pages)
      invariant UpTo(Concat(pages), fetch, seen, result)
    {
      if replies[k].None? {
        return Err(ListFailed);
      }
      var page := replies[k].value;
      ghost var before := Concat(pages);
      assert before + page[..0] == before;
      for j := 0 to |page|
        invariant UpTo(before + page[..j], fetch, seen, result)
      {
        var p := page[j];
        NextStub(before, page, j, fetch, seen, result);
        if p.id in seen {
          continue;
        }
        seen := seen + {p.id};
        result := result + [WithVariables(p, fetch)];
      }
      assert page[..|page|] == page;
      ConcatAppend(pages, page);
      pages := pages + [page];
    }
    assert replies[..|replies|] == replies;
    OneAnswer(replies, pages);
    return Ok(result);
  }

  /** The two collections of the scan once it has gone through these stubs. */
  predicate UpTo(stubs: seq<Stub>, fetch: int -> Option<seq<Variable>>, seen: set<int>, result: seq<Listed>) {
    seen == Ids(stubs) && result == Listing(FirstSeen(stubs), fetch)
  }

  predicate Answered(replies: seq<Option<seq<Stub>>>, pages: seq<seq<Stub>>) {
    |pages| == |replies| && forall k :: 0 <= k < |pages| ==> replies[k] == Some(pages[k])
  }

  lemma OneAnswer(replies: seq<Option<seq<Stub>>>, pages: seq<seq<Stub>>)
    requires Answered(replies, pages)
    ensures forall other :: Answered(replies, other) ==> other == pages
  {
  }

  lemma NextStub(before: seq<Stub>, page: seq<Stub>, j: nat, fetch: int -> Option<seq<Variable>>,
                 seen: set<int>, result: seq<Listed>)
    requires j < |page| && UpTo(before + page[..j], fetch, seen, result)
    ensures var p, next := page[j], before + page[..j + 1];
            if p.id in seen then UpTo(next, fetch, seen, result)
            else UpTo(next, fetch, seen + {p.id}, result + [WithVariables(p, fetch)])
  {
    var now, next := before + page[..j], before + page[..j + 1];
    assert next == now + [page[j]];
    assert next[..|next| - 1] == now && next[|next| - 1] == page[j];
    IdsOfAppend(now, page[j]);
  }

  lemma ConcatAppend(pages: seq<seq<Stub>>, page: seq<Stub>)
    ensures Concat(pages + [page]) == Concat(pages) + page
  {
    assert (pages + [page])[..|pages|] == pages;
  }

  /** Every id that occurs is reported. */
  lemma {:induction false} FirstSeenHasAll(stubs: seq<Stub>)
    ensures Ids(FirstSeen(stubs)) == Ids(stubs)
  {
    if stubs != [] {
      var shorter, last := stubs[..|stubs| - 1], stubs[|stubs| - 1];
      FirstSeenHasAll(shorter);
      assert stubs == shorter + [last];
      IdsOfAppend(shorter, last);
      IdsOfAppend(FirstSeen(shorter), last);
    }
  }

  lemma IdsOfAppend(stubs: seq<Stub>, p: Stub)
    ensures Ids(stubs + [p]) == Ids(stubs) + {p.id}
  {
    assert (stubs + [p])[|stubs|] == p;
    assert forall q :: q in stubs + [p] <==> q in stubs || q == p;
  }

  /** It is reported once. */
  lemma {:induction false} FirstSeenIsUnique(stubs: seq<Stub>)
    ensures forall i, j :: 0 <= i < j < |FirstSeen(stubs)| ==> FirstSeen(stubs)[i].id != FirstSeen(stubs)[j].id
  {
    if stubs != [] {
      var shorter := stubs[..|stubs| - 1];
      FirstSeenIsUnique(shorter);
      FirstSeenHasAll(shorter);
      var seen := FirstSeen(shorter);
      assert forall i :: 0 <= i < |seen| ==> seen[i] in seen && seen[i].id in Ids(seen);
    }
  }

  /** It is reported as it was first seen. */
  lemma {:induction false} FirstSeenIsFirst(stubs: seq<Stub>, p: Stub)
    requires p in FirstSeen(stubs)
    ensures IsFirst(p, stubs)
  {
    var shorter, last := stubs[..|stubs| - 1], stubs[|stubs| - 1];
    if p in FirstSeen(shorter) {
      FirstSeenIsFirst(shorter, p);
      var i :| 0 <= i < |shorter| && shorter[i] == p && forall j :: 0 <= j < i ==> shorter[j].id != p.id;
      assert stubs[i] == p && forall j :: 0 <= j < i ==> stubs[j] == shorter[j];
    } else {
      assert forall j :: 0 <= j < |shorter| ==> stubs[j] == shorter[j] && shorter[j] in shorter;
      assert stubs[|shorter|] == p;
    }
  }

  predicate IsFirst(p: Stub, stubs: seq<Stub>) {
    exists i :: 0 <= i < |stubs| && stubs[i] == p && forall j :: 0 <= j < i ==> stubs[j].id != p.id
  }

  // ----- The scan against pipelines that move between the requests

  /** The pipelines of the ref and their statuses at the time of one request. */
  type Snapshot = map<int, string>

  function InStatus(snap: Snapshot, status: string): set<int> {
    set id | id in snap && snap[id] == status
  }

  /** What GitLab answers: at most a page of the pipelines in that status, all of them if they fit. */
  predicate PageOf(page: seq<Stub>, snap: Snapshot, status: string) {
    && |page| <= PER_PAGE
    && (forall p :: p in page ==> p.id in InStatus(snap, status) && p.status == status)
    && (|InStatus(snap, status)| <= PER_PAGE ==> InStatus(snap, status) <= Ids(page))
  }

  predicate Fits(snap: Snapshot, status: string) {
    |InStatus(snap, status)| <= PER_PAGE
  }

  /** Pages of a scan during which request `k` saw the state `snaps[k]`. */
  predicate Answers(pages: seq<seq<Stub>>, snaps: seq<Snapshot>) {
    && |pages| == |snaps| == |ACTIVE|
    && forall k :: 0 <= k < |ACTIVE| ==> PageOf(pages[k], snaps[k], ACTIVE[k]) && Fits(snaps[k], ACTIVE[k])
  }

  /** Request `k` catches the pipeline: it asks for the status the pipeline has just then. */
  predicate Caught(snaps: seq<Snapshot>, id: int, k: nat) {
    k < |snaps| == |ACTIVE| && id in snaps[k] && snaps[k][id] == ACTIVE[k]
  }

  predicate ReportedOnce(listing: seq<Listed>, id: int) {
    exists i :: 0 <= i < |listing| && listing[i].id == id
                && forall j :: 0 <= j < |listing| && listing[j].id == id ==> j == i
  }

  predicate Reported(listing: seq<Listed>, id: int) {
    exists i :: 0 <= i < |listing| && listing[i].id == id
  }

  lemma {:induction false} ConcatHolds(pages: seq<seq<Stub>>)
    ensures forall p :: p in Concat(pages) <==> exists k :: 0 <= k < |pages| && p in pages[k]
  {
    if pages != [] {
      var n := |pages| - 1;
      ConcatHolds(pages[..n]);
      forall p
        ensures p in Concat(pages) <==> exists k :: 0 <= k < |pages| && p in pages[k]
      {
        if p in Concat(pages[..n]) {
          var k :| 0 <= k < n && p in pages[..n][k];
          assert p in pages[k];
        }
        if k :| 0 <= k < |pages| && p in pages[k] {
          assert k < n ==> p in pages[..n][k];
        }
      }
    }
  }

  lemma {:induction false} ConcatLength(pages: seq<seq<Stub>>, bound: nat)
    requires forall k :: 0 <= k < |pages| ==> |pages[k]| <= bound
    ensures |Concat(pages)| <= bound * |pages|
  {
    if pages != [] {
      ConcatLength(pages[..|pages| - 1], bound);
    }
  }

  lemma {:induction false} FirstSeenLength(stubs: seq<Stub>)
    ensures |FirstSeen(stubs)| <= |stubs|
  {
    if stubs != [] {
      FirstSeenLength(stubs[..|stubs| - 1]);
    }
  }

  /** A scan reports at most five full pages. */
  lemma ScanIsBounded(pages: seq<seq<Stub>>, snaps: seq<Snapshot>, fetch: int -> Option<seq<Variable>>)
    requires |pages| == |snaps| == |ACTIVE|
    requires forall k :: 0 <= k < |ACTIVE| ==> PageOf(pages[k], snaps[k], ACTIVE[k])
    ensures |Scan(pages, fetch)| <= 250
  {
    ConcatLength(pages, PER_PAGE);
    FirstSeenLength(Concat(pages));
  }

  lemma ScanIds(pages: seq<seq<Stub>>, fetch: int -> Option<seq<Variable>>, id: int)
    ensures Reported(Scan(pages, fetch), id) <==> id in Ids(Concat(pages))
    ensures Reported(Scan(pages, fetch), id) ==> ReportedOnce(Scan(pages, fetch), id)
  {
    var stubs := FirstSeen(Concat(pages));
    FirstSeenIsUnique(Concat(pages));
    FirstSeenHasAll(Concat(pages));
    if id in Ids(Concat(pages)) {
      var p :| p in stubs && p.id == id;
      var i :| 0 <= i < |stubs| && stubs[i] == p;
      assert Scan(pages, fetch)[i].id == id;
    }
    if i :| 0 <= i < |stubs| && Scan(pages, fetch)[i].id == id {
      assert stubs[i] in stubs && stubs[i].id == id;
    }
  }

  lemma CaughtIsOnPage(pages: seq<seq<Stub>>, snaps: seq<Snapshot>, id: int)
    requires Answers(pages, snaps)
    ensures id in Ids(Concat(pages)) <==> exists k: nat :: Caught(snaps, id, k)
  {
    ConcatHolds(pages);
    if k: nat :| Caught(snaps, id, k) {
      assert id in InStatus(snaps[k], ACTIVE[k]);
      var p :| p in pages[k] && p.id == id;
    }
    if p :| p in Concat(pages) && p.id == id {
      var k :| 0 <= k < |pages| && p in pages[k];
      assert Caught(snaps, id, k);
    }
  }

  /** A pipeline is reported exactly if one of the requests catches it, and then once. */
  lemma ScanSeesExactly(pages: seq<seq<Stub>>, snaps: seq<Snapshot>, fetch: int -> Option<seq<Variable>>, id: int)
    requires Answers(pages, snaps)
    ensures Reported(Scan(pages, fetch), id) <==> exists k: nat :: Caught(snaps, id, k)
    ensures Reported(Scan(pages, fetch), id) ==> ReportedOnce(Scan(pages, fetch), id)
  {
    ScanIds(pages, fetch, id);
    CaughtIsOnPage(pages, snaps, id);
  }

  /** Discrete intermediate values: a walk of `n` non-decreasing steps within `0..n` meets the
      diagonal. */
  lemma {:induction false} MeetsDiagonal(stage: seq<nat>, n: nat) returns (k: nat)
    requires 0 < n <= |stage|
    requires forall i, j :: 0 <= i <= j < n ==> stage[i] <= stage[j]
    requires stage[n - 1] <= n - 1
    ensures k < n && stage[k] == k
  {
    if stage[n - 1] == n - 1 {
      k := n - 1;
    } else {
      k := MeetsDiagonal(stage, n - 1);
    }
  }

  /** The pipeline is active at every request, and only moves forward in the order of the requests. */
  predicate Advances(snaps: seq<Snapshot>, id: int, stage: seq<nat>) {
    && |snaps| == |stage| == |ACTIVE|
    && (forall k :: 0 <= k < |ACTIVE| ==> stage[k] < |ACTIVE| && id in snaps[k] && snaps[k][id] == ACTIVE[stage[k]])
    && forall i, j :: 0 <= i <= j < |ACTIVE| ==> stage[i] <= stage[j]
  }

  /** However it moves between the requests, it cannot slip through the scan. */
  lemma AdvancingIsReportedOnce(pages: seq<seq<Stub>>, snaps: seq<Snapshot>, fetch: int -> Option<seq<Variable>>,
                                id: int, stage: seq<nat>)
    requires Answers(pages, snaps) && Advances(snaps, id, stage)
    ensures ReportedOnce(Scan(pages, fetch), id)
  {
    var k := MeetsDiagonal(stage, |ACTIVE|);
    assert Caught(snaps, id, k);
    ScanSeesExactly(pages, snaps, fetch, id);
  }

  lemma ActiveAreDistinct()
    ensures forall i, j :: 0 <= i < j < |ACTIVE| ==> ACTIVE[i] != ACTIVE[j]
  {
    assert |ACTIVE[0]| == 7 && |ACTIVE[1]| == 20 && |ACTIVE[2]| == 9 && |ACTIVE[3]| == 7 && |ACTIVE[4]| == 7;
    assert ACTIVE[0][0] == 'c' && ACTIVE[3][0] == 'p' && ACTIVE[4][0] == 'r';
  }

  /** A pipeline that is active throughout but falls back once, just after the first request, is
      missed. */
  lemma FallingBackIsMissed(pages: seq<seq<Stub>>, snaps: seq<Snapshot>, fetch: int -> Option<seq<Variable>>, id: int)
    requires Answers(pages, snaps)
    requires forall k :: 0 <= k < |ACTIVE| ==> id in snaps[k] && snaps[k][id] == ACTIVE[if k == 0 then 1 else 0]
    ensures !Reported(Scan(pages, fetch), id)
  {
    ActiveAreDistinct();
    ScanSeesExactly(pages, snaps, fetch, id);
  }

  /** So is one that is created after the first request and keeps one status behind the scan. */
  lemma NewcomerIsMissed(pages: seq<seq<Stub>>, snaps: seq<Snapshot>, fetch: int -> Option<seq<Variable>>, id: int)
    requires Answers(pages, snaps) && id !in snaps[0]
    requires forall k :: 0 < k < |ACTIVE| ==> id in snaps[k] && snaps[k][id] == ACTIVE[k - 1]
    ensures !Reported(Scan(pages, fetch), id)
  {
    ActiveAreDistinct();
    ScanSeesExactly(pages, snaps, fetch, id);
  }
}
