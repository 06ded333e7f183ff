/** The Redis cache of finished job traces, and the trace fetch that goes through it. */
module TraceCache {
  import opened Wrappers
  import opened Utf8

  // ----- Framing: status, newline, trace

  /** `s.encode("ascii", errors="replace")`. */
  function EncodeAscii(s: string): (bs: seq<byte>)
    ensures |bs| == |s|
    ensures forall i :: 0 <= i < |s| ==> bs[i] == if s[i] < '\U{80}' then s[i] as int else '?' as int
  {
    if s == "" then [] else [if s[0] < '\U{80}' then s[0] as int else '?' as int] + EncodeAscii(s[1..])
  }

  /** `bs.decode("ascii", errors="replace")`. */
  function DecodeAscii(bs: seq<byte>): (s: string)
    ensures |s| == |bs|
    ensures forall i :: 0 <= i < |bs| ==> s[i] == if bs[i] < 0x80 then bs[i] as char else REPLACEMENT
  {
    if bs == [] then "" else [if bs[0] < 0x80 then bs[0] as char else REPLACEMENT] + DecodeAscii(bs[1..])
  }

  function Frame(status: string, raw: seq<byte>): seq<byte> {
    EncodeAscii(status) + [NL] + raw
  }

  /** `bs.find(b"\n")`. */
  function FirstNewline(bs: seq<byte>): (r: Option<nat>)
    ensures r.None? ==> NL !in bs
    ensures r.Some? ==> r.value < |bs| && bs[r.value] == NL && NL !in bs[..r.value]
  {
    if bs == [] then None
    else if bs[0] == NL then Some(0)
    else
      match FirstNewline(bs[1..])
      case None => None
      case Some(i) =>
        assert bs[..i + 1] == [bs[0]] + bs[1..][..i];
        Some(i + 1)
  }

  function Unframe(bs: seq<byte>): Option<(string, seq<byte>)> {
    match FirstNewline(bs)
    case None => None
    case Some(i) => Some((DecodeAscii(bs[..i]), bs[i + 1..]))
  }

  predicate PlainStatus(status: string) {
    forall i :: 0 <= i < |status| ==> status[i] < '\U{80}' && status[i] != '\n'
  }

  lemma {:induction false} FirstNewlineUnique(bs: seq<byte>, i: nat)
    requires i < |bs| && bs[i] == NL && NL !in bs[..i]
    ensures FirstNewline(bs) == Some(i)
  {
    if i > 0 {
      assert bs[..i][0] == bs[0];
      assert bs[1..][..i - 1] == bs[..i][1..];
      FirstNewlineUnique(bs[1..], i - 1);
    }
  }

  /** Framing loses nothing, for any trace bytes, exactly if the status is newline-free ASCII. */
  lemma FramesExactly(status: string, raw: seq<byte>)
    ensures Unframe(Frame(status, raw)) == Some((status, raw)) <==> PlainStatus(status)
  {
    var bs, n := Frame(status, raw), |status|;
    var head := EncodeAscii(status);
    assert bs[..n] == head && bs[n + 1..] == raw && bs[n] == NL;
    if PlainStatus(status) {
      FirstNewlineUnique(bs, n);
      assert DecodeAscii(head) == status;
    }
    if Unframe(bs) == Some((status, raw)) {
      assert FirstNewline(bs) == Some(n) && DecodeAscii(head) == status;
      assert forall j :: 0 <= j < n ==> head[j] in head;
    }
  }

  // ----- The cache

  /** gzip: what comes back from decompressing is the bytes, an `OSError` (which the cache
      treats as a miss), or any other exception (which escapes). */
  datatype Gunzipped = Plain(bytes: seq<byte>) | BadGzip | OtherFault

  datatype Codec = Codec(compress: seq<byte> -> seq<byte>, decompress: seq<byte> -> Gunzipped)

  ghost predicate Invertible(codec: Codec) {
    forall bytes :: codec.decompress(codec.compress(bytes)) == Plain(bytes)
  }

  datatype Lookup = Miss | Hit(status: string, raw: seq<byte>) | Raises

  /** What reading this stored blob amounts to. */
  function Read(codec: Codec, blob: Option<seq<byte>>): Lookup {
    match blob
    case None => Miss
    case Some(b) =>
      match codec.decompress(b)
      case BadGzip => Miss
      case OtherFault => Raises
      case Plain(bytes) =>
        match Unframe(bytes)
        case None => Miss
        case Some((status, raw)) => Hit(status, raw)
  }

  class RedisTraceCache {
    const codec: Codec
    var redis: map<string, seq<byte>>

    constructor (codec: Codec)
      ensures this.codec == codec && redis == map[]
    {
      this.codec := codec;
      redis := map[];
    }

    function BlobAt(key: string): Option<seq<byte>>
      reads this
    {
      if key in redis then Some(redis[key]) else None
    }

    method Get(key: string) returns (r: Lookup)
      ensures r == Read(codec, BlobAt(key))
    {
      if key !in redis {
        return Miss;
      }
      var got := codec.decompress(redis[key]);
      if got.BadGzip? {
        return Miss;
      }
      if got.OtherFault? {
        return Raises;
      }
      var nl := FirstNewline(got.bytes);
      if nl.None? {
        return Miss;
      }
      return Hit(DecodeAscii(got.bytes[..nl.value]), got.bytes[nl.value + 1..]);
    }

    method Set(key: string, status: string, raw: seq<byte>)
      modifies this`redis
      ensures redis == old(redis)[key := codec.compress(Frame(status, raw))]
    {
      redis := redis[key := codec.compress(EncodeAscii(status) + [NL] + raw)];
    }
  }

  // ----- The fetch through the cache

  const TERMINAL: set<string> := {"success", "failed", "canceled", "skipped"}

  /** GitLab's statuses of a job whose trace no longer grows. */
  const FINISHED: set<string> := {"success", "failed", "canceled", "skipped"}

  datatype Job = Job(status: string, trace: seq<byte>)

  /** Status, decoded tail and total size. */
  datatype Answer = Answer(status: string, tail: string, size: nat)

  datatype FetchError = CacheUnreadable

  /** The fetch without a cache: the status is read first, the whole trace after it. */
  function Uncached(atStatus: Job, atTrace: Job, offset: nat): Answer {
    Answer(atStatus.status, Decode(Tail(atTrace.trace, offset)), |atTrace.trace|)
  }

  /** One call of `get_job_trace_range`: its result and the blob it leaves in the cache.
      `getWorks` and `setWorks` say whether Redis answers. */
  function FetchOnce(codec: Codec, blob: Option<seq<byte>>, atStatus: Job, atTrace: Job, offset: nat,
                     getWorks: bool, setWorks: bool)
    : (Result<Answer, FetchError>, Option<seq<byte>>)
  {
    if !getWorks then (Err(CacheUnreadable), blob)
    else
      match Read(codec, blob)
      case Raises => (Err(CacheUnreadable), blob)
      case Hit(status, raw) => (Ok(Answer(status, Decode(Tail(raw, offset)), |raw|)), blob)
      case Miss =>
        (Ok(Uncached(atStatus, atTrace, offset)),
         if atStatus.status in TERMINAL && atTrace.trace != [] && setWorks
         then Some(codec.compress(Frame(atStatus.status, atTrace.trace))) else blob)
  }

  method GetJobTraceRange(cache: RedisTraceCache, key: string, atStatus: Job, atTrace: Job, offset: nat,
                          getWorks: bool, setWorks: bool)
    returns (r: Result<Answer, FetchError>)
    modifies cache`redis
    ensures (r, cache.BlobAt(key)) ==
            FetchOnce(cache.codec, old(cache.BlobAt(key)), atStatus, atTrace, offset, getWorks, setWorks)
    ensures forall k :: k != key ==> cache.BlobAt(k) == old(cache.BlobAt(k))
  {
    if !getWorks {
      return Err(CacheUnreadable);
    }
    var cached := cache.Get(key);
    if cached.Raises? {
      return Err(CacheUnreadable);
    }
    if cached.Hit? {
      return Ok(Answer(cached.status, Decode(Tail(cached.raw, offset)), |cached.raw|));
    }
    var status, full := atStatus.status, atTrace.trace;
    var tail := Tail(full, offset);
    if status in TERMINAL && full != [] && setWorks {
      cache.Set(key, status, full);
    }
    return Ok(Answer(status, Decode(tail), |full|));
  }

  // ----- Any sequence of polls, evictions, corruptions and failures

  /** One job and its cache entry. */
  datatype World = World(job: Job, blob: Option<seq<byte>>)

  datatype Event =
    | Evolve(next: Job)
    | Evict
    | Corrupt(junk: seq<byte>)
    | Poll(later: Job, offset: nat, getWorks: bool, setWorks: bool)

  /** A finished job no longer changes, and damage never forges a readable entry. */
  predicate Possible(codec: Codec, w: World, e: Event) {
    match e
    case Evolve(next) => w.job.status in FINISHED ==> next == w.job
    case Evict => true
    case Corrupt(junk) => !Read(codec, Some(junk)).Hit?
    case Poll(later, _, _, _) => w.job.status in FINISHED ==> later == w.job
  }

  function Happen(codec: Codec, w: World, e: Event): World {
    match e
    case Evolve(next) => w.(job := next)
    case Evict => w.(blob := None)
    case Corrupt(junk) => w.(blob := Some(junk))
    case Poll(later, offset, getWorks, setWorks) =>
      World(later, FetchOnce(codec, w.blob, w.job, later, offset, getWorks, setWorks).1)
  }

  function Unfold(codec: Codec, job: Job, events: seq<Event>): World {
    if events == [] then World(job, None)
    else Happen(codec, Unfold(codec, job, events[..|events| - 1]), events[|events| - 1])
  }

  /** A readable entry is the frozen job itself. */
  predicate Faithful(codec: Codec, w: World) {
    var r := Read(codec, w.blob);
    r.Hit? ==> w.job.status in FINISHED && r == Hit(w.job.status, w.job.trace)
  }

  lemma TerminalIsPlain(status: string)
    requires status in TERMINAL
    ensures PlainStatus(status) && status in FINISHED
  {
  }

  lemma EventKeepsFaithful(codec: Codec, w: World, e: Event)
    requires Invertible(codec) && Faithful(codec, w) && Possible(codec, w, e)
    ensures Faithful(codec, Happen(codec, w, e))
  {
    if e.Poll? && w.job.status in TERMINAL {
      TerminalIsPlain(w.job.status);
      FramesExactly(w.job.status, e.later.trace);
    }
  }

  lemma {:induction false} AlwaysFaithful(codec: Codec, job: Job, events: seq<Event>)
    requires Invertible(codec)
    requires forall i :: 0 <= i < |events| ==> Possible(codec, Unfold(codec, job, events[..i]), events[i])
    ensures Faithful(codec, Unfold(codec, job, events))
  {
    if events != [] {
      var shorter := events[..|events| - 1];
      assert forall i :: 0 <= i < |shorter| ==> shorter[..i] == events[..i];
      AlwaysFaithful(codec, job, shorter);
      EventKeepsFaithful(codec, Unfold(codec, job, shorter), events[|events| - 1]);
    }
  }

  /** After any history, a poll answers what the fetch without a cache would, unless reading the
      cache itself raises; it raises exactly if Redis does not answer or the blob decompresses to
      an error other than the one the cache catches. */
  lemma CacheIsTransparent(codec: Codec, job: Job, events: seq<Event>, poll: Event)
    requires Invertible(codec) && poll.Poll?
    requires var all := events + [poll];
             forall i :: 0 <= i < |all| ==> Possible(codec, Unfold(codec, job, all[..i]), all[i])
    ensures var w := Unfold(codec, job, events);
            var r := FetchOnce(codec, w.blob, w.job, poll.later, poll.offset, poll.getWorks, poll.setWorks).0;
            && (r.Err? <==> !poll.getWorks || Read(codec, w.blob).Raises?)
            && (r.Ok? ==>
                  && r.value == Uncached(w.job, poll.later, poll.offset)
                  && r.value.status == w.job.status && r.value.size == |poll.later.trace|
                  && r.value.tail == if poll.offset <= |poll.later.trace| then Decode(poll.later.trace[poll.offset..]) else "")
  {
    var all := events + [poll];
    assert all[..|events|] == events && all[|events|] == poll;
    assert forall i :: 0 <= i < |events| ==> events[..i] == all[..i] && events[i] == all[i];
    AlwaysFaithful(codec, job, events);
  }

  /** Once a poll has seen a finished job with a trace and Redis took it, the next poll that reads
      the cache needs GitLab no more. */
  lemma NextPollHits(codec: Codec, w: World, poll: Event)
    requires Invertible(codec) && poll.Poll? && Possible(codec, w, poll)
    requires w.job.status in FINISHED && w.job.trace != [] && poll.getWorks && poll.setWorks
    requires Read(codec, w.blob) == Miss
    ensures Read(codec, Happen(codec, w, poll).blob) == Hit(w.job.status, w.job.trace)
  {
    assert w.job.status in TERMINAL;
    TerminalIsPlain(w.job.status);
    FramesExactly(w.job.status, w.job.trace);
  }
}
