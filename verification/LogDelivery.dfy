/** Incremental delivery of a growing log to a viewer: a byte cursor, a partial last line held
    back, a size cap, and running line numbers. The GitLab trace and the remote run log share
    this logic; they differ in how they read the log. */
module LogDelivery {
  import opened Wrappers
  import opened Utf8
  import opened LogRenderer
  import opened Text

  datatype Caps = Caps(soft: int, hard: int)

  /** The remote tail is not text. */
  datatype TraceError = Undecodable

  datatype Response = Response(
    nextOffset: int,
    nextLine: int,
    lines: seq<LogLine>,
    totalSize: int,
    sizeWarning: bool,
    tooLarge: bool,
    notLogged: bool)

  /** Rendering of a text, numbered from a line. */
  type Renderer = (string, int) -> seq<LogLine>

  function RendererOf(cl: Cleaner): Renderer {
    (text, line) => Rendered(cl, text, line)
  }

  predicate CompleteText(text: string) {
    text != "" && EndsWith(text, "\n")
  }

  predicate PiecewiseAt(render: Renderer, a: string, b: string, line: int) {
    render(a + b, line) == render(a, line) + render(b, line + |render(a, line)|)
  }

  /** Complete lines may be rendered in pieces. */
  ghost predicate Piecewise(render: Renderer) {
    forall a, b, line :: CompleteText(a) && CompleteText(b) ==> PiecewiseAt(render, a, b, line)
  }

  lemma RendererIsPiecewise(cl: Cleaner)
    ensures Piecewise(RendererOf(cl))
  {
    forall a, b, line | CompleteText(a) && CompleteText(b)
      ensures PiecewiseAt(RendererOf(cl), a, b, line)
    {
      RenderInPieces(cl, a, b, line);
    }
  }

  /** Nothing new: the cursor is handed back as it came. */
  function Unmoved(offset: int, line: int, size: int, warn: bool): Response {
    Response(offset, line, [], size, warn, false, false)
  }

  function TooLarge(offset: int, line: int, size: int): Response {
    Response(offset, line, [], size, false, true, false)
  }

  /** `text.rfind("\n")`, or -1. */
  method FindLastNewline(text: string) returns (i: int)
    ensures -1 <= i < |text|
    ensures i >= 0 ==> text[i] == '\n'
    ensures forall j :: i < j < |text| ==> text[j] != '\n'
  {
    i := |text| - 1;
    while i >= 0 && text[i] != '\n'
      invariant -1 <= i < |text|
      invariant forall j :: i < j < |text| ==> text[j] != '\n'
    {
      i := i - 1;
    }
  }

  /** What a response must be for this text, cut into complete lines and a partial rest: the
      lines rendered, and the cursor moved back by the characters of the rest. */
  predicate Delivers(r: Response, render: Renderer, caps: Caps, size: int, lines: string, rest: string, offset: int, line: int) {
    if lines == "" && rest != "" then
      r == Unmoved(offset, line, size, size > caps.soft)
    else
      var rendered := if lines == "" then [] else render(lines, line);
      r == Response(size - |rest|, line + |rendered|, rendered, size, size > caps.soft, false, false)
  }

  /** The part of both viewers that comes after the size check. */
  method FormatSlice(cl: Cleaner, caps: Caps, size: int, newText: string, offset: int, line: int)
    returns (r: Response)
    ensures forall lines, rest :: newText == lines + rest && '\n' !in rest && (lines != "" ==> EndsWith(lines, "\n"))
              ==> Delivers(r, RendererOf(cl), caps, size, lines, rest, offset, line)
  {
    var text := newText;
    var next := size;
    ghost var cut := |newText|;
    if text != "" && !EndsWith(text, "\n") {
      var lastNl := FindLastNewline(text);
      if lastNl == -1 {
        r := Unmoved(offset, line, size, size > caps.soft);
        assert newText[..0] == "" && newText[0..] == newText;
        OneCutSuffices(r, RendererOf(cl), caps, size, newText, 0, offset, line);
        return;
      }
      var heldBack := |text| - (lastNl + 1);
      text := text[..lastNl + 1];
      next := size - heldBack;
      cut := lastNl + 1;
    }
    var rendered := [];
    if text != "" {
      rendered := Render(cl, text, line);
    }
    r := Response(next, line + |rendered|, rendered, size, size > caps.soft, false, false);
    assert text == newText[..cut] && next == size - |newText[cut..]| && (newText == "" <==> text == "");
    OneCutSuffices(r, RendererOf(cl), caps, size, newText, cut, offset, line);
  }

  lemma OneCutSuffices(r: Response, render: Renderer, caps: Caps, size: int, text: string, cut: nat, offset: int, line: int)
    requires cut <= |text| && (cut > 0 ==> text[cut - 1] == '\n') && '\n' !in text[cut..]
    requires Delivers(r, render, caps, size, text[..cut], text[cut..], offset, line)
    ensures forall lines, rest :: text == lines + rest && '\n' !in rest && (lines != "" ==> EndsWith(lines, "\n"))
              ==> Delivers(r, render, caps, size, lines, rest, offset, line)
  {
    forall lines, rest | text == lines + rest && '\n' !in rest && (lines != "" ==> EndsWith(lines, "\n"))
      ensures lines == text[..cut] && rest == text[cut..]
    {
      CutIsUnique(text, cut, lines, rest);
    }
  }

  /** There is one way to cut a text after its last newline. */
  lemma CutIsUnique(text: string, cut: nat, lines: string, rest: string)
    requires cut <= |text| && (cut > 0 ==> text[cut - 1] == '\n') && '\n' !in text[cut..]
    requires text == lines + rest && '\n' !in rest && (lines != "" ==> EndsWith(lines, "\n"))
    ensures lines == text[..cut] && rest == text[cut..]
  {
    assert lines == text[..|lines|] && rest == text[|lines|..];
    assert lines != "" ==> text[|lines| - 1] == '\n';
    NothingBehind(text, |lines|, cut);
    NothingBehind(text, cut, |lines|);
  }

  lemma NothingBehind(text: string, n: nat, m: nat)
    requires n <= |text| && m <= |text| && (m > 0 ==> text[m - 1] == '\n')
    ensures n < m ==> '\n' in text[n..]
  {
    if n < m {
      assert text[n..][m - 1 - n] == '\n';
    }
  }

  // ----- The cursor in bytes

  /** Where the cursor belongs after this poll: just past the last complete line. */
  function Target(log: seq<byte>, offset: nat): nat {
    offset + LineEnd(Tail(log, offset))
  }

  /** The partial line after it. */
  function Partial(log: seq<byte>, offset: nat): seq<byte> {
    Tail(log, offset)[LineEnd(Tail(log, offset))..]
  }

  /** Held-back characters stand for held-back bytes: one byte per character in the partial line. */
  predicate OneBytePerChar(log: seq<byte>, offset: nat) {
    |Decode(Partial(log, offset))| == |Partial(log, offset)|
  }

  /** The cursor counts right: there is no complete line to step over, so it stays, or held-back
      characters stand for held-back bytes. */
  predicate CountedRight(log: seq<byte>, offset: nat) {
    (Target(log, offset) == offset && Partial(log, offset) != []) || OneBytePerChar(log, offset)
  }

  /** The response owed for a log of which the size was read as `size` and the tail as `log`. */
  predicate Owed(r: Response, render: Renderer, caps: Caps, size: nat, log: seq<byte>, offset: nat, line: int)
    requires offset <= |log|
  {
    if size > caps.hard then r == TooLarge(offset, line, size)
    else Delivers(r, render, caps, size, Decode(log[offset..Target(log, offset)]), Decode(Partial(log, offset)), offset, line)
  }

  lemma CutsAtLineEnd(log: seq<byte>, offset: nat)
    requires offset <= |log|
    ensures var lines, rest := Decode(log[offset..Target(log, offset)]), Decode(Partial(log, offset));
            && Decode(log[offset..]) == lines + rest
            && '\n' !in rest
            && (lines != "" ==> EndsWith(lines, "\n"))
  {
    var bs := log[offset..];
    assert bs[..LineEnd(bs)] == log[offset..Target(log, offset)];
    DecodeAtLineEnd(bs);
  }

  /** Both viewers, once they know the size and have the log's bytes from the cursor on. */
  method FormatFrom(cl: Cleaner, caps: Caps, size: nat, log: seq<byte>, offset: nat, line: int) returns (r: Response)
    ensures offset <= |log| ==>
              Delivers(r, RendererOf(cl), caps, size, Decode(log[offset..Target(log, offset)]), Decode(Partial(log, offset)), offset, line)
    ensures offset > |log| ==> r == Unmoved(size, line, size, size > caps.soft)
  {
    var newText := Decode(Tail(log, offset));
    r := FormatSlice(cl, caps, size, newText, offset, line);
    if offset <= |log| {
      CutsAtLineEnd(log, offset);
    } else {
      assert newText == "" + "";
      assert Delivers(r, RendererOf(cl), caps, size, "", "", offset, line);
    }
  }

  /** `get_formatted_job_trace`: GitLab returns the whole body, sliced at the cursor. */
  method GetFormattedJobTrace(cl: Cleaner, caps: Caps, log: seq<byte>, offset: nat, line: int) returns (r: Response)
    ensures offset <= |log| ==> Owed(r, RendererOf(cl), caps, |log|, log, offset, line)
    ensures offset > |log| ==>
              r == if |log| > caps.hard then TooLarge(offset, line, |log|)
                   else Unmoved(|log|, line, |log|, |log| > caps.soft)
    ensures r.totalSize == |log| && !r.notLogged && (r.tooLarge <==> |log| > caps.hard)
    ensures r.sizeWarning <==> caps.soft < |log| <= caps.hard
    ensures r.tooLarge ==> r.lines == [] && r.nextOffset == offset && r.nextLine == line
    ensures r.nextLine == line + |r.lines|
  {
    if |log| > caps.hard {
      return TooLarge(offset, line, |log|);
    }
    r := FormatFrom(cl, caps, |log|, log, offset, line);
  }

  /** `get_command_trace` and `_read_remote_log`: the size comes from one remote command and the
      tail from a later one, so they may see different lengths of the same growing file. The tail
      is decoded strictly, so one that is not UTF-8, or ends inside a character, is an error. */
  method GetCommandTrace(cl: Cleaner, caps: Caps, logged: bool, atStat: Option<seq<byte>>, atTail: seq<byte>,
                         offset: nat, line: int)
    returns (r: Result<Response, TraceError>)
    ensures !logged ==> r == Ok(Response(offset, line, [], 0, false, false, true))
    ensures logged && atStat.None? && 0 <= caps.hard ==> r == Ok(Unmoved(0, line, 0, 0 > caps.soft))
    ensures r.Err? <==> logged && atStat.Some? && |atStat.value| <= caps.hard && !WellFormed(Tail(atTail, offset))
    ensures r.Ok? && logged && atStat.Some? && offset <= |atTail| ==>
              Owed(r.value, RendererOf(cl), caps, |atStat.value|, atTail, offset, line)
    ensures r.Ok? && logged && atStat.Some? && offset > |atTail| && |atStat.value| <= caps.hard ==>
              r.value == Unmoved(|atStat.value|, line, |atStat.value|, |atStat.value| > caps.soft)
    ensures r.Ok? ==>
              var size := if logged && atStat.Some? then |atStat.value| else 0;
              && r.value.totalSize == size && r.value.notLogged == !logged
              && (logged ==> (r.value.tooLarge <==> size > caps.hard)
                             && (r.value.sizeWarning <==> caps.soft < size <= caps.hard))
              && r.value.nextLine == line + |r.value.lines|
  {
    if !logged {
      return Ok(Response(offset, line, [], 0, false, false, true));
    }
    var size := if atStat.Some? then |atStat.value| else 0;
    if size > caps.hard {
      return Ok(TooLarge(offset, line, size));
    }
    if atStat.None? {
      var nothing := FormatSlice(cl, caps, 0, "", offset, line);
      assert "" == "" + "" && Delivers(nothing, RendererOf(cl), caps, 0, "", "", offset, line);
      return Ok(nothing);
    }
    if !WellFormed(Tail(atTail, offset)) {
      return Err(Undecodable);
    }
    var formatted := FormatFrom(cl, caps, size, atTail, offset, line);
    return Ok(formatted);
  }

  /** The cursor lands where it belongs exactly if the size is that of the file the tail was read
      from and the partial line has one byte per character, or there was no complete line at all. */
  lemma CursorExactly(render: Renderer, caps: Caps, r: Response, size: nat, log: seq<byte>, offset: nat, line: int)
    requires offset <= |log|
    requires Delivers(r, render, caps, size, Decode(log[offset..Target(log, offset)]), Decode(Partial(log, offset)), offset, line)
    ensures r.nextOffset == Target(log, offset) <==>
            || (Target(log, offset) == offset && Partial(log, offset) != [])
            || size - |log| == |Decode(Partial(log, offset))| - |Partial(log, offset)|
  {
    assert log[offset..][..LineEnd(log[offset..])] == log[offset..Target(log, offset)];
    assert |Partial(log, offset)| == |log| - Target(log, offset);
  }

  /** A partial line of one two-byte character: the cursor lands inside that line, and once the line
      is complete the next poll renders its second half as a line of its own. */
  lemma SplitCharacter(render: Renderer, caps: Caps, first: Response, second: Response)
    requires caps.hard >= 5
    requires Owed(first, render, caps, 4, [0x61, NL, 0xC3, 0xA9], 0, 1)
    requires Owed(second, render, caps, 5, [0x61, NL, 0xC3, 0xA9, NL], 3, first.nextLine)
    ensures Target([0x61, NL, 0xC3, 0xA9], 0) == 2 && first.nextOffset == 3
    ensures second.lines == render([REPLACEMENT, '\n'], first.nextLine)
  {
    SecondByteAlone();
    LastByteOnly();
  }

  lemma LastByteOnly()
    ensures var log: seq<byte> := [0x61, NL, 0xC3, 0xA9];
            && Target(log, 0) == 2 && Decode(log[0..2]) != ""
            && |Decode(Partial(log, 0))| == 1
  {
    var log: seq<byte> := [0x61, NL, 0xC3, 0xA9];
    assert log[2..] == [0xC3, 0xA9] && log[0..] == log;
    LineEndUnique(log, 2);
    var e: seq<byte> := [0xC3, 0xA9];
    assert First(e) == (0xE9 as char, 2) && e[2..] == [];
    assert Decode(e) == [0xE9 as char];
  }

  lemma SecondByteAlone()
    ensures var log: seq<byte> := [0x61, NL, 0xC3, 0xA9, NL];
            && Target(log, 3) == 5 && Decode(log[3..5]) == [REPLACEMENT, '\n'] && Decode(Partial(log, 3)) == ""
  {
    var log: seq<byte> := [0x61, NL, 0xC3, 0xA9, NL];
    var half: seq<byte> := [0xA9];
    assert log[3..] == half + [NL] == log[3..5];
    LineEndUnique(log[3..], 2);
    assert First(half) == (REPLACEMENT, 1) && half[1..] == [];
    assert Decode(half) == [REPLACEMENT];
    EndsLine(half);
  }

  // ----- Whole schedules of polls

  /** What the viewer has been given so far. */
  datatype Viewer = Viewer(offset: nat, line: int, lines: seq<LogLine>)

  const FRESH := Viewer(0, 1, [])

  /** The viewer appends the lines and feeds the cursors back on its next poll. */
  function Receive(v: Viewer, r: Response, log: seq<byte>): Viewer {
    if v.offset <= r.nextOffset <= |log| then
      Viewer(r.nextOffset, r.nextLine, v.lines + r.lines)
    else v
  }

  /** The viewer after its first n polls, poll i seeing logs[i] and being answered with answers[i]. */
  function Viewed(logs: seq<seq<byte>>, answers: seq<Response>, n: nat): Viewer
    requires n <= |logs| == |answers|
  {
    if n == 0 then FRESH else Receive(Viewed(logs, answers, n - 1), answers[n - 1], logs[n - 1])
  }

  /** These bytes rendered, numbered from `line`. */
  function LinesIn(render: Renderer, bs: seq<byte>, line: int): seq<LogLine> {
    if bs == [] then [] else render(Decode(bs), line)
  }

  /** The viewer's cursor is at a line start, and its lines are one rendering of the log up to it. */
  predicate InStep(render: Renderer, v: Viewer, log: seq<byte>) {
    && v.offset <= |log|
    && (v.offset > 0 ==> log[v.offset - 1] == NL)
    && v.lines == LinesIn(render, log[..v.offset], 1)
    && v.line == 1 + |v.lines|
  }

  /** What such a viewer shows is every complete line of the log so far, once, cleaned and numbered. */
  lemma InStepDisplays(cl: Cleaner, v: Viewer, log: seq<byte>)
    requires InStep(RendererOf(cl), v, log) && v.offset > 0
    ensures Displays(cl, Decode(log[..v.offset]), 1, v.lines)
  {
    RenderedDisplays(cl, Decode(log[..v.offset]), 1);
  }

  lemma InStepGrows(render: Renderer, v: Viewer, log: seq<byte>, longer: seq<byte>)
    requires InStep(render, v, log) && log <= longer
    ensures InStep(render, v, longer)
  {
    assert longer[..v.offset] == log[..v.offset];
  }

  lemma TargetIsLineEnd(log: seq<byte>, offset: nat)
    requires offset <= |log| && (offset > 0 ==> log[offset - 1] == NL)
    ensures Target(log, offset) == LineEnd(log)
  {
    var end := LineEnd(log[offset..]);
    assert log[offset + end..] == log[offset..][end..];
    assert end > 0 ==> log[offset + end - 1] == log[offset..][end - 1];
    LineEndUnique(log, offset + end);
  }

  predicate CompleteLines(bs: seq<byte>) {
    bs != [] ==> bs[|bs| - 1] == NL
  }

  lemma LinesDecode(bs: seq<byte>)
    requires bs != [] && CompleteLines(bs)
    ensures CompleteText(Decode(bs))
  {
    SplitsAfter(bs, |bs|);
    assert bs[..|bs|] == bs;
  }

  lemma DecodesInPieces(ab: seq<byte>, a: seq<byte>, b: seq<byte>)
    requires ab == a + b && a != [] && CompleteLines(a)
    ensures Decode(ab) == Decode(a) + Decode(b)
  {
    SplitsAfter(ab, |a|);
    assert ab[..|a|] == a && ab[|a|..] == b;
  }

  /** More complete lines decode, and render, as a continuation. */
  lemma LinesContinue(render: Renderer, ab: seq<byte>, a: seq<byte>, b: seq<byte>)
    requires Piecewise(render) && ab == a + b && CompleteLines(a) && CompleteLines(b)
    ensures LinesIn(render, ab, 1) == LinesIn(render, a, 1) + LinesIn(render, b, 1 + |LinesIn(render, a, 1)|)
  {
    if a == [] {
      assert ab == b;
    } else if b == [] {
      assert ab == a;
    } else {
      DecodesInPieces(ab, a, b);
      LinesDecode(a);
      LinesDecode(b);
      assert PiecewiseAt(render, Decode(a), Decode(b), 1);
    }
  }

  /** A response that hands over just the complete lines up to `target`. */
  predicate HandsOver(render: Renderer, r: Response, log: seq<byte>, offset: nat, target: nat, line: int)
    requires offset <= target <= |log|
  {
    r.nextOffset == target && r.lines == LinesIn(render, log[offset..target], line) && r.nextLine == line + |r.lines|
  }

  /** It continues the one rendering. */
  lemma HandedOverKeepsStep(render: Renderer, v: Viewer, log: seq<byte>, r: Response, target: nat)
    requires Piecewise(render)
    requires InStep(render, v, log) && v.offset <= target <= |log| && (target > 0 ==> log[target - 1] == NL)
    requires HandsOver(render, r, log, v.offset, target, v.line)
    ensures InStep(render, Receive(v, r, log), log) && Receive(v, r, log).offset == target
  {
    var a, b := log[..v.offset], log[v.offset..target];
    LinesContinue(render, log[..target], a, b);
  }

  lemma MiscountIsShort(log: seq<byte>, offset: nat)
    requires offset <= |log| && !CountedRight(log, offset)
    ensures var (target, rest) := (Target(log, offset), Partial(log, offset));
            && offset < target && Decode(log[offset..target]) != ""
            && |rest| == |log| - target && 1 <= |Decode(rest)| < |rest|
            && forall i :: target <= i < |log| ==> log[i] != NL
  {
    var target, rest := Target(log, offset), Partial(log, offset);
    assert rest == log[target..] && |log[offset..target]| == target - offset;
    assert forall i :: target <= i < |log| ==> log[i] == log[offset..][i - offset];
  }

  /** A miscounted poll leaves the cursor inside the partial line. */
  lemma MiscountLeavesLine(render: Renderer, caps: Caps, v: Viewer, log: seq<byte>, r: Response)
    requires InStep(render, v, log) && |log| <= caps.hard && Owed(r, render, caps, |log|, log, v.offset, v.line)
    requires !CountedRight(log, v.offset)
    ensures !InStep(render, Receive(v, r, log), log)
  {
    MiscountIsShort(log, v.offset);
    assert r.nextOffset == |log| - |Decode(Partial(log, v.offset))|;
  }

  /** A poll that counts right hands over everything up to the last newline. */
  lemma RightPollHandsOver(render: Renderer, caps: Caps, r: Response, log: seq<byte>, offset: nat, line: int)
    requires offset <= |log| <= caps.hard && Owed(r, render, caps, |log|, log, offset, line) && CountedRight(log, offset)
    ensures offset <= Target(log, offset) <= |log| && HandsOver(render, r, log, offset, Target(log, offset), line)
  {
    assert |Partial(log, offset)| == |log| - Target(log, offset);
  }

  lemma RightPollReachesEnd(render: Renderer, caps: Caps, r: Response, log: seq<byte>, offset: nat, line: int)
    requires offset <= |log| <= caps.hard && (offset > 0 ==> log[offset - 1] == NL)
    requires Owed(r, render, caps, |log|, log, offset, line) && CountedRight(log, offset)
    ensures offset <= LineEnd(log) && HandsOver(render, r, log, offset, LineEnd(log), line)
  {
    RightPollHandsOver(render, caps, r, log, offset, line);
    TargetIsLineEnd(log, offset);
  }

  lemma UnderCapKeepsStep(render: Renderer, caps: Caps, v: Viewer, log: seq<byte>, r: Response)
    requires Piecewise(render)
    requires InStep(render, v, log) && |log| <= caps.hard && Owed(r, render, caps, |log|, log, v.offset, v.line)
    requires CountedRight(log, v.offset)
    ensures InStep(render, Receive(v, r, log), log) && Receive(v, r, log).offset == LineEnd(log)
  {
    RightPollReachesEnd(render, caps, r, log, v.offset, v.line);
    HandedOverKeepsStep(render, v, log, r, LineEnd(log));
  }

  /** A poll keeps the viewer in step if and only if it counts right or is stopped by the hard cap. */
  lemma PollKeepsStepExactly(render: Renderer, caps: Caps, v: Viewer, log: seq<byte>, r: Response)
    requires Piecewise(render)
    requires InStep(render, v, log) && Owed(r, render, caps, |log|, log, v.offset, v.line)
    ensures InStep(render, Receive(v, r, log), log) <==> |log| > caps.hard || CountedRight(log, v.offset)
  {
    if |log| > caps.hard {
      assert Receive(v, r, log) == v;
    } else if CountedRight(log, v.offset) {
      UnderCapKeepsStep(render, caps, v, log, r);
    } else {
      MiscountLeavesLine(render, caps, v, log, r);
    }
  }

  /** The log only grows, and each poll that starts within it is answered as owed, reading one
      length of it. */
  predicate Schedule(render: Renderer, caps: Caps, logs: seq<seq<byte>>, answers: seq<Response>)
    requires |logs| == |answers|
  {
    && (forall i, j :: 0 <= i <= j < |logs| ==> logs[i] <= logs[j])
    && (forall i :: 0 <= i < |logs| ==> PollAnswered(render, caps, logs, answers, i))
  }

  predicate PollAnswered(render: Renderer, caps: Caps, logs: seq<seq<byte>>, answers: seq<Response>, i: nat)
    requires i < |logs| == |answers|
  {
    var v := Viewed(logs, answers, i);
    v.offset <= |logs[i]| ==> Owed(answers[i], render, caps, |logs[i]|, logs[i], v.offset, v.line)
  }

  /** Poll i counts right, or is stopped by the hard cap. */
  predicate PollCountsRight(caps: Caps, logs: seq<seq<byte>>, answers: seq<Response>, i: nat)
    requires i < |logs| == |answers|
  {
    |logs[i]| > caps.hard || CountedRight(logs[i], Viewed(logs, answers, i).offset)
  }

  /** The log that the viewer has seen after n polls. */
  function Seen(logs: seq<seq<byte>>, n: nat): seq<byte>
    requires n <= |logs|
  {
    if n == 0 then [] else logs[n - 1]
  }

  predicate InStepAfter(render: Renderer, logs: seq<seq<byte>>, answers: seq<Response>, n: nat)
    requires n <= |logs| == |answers|
  {
    InStep(render, Viewed(logs, answers, n), Seen(logs, n))
  }

  lemma NextPollExactly(render: Renderer, caps: Caps, logs: seq<seq<byte>>, answers: seq<Response>, i: nat)
    requires Piecewise(render)
    requires i < |logs| == |answers| && Schedule(render, caps, logs, answers)
    requires InStepAfter(render, logs, answers, i)
    ensures InStepAfter(render, logs, answers, i + 1) <==> PollCountsRight(caps, logs, answers, i)
  {
    assert PollAnswered(render, caps, logs, answers, i);
    InStepGrows(render, Viewed(logs, answers, i), Seen(logs, i), logs[i]);
    PollKeepsStepExactly(render, caps, Viewed(logs, answers, i), logs[i], answers[i]);
  }

  lemma StartsInStep(render: Renderer, logs: seq<seq<byte>>, answers: seq<Response>)
    requires |logs| == |answers|
    ensures InStepAfter(render, logs, answers, 0)
  {
  }

  lemma {:induction false} StepsWhileCountedRight(render: Renderer, caps: Caps, logs: seq<seq<byte>>, answers: seq<Response>, n: nat)
    requires Piecewise(render)
    requires n <= |logs| == |answers| && Schedule(render, caps, logs, answers)
    requires forall i :: 0 <= i < n ==> PollCountsRight(caps, logs, answers, i)
    ensures InStepAfter(render, logs, answers, n)
  {
    if n == 0 {
      StartsInStep(render, logs, answers);
    } else {
      StepsWhileCountedRight(render, caps, logs, answers, n - 1);
      NextPollExactly(render, caps, logs, answers, n - 1);
    }
  }

  /** For an append-only log and any schedule of polls that feeds back the returned cursors: after
      every poll the cursor is 0 or just past a newline and all delivered lines with their numbers
      are one rendering of the log up to the cursor from line 1, if and only if every poll counts
      right or is stopped by the hard cap. */
  lemma EveryScheduleRendersOnce(render: Renderer, caps: Caps, logs: seq<seq<byte>>, answers: seq<Response>)
    requires Piecewise(render)
    requires |logs| == |answers| && Schedule(render, caps, logs, answers)
    ensures (forall n :: 0 <= n <= |logs| ==> InStepAfter(render, logs, answers, n))
            <==> (forall i :: 0 <= i < |logs| ==> PollCountsRight(caps, logs, answers, i))
  {
    if forall n :: 0 <= n <= |logs| ==> InStepAfter(render, logs, answers, n) {
      forall i | 0 <= i < |logs|
        ensures PollCountsRight(caps, logs, answers, i)
      {
        assert InStepAfter(render, logs, answers, i) && InStepAfter(render, logs, answers, i + 1);
        NextPollExactly(render, caps, logs, answers, i);
      }
    }
    if forall i :: 0 <= i < |logs| ==> PollCountsRight(caps, logs, answers, i) {
      forall n | 0 <= n <= |logs|
        ensures InStepAfter(render, logs, answers, n)
      {
        StepsWhileCountedRight(render, caps, logs, answers, n);
      }
    }
  }

  lemma RightPollCatchesUp(render: Renderer, caps: Caps, logs: seq<seq<byte>>, answers: seq<Response>, n: nat)
    requires Piecewise(render)
    requires n < |logs| == |answers| && Schedule(render, caps, logs, answers)
    requires InStepAfter(render, logs, answers, n) && PollCountsRight(caps, logs, answers, n) && |logs[n]| <= caps.hard
    ensures InStep(render, Viewed(logs, answers, n + 1), logs[n]) && Viewed(logs, answers, n + 1).offset == LineEnd(logs[n])
  {
    assert PollAnswered(render, caps, logs, answers, n);
    InStepGrows(render, Viewed(logs, answers, n), Seen(logs, n), logs[n]);
    UnderCapKeepsStep(render, caps, Viewed(logs, answers, n), logs[n], answers[n]);
  }

  /** A schedule in which every poll counts right ends, if its last log is under the hard cap, with
      all its complete lines delivered. */
  lemma CaughtUp(render: Renderer, caps: Caps, logs: seq<seq<byte>>, answers: seq<Response>)
    requires Piecewise(render)
    requires |logs| == |answers| > 0 && Schedule(render, caps, logs, answers)
    requires forall i :: 0 <= i < |logs| ==> PollCountsRight(caps, logs, answers, i)
    requires |logs[|logs| - 1]| <= caps.hard
    ensures var v, log := Viewed(logs, answers, |logs|), logs[|logs| - 1];
            InStep(render, v, log) && v.offset == LineEnd(log)
  {
    var n := |logs| - 1;
    StepsWhileCountedRight(render, caps, logs, answers, n);
    assert PollCountsRight(caps, logs, answers, n);
    RightPollCatchesUp(render, caps, logs, answers, n);
  }

  /** However differently two viewers polled, once both have polled the same log under the hard
      cap they show the same lines: one rendering of all its complete lines. */
  lemma SchedulesAgree(render: Renderer, caps: Caps, logs: seq<seq<byte>>, answers: seq<Response>,
                       logs': seq<seq<byte>>, answers': seq<Response>)
    requires Piecewise(render)
    requires |logs| == |answers| > 0 && Schedule(render, caps, logs, answers)
    requires |logs'| == |answers'| > 0 && Schedule(render, caps, logs', answers')
    requires forall i :: 0 <= i < |logs| ==> PollCountsRight(caps, logs, answers, i)
    requires forall i :: 0 <= i < |logs'| ==> PollCountsRight(caps, logs', answers', i)
    requires logs[|logs| - 1] == logs'[|logs'| - 1] && |logs[|logs| - 1]| <= caps.hard
    ensures Viewed(logs, answers, |logs|) == Viewed(logs', answers', |logs'|)
    ensures Viewed(logs, answers, |logs|).offset == LineEnd(logs[|logs| - 1])
  {
    CaughtUp(render, caps, logs, answers);
    CaughtUp(render, caps, logs', answers');
  }
}
