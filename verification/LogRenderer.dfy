/** Rendering of a raw log: splitting, the carriage-return overwrite, skipping of empty lines
    and numbering. The regular-expression clean-ups and the HTML conversion are parameters. */
module LogRenderer {
  import opened Text

  datatype LogLine = LogLine(num: int, html: string)

  /** What happens to a line before and after the carriage-return simulation. */
  datatype Cleaner = Cleaner(before: string -> string, after: string -> string)

  // ----- Carriage returns

  /** One segment typed over what the line holds so far. */
  function Overlay(line: string, segment: string): string {
    if |segment| >= |line| then segment else segment + line[|segment|..]
  }

  function Fold(segments: seq<string>): string {
    if segments == [] then ""
    else Overlay(Fold(segments[..|segments| - 1]), segments[|segments| - 1])
  }

  function LongestLength(segments: seq<string>): nat {
    if segments == [] then 0
    else
      var before := LongestLength(segments[..|segments| - 1]);
      var last := |segments[|segments| - 1]|;
      if last > before then last else before
  }

  /** The last segment that reaches a column. */
  function LastReaching(segments: seq<string>, col: nat): (i: nat)
    requires col < LongestLength(segments)
    ensures i < |segments| && col < |segments[i]|
    ensures forall j :: i < j < |segments| ==> |segments[j]| <= col
  {
    var n := |segments| - 1;
    if col < |segments[n]| then n else LastReaching(segments[..n], col)
  }

  /** The fold is a terminal's column buffer: as wide as the widest segment, each column showing
      the last segment long enough to reach it. */
  lemma {:induction false} FoldIsTerminal(segments: seq<string>)
    ensures |Fold(segments)| == LongestLength(segments)
    ensures forall col :: 0 <= col < LongestLength(segments) ==>
              Fold(segments)[col] == segments[LastReaching(segments, col)][col]
  {
    if segments != [] {
      FoldIsTerminal(segments[..|segments| - 1]);
    }
  }

  method FoldSegments(segments: seq<string>) returns (res: string)
    requires segments != []
    ensures res == Fold(segments)
  {
    res := segments[0];
    assert Fold([]) == "" && segments[..1][..0] == [];
    assert Fold(segments[..1]) == segments[0];
    for i := 1 to |segments|
      invariant res == Fold(segments[..i])
    {
      var p := segments[i];
      assert segments[..i + 1][..i] == segments[..i];
      if p == "" {
        continue;
      }
      if |p| >= |res| {
        res := p;
      } else {
        res := p + res[|p|..];
      }
    }
    assert segments[..|segments|] == segments;
  }

  // ----- Lines

  function CleanLine(cl: Cleaner, raw: string): string {
    var line := cl.before(raw);
    cl.after(if '\r' in line then Fold(Split(line, '\r')) else line)
  }

  /** The rendered lines in order, numbered from `start`, without those that come out blank. */
  function RenderLines(cl: Cleaner, raws: seq<string>, start: int): seq<LogLine> {
    if raws == [] then []
    else
      var shorter := RenderLines(cl, raws[..|raws| - 1], start);
      var html := CleanLine(cl, raws[|raws| - 1]);
      if Blank(html) then shorter else shorter + [LogLine(start + |shorter|, html)]
  }

  /** The lines of a text; one final newline ends the last line rather than starting another. */
  function LinesOf(text: string): seq<string> {
    Split(if EndsWith(text, "\n") then text[..|text| - 1] else text, '\n')
  }

  /** What `render` returns for a whole text. */
  function Rendered(cl: Cleaner, text: string, start: int): seq<LogLine> {
    RenderLines(cl, LinesOf(text), start)
  }

  // ----- What a viewer is shown, said without the code that renders it

  /** What a terminal shows of a line: as wide as its widest segment between carriage returns,
      each column from the last segment that reaches it. */
  ghost predicate OnTerminal(line: string, shown: string) {
    var segments := Split(line, '\r');
    && |shown| == LongestLength(segments)
    && forall col :: 0 <= col < |shown| ==> shown[col] == segments[LastReaching(segments, col)][col]
  }

  /** The raw line cleaned before and after it went over the terminal. */
  ghost predicate CleanedTo(cl: Cleaner, raw: string, html: string) {
    exists shown :: OnTerminal(cl.before(raw), shown) && html == cl.after(shown)
  }

  /** These are the lines of the text: joined again they are the text, but for one final newline. */
  predicate AreLines(raws: seq<string>, text: string) {
    && raws != [] && (forall i :: 0 <= i < |raws| ==> '\n' !in raws[i])
    && text == Join(raws, '\n') + if EndsWith(text, "\n") then "\n" else ""
  }

  /** Shown line j is raw line at[j], cleaned and numbered; every raw line that is not blank once
      cleaned is among them. */
  ghost predicate ShownAt(cl: Cleaner, raws: seq<string>, start: int, shown: seq<LogLine>, at: seq<nat>) {
    && |at| == |shown|
    && (forall j :: 0 <= j < |at| ==>
          at[j] < |raws| && shown[j].num == start + j && CleanedTo(cl, raws[at[j]], shown[j].html) && !Blank(shown[j].html))
    && (forall j, k :: 0 <= j < k < |at| ==> at[j] < at[k])
    && (forall i, html :: 0 <= i < |raws| && CleanedTo(cl, raws[i], html) && !Blank(html) ==> i in at)
  }

  ghost predicate Displays(cl: Cleaner, text: string, start: int, shown: seq<LogLine>) {
    exists raws, at :: AreLines(raws, text) && ShownAt(cl, raws, start, shown, at)
  }

  lemma CleanedExactly(cl: Cleaner, raw: string, html: string)
    ensures CleanedTo(cl, raw, html) <==> html == CleanLine(cl, raw)
  {
    var line := cl.before(raw);
    var segments := Split(line, '\r');
    FoldIsTerminal(segments);
    assert OnTerminal(line, Fold(segments));
    if '\r' !in line {
      SplitWithoutSeparator(line, '\r');
      assert segments[..0] == [] && Fold([line]) == line;
    }
    forall shown | OnTerminal(line, shown)
      ensures shown == Fold(segments)
    {
    }
  }

  lemma ShownOneMore(cl: Cleaner, front: seq<string>, start: int, shown: seq<LogLine>, at: seq<nat>, raw: string)
    requires ShownAt(cl, front, start, shown, at) && !Blank(CleanLine(cl, raw))
    ensures ShownAt(cl, front + [raw], start, shown + [LogLine(start + |shown|, CleanLine(cl, raw))], at + [|front|])
  {
    var raws, at' := front + [raw], at + [|front|];
    CleanedExactly(cl, raw, CleanLine(cl, raw));
    forall i, html | 0 <= i < |raws| && CleanedTo(cl, raws[i], html) && !Blank(html)
      ensures i in at'
    {
      if i < |front| {
        assert front[i] == raws[i] && i in at;
      } else {
        assert at'[|at|] == i;
      }
    }
  }

  lemma ShownNoMore(cl: Cleaner, front: seq<string>, start: int, shown: seq<LogLine>, at: seq<nat>, raw: string)
    requires ShownAt(cl, front, start, shown, at) && Blank(CleanLine(cl, raw))
    ensures ShownAt(cl, front + [raw], start, shown, at)
  {
    var raws := front + [raw];
    forall i, html | 0 <= i < |raws| && CleanedTo(cl, raws[i], html) && !Blank(html)
      ensures i in at
    {
      CleanedExactly(cl, raws[i], html);
      assert i < |front| && front[i] == raws[i];
    }
  }

  lemma {:induction false} NoLineIsLost(cl: Cleaner, raws: seq<string>, start: int) returns (at: seq<nat>)
    ensures ShownAt(cl, raws, start, RenderLines(cl, raws, start), at)
  {
    at := [];
    if raws != [] {
      var front, raw := raws[..|raws| - 1], raws[|raws| - 1];
      at := NoLineIsLost(cl, front, start);
      assert raws == front + [raw];
      if Blank(CleanLine(cl, raw)) {
        ShownNoMore(cl, front, start, RenderLines(cl, front, start), at, raw);
      } else {
        ShownOneMore(cl, front, start, RenderLines(cl, front, start), at, raw);
        at := at + [|front|];
      }
    }
  }

  /** The rendering shows every line of the text that does not come out blank, cleaned, in order and
      numbered on, and nothing else. */
  lemma RenderedDisplays(cl: Cleaner, text: string, start: int)
    ensures Displays(cl, text, start, Rendered(cl, text, start))
  {
    var body := if EndsWith(text, "\n") then text[..|text| - 1] else text;
    JoinOfSplit(body, '\n');
    PartsHaveNoSeparator(body, '\n');
    assert AreLines(LinesOf(text), text);
    var at := NoLineIsLost(cl, LinesOf(text), start);
  }

  lemma RenderNext(cl: Cleaner, lines: seq<string>, i: nat, start: int)
    requires i < |lines|
    ensures var before, html := RenderLines(cl, lines[..i], start), CleanLine(cl, lines[i]);
            RenderLines(cl, lines[..i + 1], start) ==
            if Blank(html) then before else before + [LogLine(start + |before|, html)]
  {
    assert lines[..i + 1][..i] == lines[..i];
  }

  method Render(cl: Cleaner, text: string, start: int) returns (result: seq<LogLine>)
    ensures result == Rendered(cl, text, start)
    ensures Displays(cl, text, start, result)
  {
    var raw := text;
    if EndsWith(raw, "\n") {
      raw := raw[..|raw| - 1];
    }
    var lines := Split(raw, '\n');
    result := [];
    for i := 0 to |lines|
      invariant result == RenderLines(cl, lines[..i], start)
    {
      var line := cl.before(lines[i]);
      if '\r' in line {
        line := FoldSegments(Split(line, '\r'));
      }
      var html := cl.after(line);
      RenderNext(cl, lines, i, start);
      if Blank(html) {
        continue;
      }
      result := result + [LogLine(start + |result|, html)];
    }
    assert lines[..|lines|] == lines;
    RenderedDisplays(cl, text, start);
  }

  predicate Numbered(lines: seq<LogLine>, start: int) {
    && (forall i :: 0 <= i < |lines| ==> lines[i].num == start + i)
    && (forall i :: 0 <= i < |lines| ==> !Blank(lines[i].html))
  }

  /** Numbers run on without a gap from the first one asked for, and no line is blank. */
  lemma {:induction false} NumbersRunOn(cl: Cleaner, raws: seq<string>, start: int)
    ensures Numbered(RenderLines(cl, raws, start), start)
  {
    if raws != [] {
      NumbersRunOn(cl, raws[..|raws| - 1], start);
    }
  }

  lemma {:induction false} RenderLinesConcat(cl: Cleaner, xs: seq<string>, ys: seq<string>, start: int)
    ensures var first := RenderLines(cl, xs, start);
            RenderLines(cl, xs + ys, start) == first + RenderLines(cl, ys, start + |first|)
  {
    if ys == [] {
      assert xs + ys == xs;
    } else {
      assert (xs + ys)[..|xs + ys| - 1] == xs + ys[..|ys| - 1];
      RenderLinesConcat(cl, xs, ys[..|ys| - 1], start);
    }
  }

  /** Rendering complete lines now and more complete lines later, carrying the line number over,
      is rendering all of them at once. */
  lemma RenderInPieces(cl: Cleaner, a: string, b: string, start: int)
    requires a != "" && EndsWith(a, "\n") && b != "" && EndsWith(b, "\n")
    ensures var first := Rendered(cl, a, start);
            Rendered(cl, a + b, start) == first + Rendered(cl, b, start + |first|)
  {
    var a', b' := a[..|a| - 1], b[..|b| - 1];
    assert a == a' + "\n" && b == b' + "\n";
    assert (a + b)[..|a + b| - 1] == a' + "\n" + b';
    assert EndsWith(a + b, "\n");
    SplitAtSeparator(a', '\n', b');
    RenderLinesConcat(cl, LinesOf(a), LinesOf(b), start);
  }
}
