/** Assembly of the final command pipeline: placeholder substitution and token dropping. */
module PipelineBuilder {
  import opened Wrappers

  /** `required` and the validation regex of one declared argument. */
  datatype ArgDef = ArgDef(name: string, required: bool, regex: string)

  /** Request arguments, each already printed by `str`; a key may hold null. */
  type Arguments = map<string, Option<string>>

  datatype Error = MissingArgument(name: string) | DangerousCharacter(name: string) | RegexMismatch(name: string)

  function Placeholder(name: string): string { "{" + name + "}" }

  predicate Supplied(args: Arguments, name: string) {
    name in args && args[name].Some?
  }

  /** `str(arguments[name])`. */
  function Str(args: Arguments, name: string): string
    requires name in args
  {
    match args[name]
    case Some(v) => v
    case None => "None"
  }

  // ----- Text search and replacement, as on Python strings

  /** `pat in s`. */
  predicate Contains(s: string, pat: string) {
    pat <= s || (s != "" && Contains(s[1..], pat))
  }

  predicate OccursAt(s: string, pat: string, i: nat) {
    i + |pat| <= |s| && s[i..i + |pat|] == pat
  }

  lemma {:induction false} ContainsExactly(s: string, pat: string)
    ensures Contains(s, pat) <==> exists i: nat :: OccursAt(s, pat, i)
  {
    assert OccursAt(s, pat, 0) <==> pat <= s;
    if pat <= s {
      assert OccursAt(s, pat, 0);
    } else if s != "" {
      ContainsExactly(s[1..], pat);
      if i: nat :| OccursAt(s[1..], pat, i) {
        assert s[i + 1..i + 1 + |pat|] == s[1..][i..i + |pat|];
        assert OccursAt(s, pat, i + 1);
      }
      if i: nat :| i > 0 && OccursAt(s, pat, i) {
        assert s[1..][i - 1..i - 1 + |pat|] == s[i..i + |pat|];
        assert OccursAt(s[1..], pat, i - 1);
      }
    }
  }

  /** `s.replace(pat, val)`: leftmost matches first, none overlapping, no rescan. */
  function ReplaceAll(s: string, pat: string, val: string): string
    requires pat != ""
  {
    if s == "" then ""
    else if pat <= s then val + ReplaceAll(s[|pat|..], pat, val)
    else [s[0]] + ReplaceAll(s[1..], pat, val)
  }

  /** How often `s.replace(pat, ...)` finds it. */
  function Occurrences(s: string, pat: string): nat
    requires pat != ""
  {
    if s == "" then 0
    else if pat <= s then 1 + Occurrences(s[|pat|..], pat)
    else Occurrences(s[1..], pat)
  }

  function Opens(s: string): nat {
    if s == "" then 0 else (if s[0] == '{' then 1 else 0) + Opens(s[1..])
  }

  lemma {:induction false} OpensOfConcat(s: string, t: string)
    ensures Opens(s + t) == Opens(s) + Opens(t)
    ensures '{' !in s ==> Opens(s) == 0
  {
    if s == "" {
      assert s + t == t;
    } else {
      assert (s + t)[1..] == s[1..] + t;
      OpensOfConcat(s[1..], t);
    }
  }

  /** Replacing a placeholder by a value with no opening brace changes the text exactly if the
      placeholder occurs. */
  lemma {:induction false} ReplacedExactly(s: string, name: string, val: string)
    requires '{' !in val
    ensures Opens(ReplaceAll(s, Placeholder(name), val)) <= Opens(s)
    ensures Contains(s, Placeholder(name)) ==> Opens(ReplaceAll(s, Placeholder(name), val)) < Opens(s)
    ensures Contains(s, Placeholder(name)) <==> ReplaceAll(s, Placeholder(name), val) != s
  {
    var pat := Placeholder(name);
    if s == "" {
    } else if pat <= s {
      var rest := s[|pat|..];
      ReplacedExactly(rest, name, val);
      OpensOfConcat(val, ReplaceAll(rest, pat, val));
      assert s == pat + rest;
      OpensOfConcat(pat, rest);
      assert pat[0] == '{';
    } else {
      ReplacedExactly(s[1..], name, val);
      var r := ReplaceAll(s[1..], pat, val);
      assert s == [s[0]] + s[1..];
      assert ([s[0]] + r)[1..] == r;
    }
  }

  // ----- Templates

  /** A pipeline token as its author meant it. */
  datatype Segment = Lit(text: string) | Hole(name: string)
  type Template = seq<Segment>

  predicate BraceFree(s: string) { '{' !in s && '}' !in s }

  /** Literals without an opening brace, hole names without braces. */
  predicate WellFormed(t: Template) {
    forall i :: 0 <= i < |t| ==> if t[i].Lit? then '{' !in t[i].text else BraceFree(t[i].name)
  }

  function Written(seg: Segment): string {
    match seg
    case Lit(text) => text
    case Hole(name) => Placeholder(name)
  }

  function Flatten(t: Template): string {
    if t == [] then "" else Written(t[0]) + Flatten(t[1..])
  }

  function PutAt(seg: Segment, name: string, val: string): Segment {
    if seg == Hole(name) then Lit(val) else seg
  }

  function Put(t: Template, name: string, val: string): (r: Template)
    ensures |r| == |t| && forall i :: 0 <= i < |t| ==> r[i] == PutAt(t[i], name, val)
  {
    seq(|t|, i requires 0 <= i < |t| => PutAt(t[i], name, val))
  }

  /** Text without an opening brace is passed over. */
  lemma {:induction false} PassOver(lit: string, rest: string, name: string, val: string)
    requires '{' !in lit
    ensures ReplaceAll(lit + rest, Placeholder(name), val) == lit + ReplaceAll(rest, Placeholder(name), val)
    ensures Contains(lit + rest, Placeholder(name)) == Contains(rest, Placeholder(name))
    ensures Occurrences(lit + rest, Placeholder(name)) == Occurrences(rest, Placeholder(name))
  {
    var pat := Placeholder(name);
    if lit == "" {
      assert lit + rest == rest;
      assert lit + ReplaceAll(rest, pat, val) == ReplaceAll(rest, pat, val);
    } else {
      var s := lit + rest;
      assert s[0] == lit[0] && s[1..] == lit[1..] + rest;
      assert pat[0] == '{' && lit[0] in lit;
      PassOver(lit[1..], rest, name, val);
      assert [lit[0]] + (lit[1..] + ReplaceAll(rest, pat, val)) == lit + ReplaceAll(rest, pat, val);
    }
  }

  lemma FirstCloser(name: string, rest: string, k: nat)
    requires BraceFree(name)
    requires k < |Placeholder(name) + rest| && (Placeholder(name) + rest)[k] == '}'
    ensures k > |name|
  {
    assert forall i :: 0 <= i < |name| ==> name[i] in name;
    assert forall i :: 0 < i <= |name| ==> (Placeholder(name) + rest)[i] == name[i - 1];
  }

  /** Distinct brace-free names never match each other's placeholder. */
  lemma NoFalseMatch(hole: string, name: string, rest: string)
    requires BraceFree(hole) && BraceFree(name)
    requires Placeholder(name) <= Placeholder(hole) + rest
    ensures hole == name
  {
    var pat, s := Placeholder(name), Placeholder(hole) + rest;
    assert s[1 + |name|] == pat[1 + |name|] == '}';
    FirstCloser(hole, rest, 1 + |name|);
    assert pat[1 + |hole|] == s[1 + |hole|] == '}';
    assert pat + "" == pat;
    FirstCloser(name, "", 1 + |hole|);
    assert name == pat[1..1 + |name|] == s[1..1 + |name|] == hole;
  }

  lemma HoleStep(hole: string, rest: string, name: string, val: string)
    requires BraceFree(hole) && BraceFree(name)
    ensures ReplaceAll(Placeholder(hole) + rest, Placeholder(name), val)
         == Written(PutAt(Hole(hole), name, val)) + ReplaceAll(rest, Placeholder(name), val)
    ensures Contains(Placeholder(hole) + rest, Placeholder(name)) <==> hole == name || Contains(rest, Placeholder(name))
    ensures Occurrences(Placeholder(hole) + rest, Placeholder(name))
         == (if hole == name then 1 else 0) + Occurrences(rest, Placeholder(name))
  {
    var pat, s := Placeholder(name), Placeholder(hole) + rest;
    if hole == name {
      assert pat <= s && s[|pat|..] == rest;
    } else {
      if pat <= s {
        NoFalseMatch(hole, name, rest);
      }
      var tail := hole + "}";
      assert s[0] == '{' && s[1..] == tail + rest;
      PassOver(tail, rest, name, val);
      assert ['{'] + (tail + ReplaceAll(rest, pat, val)) == Placeholder(hole) + ReplaceAll(rest, pat, val);
    }
  }

  /** Textual replacement fills exactly the holes of that name. */
  lemma {:induction false} ReplaceFillsHoles(t: Template, name: string, val: string)
    requires WellFormed(t) && BraceFree(name)
    ensures ReplaceAll(Flatten(t), Placeholder(name), val) == Flatten(Put(t, name, val))
    ensures Contains(Flatten(t), Placeholder(name)) <==> Hole(name) in t
  {
    if t != [] {
      var rest := t[1..];
      ReplaceFillsHoles(rest, name, val);
      assert Put(t, name, val)[1..] == Put(rest, name, val);
      match t[0] {
        case Lit(text) => PassOver(text, Flatten(rest), name, val);
        case Hole(h) => HoleStep(h, Flatten(rest), name, val);
      }
    }
  }

  // ----- Templates whose literals may have come from values

  /** Nothing is known of the literals. */
  predicate PlainHoles(t: Template) {
    forall i :: 0 <= i < |t| && t[i].Hole? ==> BraceFree(t[i].name)
  }

  function HoleCount(t: Template, name: string): nat {
    if t == [] then 0 else (if t[0] == Hole(name) then 1 else 0) + HoleCount(t[1..], name)
  }

  lemma {:induction false} AbsentIsUnchanged(s: string, name: string, val: string)
    ensures !Contains(s, Placeholder(name)) ==> ReplaceAll(s, Placeholder(name), val) == s
    ensures Occurrences(s, Placeholder(name)) == 0 ==> ReplaceAll(s, Placeholder(name), val) == s
  {
    var pat := Placeholder(name);
    if s != "" && !(pat <= s) {
      AbsentIsUnchanged(s[1..], name, val);
      assert s == [s[0]] + s[1..];
    }
  }

  /** No placeholder reaches over an opening brace. */
  lemma NoStraddle(x: string, y: string, name: string)
    requires BraceFree(name) && x != "" && (y == "" || y[0] == '{')
    ensures Placeholder(name) <= x + y <==> Placeholder(name) <= x
  {
    var pat := Placeholder(name);
    assert forall i :: 0 < i < |pat| ==> pat[i] != '{' by {
      assert forall i :: 0 <= i < |name| ==> pat[i + 1] == name[i] && name[i] in name;
    }
    assert |x| < |x + y| ==> (x + y)[|x|] == y[0];
    assert pat <= x ==> pat <= x + y;
    assert |pat| <= |x| && pat <= x + y ==> (x + y)[..|pat|] == x[..|pat|];
  }

  lemma {:induction false} SplitsAtBrace(x: string, y: string, name: string, val: string)
    requires BraceFree(name) && (y == "" || y[0] == '{')
    ensures var pat := Placeholder(name);
            && ReplaceAll(x + y, pat, val) == ReplaceAll(x, pat, val) + ReplaceAll(y, pat, val)
            && Occurrences(x + y, pat) == Occurrences(x, pat) + Occurrences(y, pat)
  {
    var pat := Placeholder(name);
    if x == "" {
      assert x + y == y;
    } else {
      NoStraddle(x, y, name);
      if pat <= x {
        assert (x + y)[|pat|..] == x[|pat|..] + y;
        SplitsAtBrace(x[|pat|..], y, name, val);
      } else {
        assert (x + y)[1..] == x[1..] + y;
        SplitsAtBrace(x[1..], y, name, val);
      }
    }
  }

  /** After the text `x`, `from` has at least n occurrences of `{b}`; if just n, replacing them gives
      `to`. */
  predicate ReplacesAtLeast(x: string, from: string, to: string, n: nat, b: string, vb: string) {
    var s, pat := x + from, Placeholder(b);
    Occurrences(s, pat) >= n && (Occurrences(s, pat) == n ==> ReplaceAll(s, pat, vb) == x + to)
  }

  lemma AfterNothing(from: string, to: string, n: nat, b: string, vb: string)
    requires ReplacesAtLeast("", from, to, n, b, vb)
    ensures Occurrences(from, Placeholder(b)) >= n
    ensures Occurrences(from, Placeholder(b)) == n ==> ReplaceAll(from, Placeholder(b), vb) == to
  {
    assert "" + from == from && "" + to == to;
  }

  lemma OverText(x: string, text: string, from: string, to: string, n: nat, b: string, vb: string)
    requires ReplacesAtLeast(x + text, from, to, n, b, vb)
    ensures ReplacesAtLeast(x, text + from, text + to, n, b, vb)
  {
    assert x + (text + from) == (x + text) + from && x + (text + to) == (x + text) + to;
  }

  lemma OverHole(x: string, hole: string, from: string, to: string, n: nat, b: string, vb: string)
    requires BraceFree(hole) && BraceFree(b) && ReplacesAtLeast("", from, to, n, b, vb)
    ensures ReplacesAtLeast(x, Placeholder(hole) + from, Written(PutAt(Hole(hole), b, vb)) + to,
                            n + if hole == b then 1 else 0, b, vb)
  {
    assert "" + from == from && "" + to == to;
    SplitsAtBrace(x, Placeholder(hole) + from, b, vb);
    HoleStep(hole, from, b, vb);
    AbsentIsUnchanged(x, b, vb);
  }

  /** Text that ends in a template has at least its holes of `b` to be replaced, and if there is no
      other occurrence, replacing fills just these. */
  lemma {:induction false} ReplaceFillsHolesOrMore(x: string, t: Template, b: string, vb: string)
    requires PlainHoles(t) && BraceFree(b)
    ensures ReplacesAtLeast(x, Flatten(t), Flatten(Put(t, b, vb)), HoleCount(t, b), b, vb)
    decreases |t|
  {
    if t == [] {
      AbsentIsUnchanged(x, b, vb);
      assert x + "" == x;
    } else {
      var rest := t[1..];
      var from, to := Flatten(rest), Flatten(Put(rest, b, vb));
      assert Put(t, b, vb)[1..] == Put(rest, b, vb);
      match t[0] {
        case Lit(text) =>
          ReplaceFillsHolesOrMore(x + text, rest, b, vb);
          OverText(x, text, from, to, HoleCount(rest, b), b, vb);
        case Hole(h) =>
          ReplaceFillsHolesOrMore("", rest, b, vb);
          OverHole(x, h, from, to, HoleCount(rest, b), b, vb);
      }
    }
  }

  /** The text of the template has no occurrence of `{n}` but its holes. */
  predicate QuietFor(t: Template, n: string) {
    Occurrences(Flatten(t), Placeholder(n)) == HoleCount(t, n)
  }

  predicate Quiet(t: Template, names: set<string>) {
    forall n :: n in names ==> QuietFor(t, n)
  }

  lemma {:induction false} ContainsCounts(s: string, name: string)
    ensures Contains(s, Placeholder(name)) <==> Occurrences(s, Placeholder(name)) > 0
  {
    if s != "" && !(Placeholder(name) <= s) {
      ContainsCounts(s[1..], name);
    }
  }

  lemma {:induction false} HolesCount(t: Template, name: string)
    ensures Hole(name) in t <==> HoleCount(t, name) > 0
  {
    if t != [] {
      HolesCount(t[1..], name);
    }
  }

  /** There, textual replacement fills exactly the holes of that name. */
  lemma QuietReplaces(t: Template, name: string, val: string)
    requires PlainHoles(t) && BraceFree(name) && QuietFor(t, name)
    ensures ReplaceAll(Flatten(t), Placeholder(name), val) == Flatten(Put(t, name, val))
    ensures Contains(Flatten(t), Placeholder(name)) <==> Hole(name) in t
    ensures Hole(name) !in t ==> Put(t, name, val) == t
  {
    ReplaceFillsHolesOrMore("", t, name, val);
    AfterNothing(Flatten(t), Flatten(Put(t, name, val)), HoleCount(t, name), name, val);
    ContainsCounts(Flatten(t), name);
    HolesCount(t, name);
  }

  lemma {:induction false} WellFormedIsQuiet(t: Template, name: string)
    requires WellFormed(t) && BraceFree(name)
    ensures QuietFor(t, name)
  {
    if t != [] {
      var rest := t[1..];
      WellFormedIsQuiet(rest, name);
      match t[0] {
        case Lit(text) => PassOver(text, Flatten(rest), name, "");
        case Hole(h) => HoleStep(h, Flatten(rest), name, "");
      }
    }
  }

  lemma ShortHasNone(x: string, name: string)
    ensures |x| < |Placeholder(name)| ==> Occurrences(x, Placeholder(name)) == 0
  {
    if x != "" && |x| < |Placeholder(name)| {
      ShortHasNone(x[1..], name);
    }
  }

  /** Putting texts together only adds occurrences. */
  lemma {:induction false} OccurrencesAdd(x: string, y: string, name: string)
    requires BraceFree(name)
    ensures Occurrences(x + y, Placeholder(name)) >= Occurrences(x, Placeholder(name)) + Occurrences(y, Placeholder(name))
  {
    var pat, s := Placeholder(name), x + y;
    if x == "" {
      assert s == y;
    } else if pat <= x {
      assert s[|pat|..] == x[|pat|..] + y;
      OccurrencesAdd(x[|pat|..], y, name);
    } else if pat <= s {
      StraddleAdds(x, y, name);
    } else {
      assert s[1..] == x[1..] + y;
      OccurrencesAdd(x[1..], y, name);
    }
  }

  lemma PrefixOfFirst(pat: string, x: string, y: string)
    ensures |pat| <= |x| && pat <= x + y ==> pat <= x
  {
    assert |pat| <= |x| ==> (x + y)[..|pat|] == x[..|pat|];
  }

  lemma OpensOnce(name: string, k: nat)
    requires BraceFree(name) && 0 < k <= |Placeholder(name)|
    ensures '{' !in Placeholder(name)[k..]
  {
    var tail := name + "}";
    assert '{' !in tail;
    assert Placeholder(name)[k..] == tail[k - 1..];
  }

  lemma StraddleAdds(x: string, y: string, name: string)
    requires BraceFree(name) && x != ""
    requires Placeholder(name) <= x + y && !(Placeholder(name) <= x)
    ensures Occurrences(x + y, Placeholder(name)) >= Occurrences(x, Placeholder(name)) + Occurrences(y, Placeholder(name))
  {
    var pat, s := Placeholder(name), x + y;
    PrefixOfFirst(pat, x, y);
    ShortHasNone(x, name);
    var k := |pat| - |x|;
    assert s[|x|..|pat|] == y[..k] == pat[|x|..];
    OpensOnce(name, |x|);
    PassOver(y[..k], y[k..], name, "");
    assert y == y[..k] + y[k..] && s[|pat|..] == y[k..];
  }

  /** Some holes have been filled. */
  predicate Filling(t: Template, filled: Template) {
    |filled| == |t| && forall i :: 0 <= i < |t| ==> filled[i] == t[i] || (t[i].Hole? && filled[i].Lit?)
  }

  /** Occurrences of `{n}` beyond the holes, in a text that ends in a template. */
  function Surplus(x: string, t: Template, n: string): int {
    Occurrences(x + Flatten(t), Placeholder(n)) - HoleCount(t, n)
  }

  lemma SurplusOverHole(x: string, t: Template, n: string)
    requires t != [] && t[0].Hole? && PlainHoles(t) && BraceFree(n)
    ensures Surplus(x, t, n) == Occurrences(x, Placeholder(n)) + Surplus("", t[1..], n)
  {
    SplitsAtBrace(x, Flatten(t), n, "");
    HoleStep(t[0].name, Flatten(t[1..]), n, "");
    assert "" + Flatten(t[1..]) == Flatten(t[1..]);
  }

  lemma SurplusOverText(x: string, t: Template, n: string)
    requires t != [] && t[0].Lit?
    ensures Surplus(x, t, n) == Surplus(x + t[0].text, t[1..], n)
  {
    assert x + (t[0].text + Flatten(t[1..])) == (x + t[0].text) + Flatten(t[1..]);
  }

  /** Filling holes takes no other occurrence away. */
  lemma {:induction false} SurplusGrows(x: string, t: Template, filled: Template, n: string)
    requires PlainHoles(t) && Filling(t, filled) && BraceFree(n)
    ensures Surplus(x, filled, n) >= Surplus(x, t, n)
    decreases |t|
  {
    if t != [] {
      if t[0].Lit? {
        SurplusOverText(x, t, n);
        SurplusOverText(x, filled, n);
        SurplusGrows(x + t[0].text, t[1..], filled[1..], n);
      } else {
        SurplusOverHole(x, t, n);
        SurplusGrows("", t[1..], filled[1..], n);
        if filled[0] == t[0] {
          SurplusOverHole(x, filled, n);
        } else {
          var y, rest := x + filled[0].text, Flatten(filled[1..]);
          SurplusOverText(x, filled, n);
          OccurrencesAdd(y, rest, n);
          OccurrencesAdd(x, filled[0].text, n);
          assert "" + rest == rest;
        }
      }
    }
  }

  lemma HolesOccur(t: Template, n: string)
    requires PlainHoles(t) && BraceFree(n)
    ensures Occurrences(Flatten(t), Placeholder(n)) >= HoleCount(t, n)
  {
    ReplaceFillsHolesOrMore("", t, n, "");
    AfterNothing(Flatten(t), Flatten(Put(t, n, "")), HoleCount(t, n), n, "");
  }

  lemma SurplusOfAll(t: Template, n: string)
    ensures Surplus("", t, n) == Occurrences(Flatten(t), Placeholder(n)) - HoleCount(t, n)
  {
    assert "" + Flatten(t) == Flatten(t);
  }

  /** What is quiet in the end was quiet before. */
  lemma QuietBefore(t: Template, filled: Template, n: string)
    requires PlainHoles(t) && Filling(t, filled) && BraceFree(n) && QuietFor(filled, n)
    ensures QuietFor(t, n)
  {
    HolesOccur(t, n);
    SurplusGrows("", t, filled, n);
    SurplusOfAll(t, n);
    SurplusOfAll(filled, n);
  }

  // ----- resolve_part

  function ResolveArgs(part: string, args: Arguments, defs: seq<ArgDef>): Result<string, Error>
    decreases |defs|
  {
    if defs == [] then Ok(part)
    else
      var name := defs[0].name;
      if !Contains(part, Placeholder(name)) then ResolveArgs(part, args, defs[1..])
      else if name !in args then Err(MissingArgument(name))
      else ResolveArgs(ReplaceAll(part, Placeholder(name), Str(args, name)), args, defs[1..])
  }

  /** One token, replaced one declared argument after the other, `{run_id}` last. */
  function Resolve(part: string, args: Arguments, defs: seq<ArgDef>, runId: Option<string>): Result<string, Error> {
    match ResolveArgs(part, args, defs)
    case Err(e) => Err(e)
    case Ok(p) =>
      Ok(if runId.Some? && Contains(p, "{run_id}") then ReplaceAll(p, "{run_id}", runId.value) else p)
  }

  method ResolvePart(part: string, args: Arguments, defs: seq<ArgDef>, runId: Option<string>)
    returns (r: Result<string, Error>)
    ensures r == Resolve(part, args, defs, runId)
  {
    var p := part;
    for i := 0 to |defs|
      invariant ResolveArgs(part, args, defs) == ResolveArgs(p, args, defs[i..])
    {
      assert defs[i..][1..] == defs[i + 1..];
      var name := defs[i].name;
      if Contains(p, Placeholder(name)) {
        if name !in args {
          return Err(MissingArgument(name));
        }
        p := ReplaceAll(p, Placeholder(name), Str(args, name));
      }
    }
    if runId.Some? && Contains(p, "{run_id}") {
      p := ReplaceAll(p, "{run_id}", runId.value);
    }
    return Ok(p);
  }

  // ----- Its meaning: all holes filled at once

  function Names(defs: seq<ArgDef>): set<string> {
    set d | d in defs :: d.name
  }

  /** Declared holes get their argument, `{run_id}` the run id unless it is declared, all other
      holes stay as written. */
  function FillAt(seg: Segment, args: Arguments, names: set<string>, runId: Option<string>): Segment {
    if seg.Lit? then seg
    else if seg.name in names then (if seg.name in args then Lit(Str(args, seg.name)) else seg)
    else if seg.name == "run_id" && runId.Some? then Lit(runId.value)
    else seg
  }

  function Fill(t: Template, args: Arguments, names: set<string>, runId: Option<string>): (r: Template)
    ensures |r| == |t| && forall i :: 0 <= i < |t| ==> r[i] == FillAt(t[i], args, names, runId)
  {
    seq(|t|, i requires 0 <= i < |t| => FillAt(t[i], args, names, runId))
  }

  /** The names of the holes of `t` that are declared but have no argument. */
  function Unfilled(t: Template, args: Arguments, names: set<string>): set<string> {
    set n | n in names && n !in args && Hole(n) in t
  }

  lemma UnfilledHoles(t: Template, args: Arguments, names: set<string>)
    ensures forall i :: 0 <= i < |t| && t[i].Hole? && t[i].name in names
                        ==> t[i].name in args || t[i].name in Unfilled(t, args, names)
  {
    assert forall i :: 0 <= i < |t| && t[i].Hole? ==> t[i] == Hole(t[i].name);
  }

  predicate PlainNames(defs: seq<ArgDef>) {
    forall d :: d in defs ==> BraceFree(d.name)
  }

  /** No declared argument's value has an opening brace. */
  predicate PlainValues(args: Arguments, names: set<string>) {
    forall n :: n in names && n in args ==> '{' !in Str(args, n)
  }

  lemma PutThenFill(t: Template, args: Arguments, name: string, names: set<string>)
    requires name in args
    ensures var t' := Put(t, name, Str(args, name));
            && Unfilled(t', args, names) == Unfilled(t, args, {name} + names)
            && Fill(t', args, names, None) == Fill(t, args, {name} + names, None)
  {
    var t' := Put(t, name, Str(args, name));
    forall n | n != name
      ensures Hole(n) in t' <==> Hole(n) in t
    {
      if Hole(n) in t {
        var i :| 0 <= i < |t| && t[i] == Hole(n);
        assert t'[i] == Hole(n);
      }
    }
    assert Unfilled(t', args, names) == Unfilled(t, args, {name} + names);
  }

  lemma SkipThenFill(t: Template, args: Arguments, name: string, names: set<string>)
    requires name !in args
    ensures Unfilled(t, args, {name} + names) == Unfilled(t, args, names) + if Hole(name) in t then {name} else {}
    ensures Fill(t, args, names, None) == Fill(t, args, {name} + names, None)
  {
  }

  lemma NamesOfFirst(defs: seq<ArgDef>)
    requires defs != []
    ensures Names(defs) == {defs[0].name} + Names(defs[1..])
  {
    assert defs[0] in defs;
    assert forall d :: d in defs <==> d == defs[0] || d in defs[1..];
  }

  lemma {:induction false} ArgsFillAtOnce(t: Template, args: Arguments, defs: seq<ArgDef>)
    requires PlainHoles(t) && PlainNames(defs) && Quiet(Fill(t, args, Names(defs), None), Names(defs))
    ensures var r := ResolveArgs(Flatten(t), args, defs);
            if Unfilled(t, args, Names(defs)) == {}
            then r == Ok(Flatten(Fill(t, args, Names(defs), None)))
            else r.Err? && r.error.MissingArgument? && r.error.name in Unfilled(t, args, Names(defs))
    decreases |defs|
  {
    if defs == [] {
      assert Names(defs) == {} && Fill(t, args, {}, None) == t;
    } else {
      var name, rest := defs[0].name, defs[1..];
      NamesOfFirst(defs);
      assert defs[0] in defs;
      QuietBefore(t, Fill(t, args, Names(defs), None), name);
      if name in args {
        var val := Str(args, name);
        QuietReplaces(t, name, val);
        PutThenFill(t, args, name, Names(rest));
        ArgsFillAtOnce(Put(t, name, val), args, rest);
      } else {
        QuietReplaces(t, name, "");
        SkipThenFill(t, args, name, Names(rest));
        ArgsFillAtOnce(t, args, rest);
      }
    }
  }

  /** Once every hole is filled, the token has no declared placeholder in it, nor a `{run_id}` that
      it did not have: the values bring in no placeholder, on their own or with what is around them. */
  predicate QuietToken(t: Template, args: Arguments, defs: seq<ArgDef>, runId: Option<string>) {
    var filled := Fill(t, args, Names(defs), None);
    Quiet(filled, Names(defs)) && (runId.Some? ==> QuietFor(filled, "run_id"))
  }

  /** Values without an opening brace never do. */
  lemma PlainIsQuiet(t: Template, args: Arguments, defs: seq<ArgDef>, runId: Option<string>)
    requires WellFormed(t) && PlainNames(defs) && PlainValues(args, Names(defs))
    ensures QuietToken(t, args, defs, runId)
  {
    var m := Fill(t, args, Names(defs), None);
    forall n | n in Names(defs) || n == "run_id"
      ensures QuietFor(m, n)
    {
      WellFormedIsQuiet(m, n);
    }
  }

  lemma RunIdLast(part: string, args: Arguments, defs: seq<ArgDef>, runId: Option<string>)
    ensures var r := ResolveArgs(part, args, defs);
            Resolve(part, args, defs, runId) ==
            if r.Err? || runId.None? then r else Ok(ReplaceAll(r.value, Placeholder("run_id"), runId.value))
  {
    var r := ResolveArgs(part, args, defs);
    assert Placeholder("run_id") == "{run_id}";
    if r.Ok? && runId.Some? {
      AbsentIsUnchanged(r.value, "run_id", runId.value);
    }
  }

  /** One replacement after the other is the simultaneous substitution, whatever the order of the
      declared arguments; it fails exactly if the token has a declared hole with no argument. */
  lemma SequentialIsSimultaneous(t: Template, args: Arguments, defs: seq<ArgDef>, runId: Option<string>)
    requires PlainHoles(t) && PlainNames(defs) && QuietToken(t, args, defs, runId)
    ensures var r := Resolve(Flatten(t), args, defs, runId);
            if Unfilled(t, args, Names(defs)) == {}
            then r == Ok(Flatten(Fill(t, args, Names(defs), runId)))
            else r.Err? && r.error.MissingArgument? && r.error.name in Unfilled(t, args, Names(defs))
  {
    ArgsFillAtOnce(t, args, defs);
    RunIdLast(Flatten(t), args, defs, runId);
    if Unfilled(t, args, Names(defs)) == {} {
      RunIdFillsLast(t, args, Names(defs), runId);
    }
  }

  lemma RunIdFillsLast(t: Template, args: Arguments, names: set<string>, runId: Option<string>)
    requires PlainHoles(t) && Unfilled(t, args, names) == {}
    requires runId.Some? ==> QuietFor(Fill(t, args, names, None), "run_id")
    ensures var before := Flatten(Fill(t, args, names, None));
            Flatten(Fill(t, args, names, runId)) ==
            if runId.None? then before else ReplaceAll(before, Placeholder("run_id"), runId.value)
  {
    if runId.Some? {
      QuietReplaces(Fill(t, args, names, None), "run_id", runId.value);
      PutRunId(t, args, names, runId.value);
    }
  }

  lemma PutRunId(t: Template, args: Arguments, names: set<string>, id: string)
    requires Unfilled(t, args, names) == {}
    ensures Put(Fill(t, args, names, None), "run_id", id) == Fill(t, args, names, Some(id))
  {
    UnfilledHoles(t, args, names);
  }

  /** A resolved token has no declared placeholder left, nor `{run_id}` once the run has an id. */
  lemma NoPlaceholderLeft(t: Template, args: Arguments, defs: seq<ArgDef>, runId: Option<string>, name: string)
    requires WellFormed(t) && PlainNames(defs) && PlainValues(args, Names(defs))
    requires runId.Some? ==> '{' !in runId.value
    requires name in Names(defs) || (name == "run_id" && runId.Some?)
    ensures var r := Resolve(Flatten(t), args, defs, runId);
            r.Ok? ==> !Contains(r.value, Placeholder(name))
  {
    PlainIsQuiet(t, args, defs, runId);
    SequentialIsSimultaneous(t, args, defs, runId);
    if Unfilled(t, args, Names(defs)) == {} {
      FilledHolesAreGone(t, args, Names(defs), runId, name);
      ReplaceFillsHoles(Fill(t, args, Names(defs), runId), name, "");
    }
  }

  lemma FilledHolesAreGone(t: Template, args: Arguments, names: set<string>, runId: Option<string>, name: string)
    requires WellFormed(t) && PlainValues(args, names) && Unfilled(t, args, names) == {}
    requires runId.Some? ==> '{' !in runId.value
    requires name in names || (name == "run_id" && runId.Some?)
    ensures WellFormed(Fill(t, args, names, runId)) && Hole(name) !in Fill(t, args, names, runId)
  {
    UnfilledHoles(t, args, names);
  }

  // ----- Values are rescanned for the placeholders that come later

  /** Each replacement by a value with no opening brace takes one opening brace away. */
  lemma {:induction false} OpensOfReplaced(s: string, name: string, val: string)
    requires BraceFree(name) && '{' !in val
    ensures Opens(ReplaceAll(s, Placeholder(name), val)) + Occurrences(s, Placeholder(name)) == Opens(s)
  {
    var pat := Placeholder(name);
    if s == "" {
    } else if pat <= s {
      var rest := s[|pat|..];
      OpensOfReplaced(rest, name, val);
      OpensOfConcat(val, ReplaceAll(rest, pat, val));
      assert s == pat + rest;
      OpensOfConcat(pat, rest);
      assert pat[0] == '{' && pat[1..] == name + "}";
      OpensOfConcat(name + "}", "");
    } else {
      OpensOfReplaced(s[1..], name, val);
      assert ([s[0]] + ReplaceAll(s[1..], pat, val))[1..] == ReplaceAll(s[1..], pat, val);
    }
  }

  lemma OpensOfPlaceholder(name: string)
    requires BraceFree(name)
    ensures Opens(Placeholder(name)) == 1
  {
    var pat := Placeholder(name);
    assert pat[0] == '{' && pat[1..] == name + "}";
    OpensOfConcat(name + "}", "");
  }

  lemma {:induction false} OpensOfFilled(t: Template, b: string, vb: string)
    requires BraceFree(b) && '{' !in vb
    ensures Opens(Flatten(Put(t, b, vb))) + HoleCount(t, b) == Opens(Flatten(t))
  {
    if t != [] {
      OpensOfFilled(t[1..], b, vb);
      assert Put(t, b, vb)[1..] == Put(t[1..], b, vb);
      OpensOfConcat(Written(t[0]), Flatten(t[1..]));
      OpensOfConcat(Written(PutAt(t[0], b, vb)), Flatten(Put(t[1..], b, vb)));
      OpensOfConcat(vb, "");
      OpensOfPlaceholder(b);
    }
  }

  /** Replacing by a value with no opening brace fills just the holes if and only if there is no
      other occurrence: the opening braces that are left tell. */
  lemma FillsExactlyIfQuiet(t: Template, b: string, vb: string)
    requires PlainHoles(t) && BraceFree(b) && '{' !in vb
    ensures ReplaceAll(Flatten(t), Placeholder(b), vb) == Flatten(Put(t, b, vb)) <==> QuietFor(t, b)
  {
    ReplaceFillsHolesOrMore("", t, b, vb);
    AfterNothing(Flatten(t), Flatten(Put(t, b, vb)), HoleCount(t, b), b, vb);
    OpensOfReplaced(Flatten(t), b, vb);
    OpensOfFilled(t, b, vb);
  }

  lemma TwoArgs(part: string, args: Arguments, d: ArgDef, e: ArgDef)
    requires d.name in args && e.name in args
    ensures Resolve(part, args, [d, e], None) ==
            Ok(ReplaceAll(ReplaceAll(part, Placeholder(d.name), Str(args, d.name)), Placeholder(e.name), Str(args, e.name)))
  {
    assert [d, e][1..] == [e];
    AbsentIsUnchanged(part, d.name, Str(args, d.name));
    var p := ReplaceAll(part, Placeholder(d.name), Str(args, d.name));
    OneArg(p, args, e);
    AbsentIsUnchanged(p, e.name, Str(args, e.name));
  }

  /** For any token with two arguments, the second of which has no opening brace in its value:
      resolving that one first is the simultaneous substitution, and resolving it last is the same
      if and only if the other value brings in no further occurrence of its placeholder. */
  lemma OrderMattersExactly(t: Template, a: ArgDef, b: ArgDef, va: string, vb: string)
    requires WellFormed(t) && BraceFree(a.name) && BraceFree(b.name) && a.name != b.name && '{' !in vb
    ensures var args: Arguments := map[a.name := Some(va), b.name := Some(vb)];
            var filled := Flatten(Fill(t, args, {a.name, b.name}, None));
            && Resolve(Flatten(t), args, [b, a], None) == Ok(filled)
            && (Resolve(Flatten(t), args, [a, b], None) == Ok(filled) <==> QuietFor(Put(t, a.name, va), b.name))
  {
    var args: Arguments := map[a.name := Some(va), b.name := Some(vb)];
    TwoArgs(Flatten(t), args, b, a);
    TwoArgs(Flatten(t), args, a, b);
    ReplaceFillsHoles(t, b.name, vb);
    ReplaceFillsHoles(Put(t, b.name, vb), a.name, va);
    ReplaceFillsHoles(t, a.name, va);
    FillsExactlyIfQuiet(Put(t, a.name, va), b.name, vb);
    PutsAreFill(t, args, a.name, va, b.name, vb);
  }

  lemma PutsAreFill(t: Template, args: Arguments, a: string, va: string, b: string, vb: string)
    requires a != b && args == map[a := Some(va), b := Some(vb)]
    ensures Put(Put(t, b, vb), a, va) == Fill(t, args, {a, b}, None)
    ensures Put(Put(t, a, va), b, vb) == Fill(t, args, {a, b}, None)
  {
  }

  // ----- Which arguments are missed

  /** The text once the supplied ones of these arguments are replaced, in order. */
  function Filled(part: string, args: Arguments, defs: seq<ArgDef>): string
    decreases |defs|
  {
    if defs == [] then part
    else
      var name := defs[0].name;
      Filled(if name in args then ReplaceAll(part, Placeholder(name), Str(args, name)) else part, args, defs[1..])
  }

  /** Argument i is not supplied, and its placeholder is in the text when its turn comes. */
  predicate MissesAt(part: string, args: Arguments, defs: seq<ArgDef>, i: int) {
    && 0 <= i < |defs|
    && defs[i].name !in args
    && Contains(Filled(part, args, defs[..i]), Placeholder(defs[i].name))
  }

  predicate Misses(part: string, args: Arguments, defs: seq<ArgDef>) {
    exists i :: 0 <= i < |defs| && MissesAt(part, args, defs, i)
  }

  /** What the first argument leaves to the others. */
  lemma MissesLater(part: string, args: Arguments, defs: seq<ArgDef>)
    requires defs != []
    ensures var name := defs[0].name;
            var next := if name in args then ReplaceAll(part, Placeholder(name), Str(args, name)) else part;
            Misses(part, args, defs) <==>
              (name !in args && Contains(part, Placeholder(name))) || Misses(next, args, defs[1..])
  {
    var name, rest := defs[0].name, defs[1..];
    var next := if name in args then ReplaceAll(part, Placeholder(name), Str(args, name)) else part;
    forall i | 0 <= i < |rest|
      ensures MissesAt(part, args, defs, i + 1) <==> MissesAt(next, args, rest, i)
    {
      assert defs[..i + 1][0] == defs[0] && defs[..i + 1][1..] == rest[..i];
    }
    assert defs[..0] == [];
    assert MissesAt(part, args, defs, 0) <==> name !in args && Contains(part, Placeholder(name));
    if i :| MissesAt(part, args, defs, i) && i > 0 {
      assert MissesAt(next, args, rest, i - 1);
    }
    if i :| MissesAt(next, args, rest, i) {
      assert MissesAt(part, args, defs, i + 1);
    }
  }

  /** For any text, arguments and definitions: the replacement fails exactly if an argument is
      missed, and otherwise has replaced all supplied ones. */
  lemma {:induction false} MissesExactly(part: string, args: Arguments, defs: seq<ArgDef>)
    ensures var r := ResolveArgs(part, args, defs);
            && (r.Err? <==> Misses(part, args, defs))
            && (r.Ok? ==> r.value == Filled(part, args, defs))
    decreases |defs|
  {
    if defs != [] {
      var name := defs[0].name;
      MissesLater(part, args, defs);
      if name in args {
        AbsentIsUnchanged(part, name, Str(args, name));
        MissesExactly(ReplaceAll(part, Placeholder(name), Str(args, name)), args, defs[1..]);
      } else {
        MissesExactly(part, args, defs[1..]);
      }
    }
  }

  /** A supplied argument and an omitted one that the token does not mention: defined first, the
      omitted one is never missed; defined last, it is missed exactly if the supplied value brings
      its placeholder in. */
  lemma OmittedIsMissedExactly(t: Template, a: ArgDef, b: ArgDef, va: string)
    requires WellFormed(t) && BraceFree(a.name) && BraceFree(b.name) && a.name != b.name && Hole(b.name) !in t
    ensures var args: Arguments := map[a.name := Some(va)];
            && Resolve(Flatten(t), args, [b, a], None).Ok?
            && (Resolve(Flatten(t), args, [a, b], None) == Err(MissingArgument(b.name)) <==>
                Contains(Flatten(Put(t, a.name, va)), Placeholder(b.name)))
  {
    var args: Arguments := map[a.name := Some(va)];
    ReplaceFillsHoles(t, b.name, "");
    ReplaceFillsHoles(t, a.name, va);
    AbsentIsUnchanged(Flatten(t), a.name, va);
    assert [b, a][1..] == [a] && [a, b][1..] == [b];
    OneArg(Flatten(t), args, a);
    OneArg(Flatten(Put(t, a.name, va)), args, b);
  }

  lemma OneHole(hole: string, name: string, val: string)
    requires BraceFree(hole) && BraceFree(name)
    ensures ReplaceAll(Placeholder(hole), Placeholder(name), val) == if hole == name then val else Placeholder(hole)
    ensures Contains(Placeholder(hole), Placeholder(name)) <==> hole == name
  {
    HoleStep(hole, "", name, val);
    assert Placeholder(hole) + "" == Placeholder(hole);
  }

  lemma OneArg(part: string, args: Arguments, d: ArgDef)
    ensures ResolveArgs(part, args, [d]) ==
            if !Contains(part, Placeholder(d.name)) then Ok(part)
            else if d.name !in args then Err(MissingArgument(d.name))
            else Ok(ReplaceAll(part, Placeholder(d.name), Str(args, d.name)))
  {
    assert [d][1..] == [];
  }

  // ----- Which requests are accepted

  const DANGEROUS: set<char> := {';', '&', '|', '$', '`'}

  /** What one declared argument is rejected for. */
  function Objection(args: Arguments, d: ArgDef, matches: (string, string) -> bool): Option<Error> {
    if !Supplied(args, d.name) then
      if d.required then Some(MissingArgument(d.name)) else None
    else if exists c :: c in DANGEROUS && c in args[d.name].value then Some(DangerousCharacter(d.name))
    else if d.regex != "" && !matches(d.regex, args[d.name].value) then Some(RegexMismatch(d.name))
    else None
  }

  /** No character that a shell reads as syntax. */
  predicate Harmless(value: string) {
    forall k :: 0 <= k < |value| ==>
      value[k] != ';' && value[k] != '&' && value[k] != '|' && value[k] != '$' && value[k] != '`'
  }

  /** A request is accepted exactly if every required argument is supplied and every supplied one
      is harmless and matches its expression, if it has one. */
  lemma AcceptedExactly(args: Arguments, defs: seq<ArgDef>, matches: (string, string) -> bool)
    ensures Acceptable(args, defs, matches) <==>
            forall d :: d in defs ==>
              && (d.required ==> Supplied(args, d.name))
              && (Supplied(args, d.name) ==>
                    Harmless(args[d.name].value) && (d.regex == "" || matches(d.regex, args[d.name].value)))
  {
    forall d
      ensures Objection(args, d, matches).None? <==>
              && (d.required ==> Supplied(args, d.name))
              && (Supplied(args, d.name) ==>
                    Harmless(args[d.name].value) && (d.regex == "" || matches(d.regex, args[d.name].value)))
    {
      if Supplied(args, d.name) {
        HarmlessExactly(args[d.name].value);
      }
    }
    assert forall d :: d in defs <==> exists i :: 0 <= i < |defs| && defs[i] == d;
  }

  lemma HarmlessExactly(value: string)
    ensures Harmless(value) <==> !exists c :: c in DANGEROUS && c in value
  {
    assert DANGEROUS == {';', '&', '|', '$', '`'};
    if c :| c in DANGEROUS && c in value {
      var k :| 0 <= k < |value| && value[k] == c;
    }
    if !Harmless(value) {
      var k :| 0 <= k < |value| && value[k] in DANGEROUS;
      assert value[k] in value;
    }
  }

  predicate Acceptable(args: Arguments, defs: seq<ArgDef>, matches: (string, string) -> bool) {
    forall i :: 0 <= i < |defs| ==> Objection(args, defs[i], matches).None?
  }

  method ValidateAntiInjection(input: string) returns (safe: bool)
    ensures safe <==> forall c :: c in input ==> c !in DANGEROUS
  {
    for i := 0 to |input|
      invariant forall k :: 0 <= k < i ==> input[k] !in DANGEROUS
    {
      if input[i] in DANGEROUS {
        return false;
      }
    }
    return true;
  }

  /** The argument checks of `_prepare_execution`: the first objection in definition order. */
  method CheckArguments(args: Arguments, defs: seq<ArgDef>, matches: (string, string) -> bool)
    returns (r: Option<Error>)
    ensures r.None? <==> Acceptable(args, defs, matches)
    ensures r.Some? ==> exists i :: 0 <= i < |defs| && Objection(args, defs[i], matches) == r
                                    && Acceptable(args, defs[..i], matches)
  {
    for i := 0 to |defs|
      invariant Acceptable(args, defs[..i], matches)
    {
      var d := defs[i];
      if !Supplied(args, d.name) {
        if d.required {
          return Some(MissingArgument(d.name));
        }
      } else {
        var val := args[d.name].value;
        var safe := ValidateAntiInjection(val);
        if !safe {
          return Some(DangerousCharacter(d.name));
        }
        if d.regex != "" && !matches(d.regex, val) {
          return Some(RegexMismatch(d.name));
        }
      }
    }
    assert defs[..|defs|] == defs;
    return None;
  }

  // ----- strip_omitted_optionals

  function Omitted(args: Arguments, defs: seq<ArgDef>): set<string> {
    set d | d in defs && !d.required && !Supplied(args, d.name) :: d.name
  }

  predicate Mentions(tok: string, omitted: set<string>) {
    exists n :: n in omitted && Contains(tok, Placeholder(n))
  }

  predicate BareFlag(tok: string) {
    "-" <= tok && '{' !in tok
  }

  /** Dropped for what it mentions, or as the flag of the token after it. */
  predicate Dropped(command: seq<string>, i: nat, omitted: set<string>)
    requires i < |command|
  {
    || Mentions(command[i], omitted)
    || (i + 1 < |command| && Mentions(command[i + 1], omitted) && BareFlag(command[i]))
  }

  /** The token has the placeholder of an optional argument that was not supplied. */
  predicate AsksForOmitted(tok: string, args: Arguments, defs: seq<ArgDef>) {
    exists i :: 0 <= i < |defs| && !defs[i].required && !Supplied(args, defs[i].name)
                && Contains(tok, Placeholder(defs[i].name))
  }

  /** A token goes exactly if it asks for an omitted optional, or starts with a dash, has no
      placeholder, and the token after it does. */
  lemma DroppedExactly(command: seq<string>, k: nat, args: Arguments, defs: seq<ArgDef>)
    requires k < |command|
    ensures Dropped(command, k, Omitted(args, defs)) <==>
            || AsksForOmitted(command[k], args, defs)
            || (k + 1 < |command| && AsksForOmitted(command[k + 1], args, defs)
                && command[k] != "" && command[k][0] == '-' && '{' !in command[k])
  {
    MentionsExactly(command[k], args, defs);
    if k + 1 < |command| {
      MentionsExactly(command[k + 1], args, defs);
    }
    assert "-" <= command[k] <==> command[k] != "" && command[k][0] == '-';
  }

  lemma MentionsExactly(tok: string, args: Arguments, defs: seq<ArgDef>)
    ensures Mentions(tok, Omitted(args, defs)) <==> AsksForOmitted(tok, args, defs)
  {
    var omitted := Omitted(args, defs);
    if n :| n in omitted && Contains(tok, Placeholder(n)) {
      var d :| d in defs && !d.required && !Supplied(args, d.name) && d.name == n;
      var i :| 0 <= i < |defs| && defs[i] == d;
      assert Contains(tok, Placeholder(defs[i].name));
    }
    if i :| 0 <= i < |defs| && !defs[i].required && !Supplied(args, defs[i].name) && Contains(tok, Placeholder(defs[i].name)) {
      assert defs[i] in defs && defs[i].name in omitted;
    }
  }

  /** Dropped for what is seen before position `i`. */
  predicate DroppedWithin(command: seq<string>, i: nat, k: nat, omitted: set<string>)
    requires i <= |command|
  {
    && k < i
    && (|| Mentions(command[k], omitted)
        || (k + 1 < i && Mentions(command[k + 1], omitted) && BareFlag(command[k])))
  }

  function Survivors(command: seq<string>, omitted: set<string>): seq<string> {
    if command == [] then []
    else (if Dropped(command, 0, omitted) then [] else [command[0]]) + Survivors(command[1..], omitted)
  }

  method StripOmittedOptionals(command: seq<string>, args: Arguments, defs: seq<ArgDef>) returns (kept: seq<string>)
    ensures kept == Survivors(command, Omitted(args, defs))
  {
    var omitted := Omitted(args, defs);
    if omitted == {} {
      NothingOmitted(command);
      return command;
    }
    var drop: set<nat> := {};
    for i := 0 to |command|
      invariant DropsWithin(drop, command, i, omitted)
    {
      DropsNext(drop, command, i, omitted);
      if Mentions(command[i], omitted) {
        drop := drop + {i};
        if i > 0 && BareFlag(command[i - 1]) {
          drop := drop + {i - 1};
        }
      }
    }
    kept := [];
    for i := 0 to |command|
      invariant kept + Survivors(command[i..], omitted) == Survivors(command, omitted)
      invariant DropsWithin(drop, command, |command|, omitted)
    {
      SurvivorsStep(command, i, omitted);
      DropsExactly(drop, command, i, omitted);
      if i !in drop {
        kept := kept + [command[i]];
      }
    }
  }

  ghost predicate DropsWithin(drop: set<nat>, command: seq<string>, i: nat, omitted: set<string>)
    requires i <= |command|
  {
    forall k: nat :: k in drop <==> DroppedWithin(command, i, k, omitted)
  }

  lemma DropsNext(drop: set<nat>, command: seq<string>, i: nat, omitted: set<string>)
    requires i < |command| && DropsWithin(drop, command, i, omitted)
    ensures DropsWithin(drop + (if !Mentions(command[i], omitted) then {}
                                else if i > 0 && BareFlag(command[i - 1]) then {i, i - 1} else {i}),
                        command, i + 1, omitted)
  {
  }

  lemma DropsExactly(drop: set<nat>, command: seq<string>, i: nat, omitted: set<string>)
    requires i < |command| && DropsWithin(drop, command, |command|, omitted)
    ensures i in drop <==> Dropped(command, i, omitted)
  {
  }

  lemma SurvivorsStep(command: seq<string>, i: nat, omitted: set<string>)
    requires i < |command|
    ensures Survivors(command[i..], omitted)
         == (if Dropped(command, i, omitted) then [] else [command[i]]) + Survivors(command[i + 1..], omitted)
  {
    var rest := command[i..];
    assert rest[1..] == command[i + 1..] && rest[0] == command[i];
    assert |rest| > 1 ==> rest[1] == command[i + 1];
  }

  lemma {:induction false} NothingOmitted(command: seq<string>)
    ensures Survivors(command, {}) == command
  {
    if command != [] {
      NothingOmitted(command[1..]);
    }
  }

  /** What is kept is an ordered subsequence: exactly the positions that are not dropped. */
  lemma {:induction false} SurvivorsAreTheUndropped(command: seq<string>, omitted: set<string>, from: nat)
    returns (at: seq<nat>)
    requires from <= |command|
    ensures |at| == |Survivors(command[from..], omitted)|
    ensures forall j :: 0 <= j < |at| ==> from <= at[j] < |command|
    ensures forall j :: 0 <= j < |at| ==> Survivors(command[from..], omitted)[j] == command[at[j]]
    ensures forall j, k :: 0 <= j < k < |at| ==> at[j] < at[k]
    ensures forall i: nat :: from <= i < |command| ==> (i in at <==> !Dropped(command, i, omitted))
    decreases |command| - from
  {
    if from == |command| {
      at := [];
    } else {
      SurvivorsStep(command, from, omitted);
      at := SurvivorsAreTheUndropped(command, omitted, from + 1);
      if !Dropped(command, from, omitted) {
        at := [from] + at;
      }
    }
  }

  /** No kept token mentions an omitted optional. */
  lemma {:induction false} SurvivorsMentionNothing(command: seq<string>, omitted: set<string>)
    ensures forall tok :: tok in Survivors(command, omitted) ==> !Mentions(tok, omitted)
  {
    if command != [] {
      SurvivorsMentionNothing(command[1..], omitted);
    }
  }

  /** A flag and the omitted optional after it disappear together, and nothing else does. */
  lemma {:induction false} FlagAndValueVanish(pre: seq<string>, flag: string, tok: string, post: seq<string>, omitted: set<string>)
    requires BareFlag(flag) && Mentions(tok, omitted)
    ensures Survivors(pre + [flag, tok] + post, omitted) == Survivors(pre, omitted) + Survivors(post, omitted)
  {
    var all := pre + [flag, tok] + post;
    BareFlagMentionsNothing(flag, omitted);
    BareFlagMentionsNothing(tok, omitted);
    SurvivorsStep(all, 0, omitted);
    assert all[0..] == all;
    if pre == [] {
      SurvivorsStep(all, 1, omitted);
      assert all[1 + 1..] == post && all[1] == tok;
    } else {
      assert all[1..] == pre[1..] + [flag, tok] + post;
      FlagAndValueVanish(pre[1..], flag, tok, post, omitted);
      SurvivorsStep(pre, 0, omitted);
      assert pre[0..] == pre;
      assert Dropped(all, 0, omitted) == Dropped(pre, 0, omitted);
    }
  }

  lemma {:induction false} NoBraceNoPlaceholder(s: string, name: string)
    requires '{' !in s
    ensures !Contains(s, Placeholder(name))
  {
    assert Placeholder(name)[0] == '{';
    if s != "" {
      NoBraceNoPlaceholder(s[1..], name);
    }
  }

  lemma BareFlagMentionsNothing(tok: string, omitted: set<string>)
    ensures BareFlag(tok) ==> !Mentions(tok, omitted)
  {
    forall n | n in omitted && '{' !in tok
      ensures !Contains(tok, Placeholder(n))
    {
      NoBraceNoPlaceholder(tok, n);
    }
  }

  // ----- build

  function ResolveAll(parts: seq<string>, args: Arguments, defs: seq<ArgDef>, runId: Option<string>)
    : Result<seq<string>, Error>
  {
    if parts == [] then Ok([])
    else
      match Resolve(parts[0], args, defs, runId)
      case Err(e) => Err(e)
      case Ok(p) =>
        match ResolveAll(parts[1..], args, defs, runId)
        case Err(e) => Err(e)
        case Ok(ps) => Ok([p] + ps)
  }

  /** Per step, strip and then resolve every remaining token. */
  function Build(pipeline: seq<seq<string>>, args: Arguments, defs: seq<ArgDef>, runId: Option<string>)
    : Result<seq<seq<string>>, Error>
  {
    if pipeline == [] then Ok([])
    else
      match ResolveAll(Survivors(pipeline[0], Omitted(args, defs)), args, defs, runId)
      case Err(e) => Err(e)
      case Ok(step) =>
        match Build(pipeline[1..], args, defs, runId)
        case Err(e) => Err(e)
        case Ok(steps) => Ok([step] + steps)
  }

  function FlattenAll(ts: seq<Template>): (r: seq<string>)
    ensures |r| == |ts| && forall i :: 0 <= i < |ts| ==> r[i] == Flatten(ts[i])
  {
    seq(|ts|, i requires 0 <= i < |ts| => Flatten(ts[i]))
  }

  function FlattenPipeline(p: seq<seq<Template>>): (r: seq<seq<string>>)
    ensures |r| == |p| && forall i :: 0 <= i < |p| ==> r[i] == FlattenAll(p[i])
  {
    seq(|p|, i requires 0 <= i < |p| => FlattenAll(p[i]))
  }

  predicate HasOmittedHole(t: Template, omitted: set<string>) {
    exists i :: 0 <= i < |t| && t[i].Hole? && t[i].name in omitted
  }

  predicate FlagTemplate(t: Template) {
    "-" <= Flatten(t) && forall i :: 0 <= i < |t| ==> t[i].Lit?
  }

  /** The surviving templates, told by their holes rather than by their text. */
  function KeptTemplates(ts: seq<Template>, omitted: set<string>): seq<Template> {
    if ts == [] then []
    else if HasOmittedHole(ts[0], omitted) || (|ts| > 1 && HasOmittedHole(ts[1], omitted) && FlagTemplate(ts[0]))
    then KeptTemplates(ts[1..], omitted)
    else [ts[0]] + KeptTemplates(ts[1..], omitted)
  }

  /** What the author of the pipeline means by it. */
  function FillAll(ts: seq<Template>, args: Arguments, names: set<string>, runId: Option<string>): seq<string> {
    if ts == [] then [] else [Flatten(Fill(ts[0], args, names, runId))] + FillAll(ts[1..], args, names, runId)
  }

  function Meaning(p: seq<seq<Template>>, args: Arguments, defs: seq<ArgDef>, runId: Option<string>): seq<seq<string>> {
    if p == [] then []
    else [FillAll(KeptTemplates(p[0], Omitted(args, defs)), args, Names(defs), runId)]
         + Meaning(p[1..], args, defs, runId)
  }

  lemma MentionsIsHole(t: Template, omitted: set<string>)
    requires WellFormed(t) && forall n :: n in omitted ==> BraceFree(n)
    ensures Mentions(Flatten(t), omitted) <==> HasOmittedHole(t, omitted)
  {
    forall n | n in omitted
      ensures Contains(Flatten(t), Placeholder(n)) <==> Hole(n) in t
    {
      ReplaceFillsHoles(t, n, "");
    }
    if HasOmittedHole(t, omitted) {
      var i :| 0 <= i < |t| && t[i].Hole? && t[i].name in omitted;
      assert t[i] == Hole(t[i].name);
    }
  }

  lemma {:induction false} BraceIsHole(t: Template)
    requires WellFormed(t)
    ensures '{' in Flatten(t) <==> exists i :: 0 <= i < |t| && t[i].Hole?
  {
    if t != [] {
      BraceIsHole(t[1..]);
      assert forall i :: 0 < i < |t| ==> t[i] == t[1..][i - 1];
      if t[0].Hole? {
        assert Written(t[0])[0] == '{' && Flatten(t)[0] == '{';
      }
    }
  }

  lemma HeadIsDroppedByHoles(ts: seq<Template>, omitted: set<string>)
    requires ts != [] && forall t :: t in ts ==> WellFormed(t)
    requires forall n :: n in omitted ==> BraceFree(n)
    ensures Dropped(FlattenAll(ts), 0, omitted) <==>
            HasOmittedHole(ts[0], omitted) || (|ts| > 1 && HasOmittedHole(ts[1], omitted) && FlagTemplate(ts[0]))
  {
    MentionsIsHole(ts[0], omitted);
    BraceIsHole(ts[0]);
    if |ts| > 1 {
      MentionsIsHole(ts[1], omitted);
    }
  }

  lemma FlattenAllOfCons(t: Template, ts: seq<Template>)
    ensures FlattenAll([t] + ts) == [Flatten(t)] + FlattenAll(ts)
  {
  }

  lemma {:induction false} StrippingIsByHoles(ts: seq<Template>, omitted: set<string>)
    requires forall t :: t in ts ==> WellFormed(t)
    requires forall n :: n in omitted ==> BraceFree(n)
    ensures Survivors(FlattenAll(ts), omitted) == FlattenAll(KeptTemplates(ts, omitted))
  {
    if ts != [] {
      StrippingIsByHoles(ts[1..], omitted);
      HeadIsDroppedByHoles(ts, omitted);
      SurvivorsStep(FlattenAll(ts), 0, omitted);
      assert FlattenAll(ts)[0..] == FlattenAll(ts) && FlattenAll(ts)[1..] == FlattenAll(ts[1..]);
      FlattenAllOfCons(ts[0], KeptTemplates(ts[1..], omitted));
    }
  }

  /** Whatever is kept of an accepted request has all its declared holes supplied. */
  lemma {:induction false} KeptAreFillable(ts: seq<Template>, args: Arguments, defs: seq<ArgDef>, matches: (string, string) -> bool)
    requires Acceptable(args, defs, matches)
    ensures forall t :: t in KeptTemplates(ts, Omitted(args, defs)) ==> t in ts && Unfilled(t, args, Names(defs)) == {}
  {
    if ts != [] {
      KeptAreFillable(ts[1..], args, defs, matches);
      var omitted := Omitted(args, defs);
      if !HasOmittedHole(ts[0], omitted) {
        forall seg | seg in ts[0] && seg.Hole? && seg.name in Names(defs)
          ensures seg.name in args
        {
          var d :| d in defs && d.name == seg.name;
          var i :| 0 <= i < |defs| && defs[i] == d;
          assert Objection(args, defs[i], matches).None?;
          assert seg.name !in omitted;
        }
      }
    }
  }

  lemma {:induction false} ResolveAllFills(ts: seq<Template>, args: Arguments, defs: seq<ArgDef>, runId: Option<string>)
    requires PlainNames(defs)
    requires forall t :: t in ts ==>
               PlainHoles(t) && QuietToken(t, args, defs, runId) && Unfilled(t, args, Names(defs)) == {}
    ensures ResolveAll(FlattenAll(ts), args, defs, runId) == Ok(FillAll(ts, args, Names(defs), runId))
  {
    if ts != [] {
      SequentialIsSimultaneous(ts[0], args, defs, runId);
      ResolveAllFills(ts[1..], args, defs, runId);
      assert FlattenAll(ts)[1..] == FlattenAll(ts[1..]);
    }
  }

  /** The kept tokens stay free of placeholders once they are filled. */
  predicate QuietStep(ts: seq<Template>, args: Arguments, defs: seq<ArgDef>, runId: Option<string>) {
    forall t :: t in KeptTemplates(ts, Omitted(args, defs)) ==> QuietToken(t, args, defs, runId)
  }

  /** An accepted request whose values bring in no placeholder is built without ever missing an
      argument, into what its template means, for every run id and every regex engine. */
  lemma {:induction false} BuildIsMeaning(p: seq<seq<Template>>, args: Arguments, defs: seq<ArgDef>,
                                          runId: Option<string>, matches: (string, string) -> bool)
    requires Acceptable(args, defs, matches) && PlainNames(defs)
    requires forall ts :: ts in p ==> QuietStep(ts, args, defs, runId)
    requires forall ts, t :: ts in p && t in ts ==> WellFormed(t)
    ensures Build(FlattenPipeline(p), args, defs, runId) == Ok(Meaning(p, args, defs, runId))
  {
    if p != [] {
      BuildIsMeaning(p[1..], args, defs, runId, matches);
      assert FlattenPipeline(p)[1..] == FlattenPipeline(p[1..]);
      var ts, omitted := p[0], Omitted(args, defs);
      assert ts in p;
      StrippingIsByHoles(ts, omitted);
      KeptAreFillable(ts, args, defs, matches);
      ResolveAllFills(KeptTemplates(ts, omitted), args, defs, runId);
    }
  }

  /** The definitions' order is irrelevant to what is built. */
  lemma OrderIsIrrelevant(p: seq<seq<Template>>, args: Arguments, defs: seq<ArgDef>, defs': seq<ArgDef>,
                          runId: Option<string>, matches: (string, string) -> bool)
    requires multiset(defs) == multiset(defs') && Acceptable(args, defs, matches) && PlainNames(defs)
    requires forall ts :: ts in p ==> QuietStep(ts, args, defs, runId)
    requires forall ts, t :: ts in p && t in ts ==> WellFormed(t)
    ensures Acceptable(args, defs', matches)
    ensures Build(FlattenPipeline(p), args, defs', runId) == Build(FlattenPipeline(p), args, defs, runId)
  {
    assert forall d :: d in defs <==> d in multiset(defs);
    assert forall d :: d in defs' <==> d in multiset(defs');
    assert Names(defs) == Names(defs') && Omitted(args, defs) == Omitted(args, defs');
    forall i | 0 <= i < |defs'|
      ensures Objection(args, defs'[i], matches).None?
    {
      assert defs'[i] in defs;
    }
    BuildIsMeaning(p, args, defs, runId, matches);
    BuildIsMeaning(p, args, defs', runId, matches);
    MeaningBySets(p, args, defs, defs', runId);
  }

  lemma {:induction false} MeaningBySets(p: seq<seq<Template>>, args: Arguments, defs: seq<ArgDef>, defs': seq<ArgDef>,
                                         runId: Option<string>)
    requires Names(defs) == Names(defs') && Omitted(args, defs) == Omitted(args, defs')
    ensures Meaning(p, args, defs, runId) == Meaning(p, args, defs', runId)
  {
    if p != [] {
      MeaningBySets(p[1..], args, defs, defs', runId);
    }
  }

  predicate StepMisses(tokens: seq<string>, args: Arguments, defs: seq<ArgDef>) {
    exists k :: 0 <= k < |tokens| && Misses(tokens[k], args, defs)
  }

  lemma {:induction false} ResolveAllMissesExactly(tokens: seq<string>, args: Arguments, defs: seq<ArgDef>, runId: Option<string>)
    ensures ResolveAll(tokens, args, defs, runId).Err? <==> StepMisses(tokens, args, defs)
  {
    if tokens != [] {
      MissesExactly(tokens[0], args, defs);
      ResolveAllMissesExactly(tokens[1..], args, defs, runId);
      if k :| 0 <= k < |tokens| && Misses(tokens[k], args, defs) {
        assert k > 0 ==> tokens[1..][k - 1] == tokens[k];
      }
      if k :| 0 <= k < |tokens[1..]| && Misses(tokens[1..][k], args, defs) {
        assert tokens[k + 1] == tokens[1..][k];
      }
    }
  }

  /** For any pipeline, arguments and definitions whatever: the build fails exactly if some token
      that is left after the stripping misses an argument. */
  lemma {:induction false} BuildMissesExactly(pipeline: seq<seq<string>>, args: Arguments, defs: seq<ArgDef>, runId: Option<string>)
    ensures Build(pipeline, args, defs, runId).Err? <==>
            exists j :: 0 <= j < |pipeline| && StepMisses(Survivors(pipeline[j], Omitted(args, defs)), args, defs)
  {
    if pipeline != [] {
      ResolveAllMissesExactly(Survivors(pipeline[0], Omitted(args, defs)), args, defs, runId);
      BuildMissesExactly(pipeline[1..], args, defs, runId);
      if j :| 0 <= j < |pipeline| && StepMisses(Survivors(pipeline[j], Omitted(args, defs)), args, defs) {
        assert j > 0 ==> pipeline[1..][j - 1] == pipeline[j];
      }
      if j :| 0 <= j < |pipeline[1..]| && StepMisses(Survivors(pipeline[1..][j], Omitted(args, defs)), args, defs) {
        assert pipeline[j + 1] == pipeline[1..][j];
      }
    }
  }

  /** For templates: exactly if a kept one does. With an accepted request, all its own holes are
      supplied, so what is missed came in with a value. */
  lemma TemplatesMissExactly(p: seq<seq<Template>>, args: Arguments, defs: seq<ArgDef>,
                             runId: Option<string>, matches: (string, string) -> bool)
    requires Acceptable(args, defs, matches) && PlainNames(defs)
    requires forall ts, t :: ts in p && t in ts ==> WellFormed(t)
    ensures Build(FlattenPipeline(p), args, defs, runId).Err? <==>
            exists j :: 0 <= j < |p| && StepMisses(FlattenAll(KeptTemplates(p[j], Omitted(args, defs))), args, defs)
    ensures forall ts, t :: ts in p && t in KeptTemplates(ts, Omitted(args, defs)) ==> Unfilled(t, args, Names(defs)) == {}
  {
    var omitted := Omitted(args, defs);
    BuildMissesExactly(FlattenPipeline(p), args, defs, runId);
    forall j | 0 <= j < |p|
      ensures Survivors(FlattenPipeline(p)[j], omitted) == FlattenAll(KeptTemplates(p[j], omitted))
    {
      assert p[j] in p;
      StrippingIsByHoles(p[j], omitted);
    }
    forall ts | ts in p
      ensures forall t :: t in KeptTemplates(ts, omitted) ==> Unfilled(t, args, Names(defs)) == {}
    {
      KeptAreFillable(ts, args, defs, matches);
    }
  }

  /** Acceptance alone is not enough: a value may bring in the placeholder of an omitted optional
      after the stripping, and the build then looks up an argument that is not there. */
  lemma AcceptedButUnbuildable()
    ensures var defs := [ArgDef("a", true, ""), ArgDef("b", false, "")];
            var args: Arguments := map["a" := Some("{b}")];
            && Acceptable(args, defs, (regex, value) => true)
            && Build([["{a}"]], args, defs, None) == Err(MissingArgument("b"))
  {
    var defs := [ArgDef("a", true, ""), ArgDef("b", false, "")];
    var args: Arguments := map["a" := Some("{b}")];
    var part := "{a}";
    assert part == Placeholder("a") && "{b}" == Placeholder("b");
    AcceptsBraces(args, defs);
    BringsInItsOwnHole(args, defs);
    KeptAlone(part, {"b"});
    FailsInFirstStep([part], [], args, defs);
    assert [["{a}"]] == [[part]] + [];
  }

  lemma AcceptsBraces(args: Arguments, defs: seq<ArgDef>)
    requires args == map["a" := Some(Placeholder("b"))]
    requires defs == [ArgDef("a", true, ""), ArgDef("b", false, "")]
    ensures Acceptable(args, defs, (regex, value) => true)
    ensures Omitted(args, defs) == {"b"}
  {
    assert defs[1] in defs;
  }

  lemma KeptAlone(part: string, omitted: set<string>)
    requires part == Placeholder("a") && omitted == {"b"}
    ensures Survivors([part], omitted) == [part]
  {
    OneHole("a", "b", "");
    assert [part][1..] == [];
  }

  lemma FailsInFirstStep(step: seq<string>, rest: seq<seq<string>>, args: Arguments, defs: seq<ArgDef>)
    requires step != [] && Survivors(step, Omitted(args, defs)) == step && Resolve(step[0], args, defs, None).Err?
    ensures Build([step] + rest, args, defs, None) == Err(Resolve(step[0], args, defs, None).error)
  {
    var p := [step] + rest;
    assert p[0] == step;
    assert ResolveAll(step, args, defs, None) == Err(Resolve(step[0], args, defs, None).error);
  }

  lemma BringsInItsOwnHole(args: Arguments, defs: seq<ArgDef>)
    requires args == map["a" := Some(Placeholder("b"))]
    requires defs == [ArgDef("a", true, ""), ArgDef("b", false, "")]
    ensures Resolve(Placeholder("a"), args, defs, None) == Err(MissingArgument("b"))
  {
    OneHole("a", "a", Placeholder("b"));
    OneArg(Placeholder("b"), args, defs[1]);
    assert defs[1..] == [defs[1]];
  }
}
