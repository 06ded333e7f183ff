/** The few Python string operations the services rely on. */
module Text {

  /** `str.isspace()` for one character. */
  predicate IsSpace(c: char) {
    || '\t' <= c <= '\r'
    || '\U{1c}' <= c <= ' '
    || c == '\U{85}' || c == '\U{a0}' || c == '\U{1680}'
    || '\U{2000}' <= c <= '\U{200a}'
    || c == '\U{2028}' || c == '\U{2029}' || c == '\U{202f}' || c == '\U{205f}' || c == '\U{3000}'
  }

  /** `not s.strip()`. */
  predicate Blank(s: string) {
    forall i :: 0 <= i < |s| ==> IsSpace(s[i])
  }

  function LStrip(s: string): string {
    if s != "" && IsSpace(s[0]) then LStrip(s[1..]) else s
  }

  function RStrip(s: string): string {
    if s != "" && IsSpace(s[|s| - 1]) then RStrip(s[..|s| - 1]) else s
  }

  function Strip(s: string): string {
    RStrip(LStrip(s))
  }

  lemma {:induction false} LStripExactly(s: string) returns (left: string)
    ensures s == left + LStrip(s) && Blank(left)
    ensures LStrip(s) != "" ==> !IsSpace(LStrip(s)[0])
  {
    left := "";
    if s != "" && IsSpace(s[0]) {
      left := LStripExactly(s[1..]);
      left := [s[0]] + left;
    }
  }

  lemma {:induction false} RStripExactly(s: string) returns (right: string)
    ensures s == RStrip(s) + right && Blank(right)
    ensures RStrip(s) != "" ==> !IsSpace(RStrip(s)[|RStrip(s)| - 1])
  {
    right := "";
    if s != "" && IsSpace(s[|s| - 1]) {
      right := RStripExactly(s[..|s| - 1]);
      right := right + [s[|s| - 1]];
    }
  }

  /** Stripping takes off exactly the spaces at both ends. */
  lemma StripExactly(s: string) returns (left: string, right: string)
    ensures s == left + Strip(s) + right && Blank(left) && Blank(right)
    ensures Strip(s) != "" ==> !IsSpace(Strip(s)[0]) && !IsSpace(Strip(s)[|Strip(s)| - 1])
    ensures Blank(s) <==> Strip(s) == ""
  {
    left := LStripExactly(s);
    right := RStripExactly(LStrip(s));
    assert Strip(s) != "" ==> Strip(s)[0] == LStrip(s)[0] && s[|left|] == Strip(s)[0];
    assert Strip(s) == "" ==> s == left + right;
  }

  /** `s.endswith(suffix)`. */
  predicate EndsWith(s: string, suffix: string) {
    |suffix| <= |s| && s[|s| - |suffix|..] == suffix
  }

  /** `s.split(c)` for a one-character separator. */
  function Split(s: string, c: char): (parts: seq<string>)
    ensures |parts| >= 1
  {
    if s == "" then [""]
    else
      var rest := Split(s[1..], c);
      if s[0] == c then [""] + rest else [[s[0]] + rest[0]] + rest[1..]
  }

  lemma {:induction false} SplitAtSeparator(a: string, c: char, b: string)
    ensures Split(a + [c] + b, c) == Split(a, c) + Split(b, c)
  {
    if a == "" {
      assert ("" + [c] + b)[1..] == b;
    } else {
      assert (a + [c] + b)[1..] == a[1..] + [c] + b;
      SplitAtSeparator(a[1..], c, b);
    }
  }

  function Join(parts: seq<string>, c: char): string
    requires parts != []
  {
    if |parts| == 1 then parts[0] else parts[0] + [c] + Join(parts[1..], c)
  }

  lemma JoinPrepends(x: string, parts: seq<string>, c: char)
    requires parts != []
    ensures Join([x + parts[0]] + parts[1..], c) == x + Join(parts, c)
    ensures Join([x] + parts, c) == x + [c] + Join(parts, c)
  {
    assert ([x + parts[0]] + parts[1..])[1..] == parts[1..] && ([x] + parts)[1..] == parts;
    if |parts| > 1 {
      assert (x + parts[0]) + [c] + Join(parts[1..], c) == x + (parts[0] + [c] + Join(parts[1..], c));
    }
  }

  /** Splitting loses nothing. */
  lemma {:induction false} JoinOfSplit(s: string, c: char)
    ensures Join(Split(s, c), c) == s
  {
    if s != "" {
      JoinOfSplit(s[1..], c);
      JoinPrepends(if s[0] == c then "" else [s[0]], Split(s[1..], c), c);
      assert s == [s[0]] + s[1..];
    }
  }

  /** Splitting leaves no separator inside a part. */
  lemma {:induction false} PartsHaveNoSeparator(s: string, c: char)
    ensures forall i :: 0 <= i < |Split(s, c)| ==> c !in Split(s, c)[i]
  {
    if s != "" {
      PartsHaveNoSeparator(s[1..], c);
    }
  }

  lemma {:induction false} SplitWithoutSeparator(s: string, c: char)
    requires c !in s
    ensures Split(s, c) == [s]
  {
    if s != "" {
      SplitWithoutSeparator(s[1..], c);
      assert s[0] in s && s == [s[0]] + s[1..];
    }
  }

  /** Parts without a separator are what splitting their join gives. */
  lemma {:induction false} SplitOfJoin(parts: seq<string>, c: char)
    requires parts != [] && forall i :: 0 <= i < |parts| ==> c !in parts[i]
    ensures Split(Join(parts, c), c) == parts
  {
    SplitWithoutSeparator(parts[0], c);
    if |parts| > 1 {
      SplitOfJoin(parts[1..], c);
      SplitAtSeparator(parts[0], c, Join(parts[1..], c));
    }
  }

  lemma {:induction false} JoinConcat(a: seq<string>, b: seq<string>, c: char)
    requires a != [] && b != []
    ensures Join(a + b, c) == Join(a, c) + [c] + Join(b, c)
  {
    if |a| == 1 {
      assert (a + b)[1..] == b;
    } else {
      assert (a + b)[1..] == a[1..] + b;
      JoinConcat(a[1..], b, c);
    }
  }
}
