/** Strict X.Y.Z versions: parsing and order, the shell script's own comparison, and the version
    check before a run. */
module SemVer {
  import opened Wrappers
  import opened Decimal
  import opened Text

  datatype Version = Version(major: nat, minor: nat, patch: nat)

  /** Clause 11 of Semantic Versioning 2.0.0, for versions without pre-release. */
  predicate Ge(v: Version, w: Version) {
    || v.major > w.major
    || (v.major == w.major && (v.minor > w.minor || (v.minor == w.minor && v.patch >= w.patch)))
  }

  function PrintVersion(v: Version): string {
    Print(v.major) + "." + Print(v.minor) + "." + Print(v.patch)
  }

  // ----- app/core/version.py

  /** `$` also matches just before one final newline. */
  function Body(s: string): string {
    if EndsWith(s, "\n") then s[..|s| - 1] else s
  }

  function ParseSemver(s: string): Option<Version> {
    var parts := Split(Body(s), '.');
    if |parts| == 3 && Canonical(parts[0]) && Canonical(parts[1]) && Canonical(parts[2])
    then Some(Version(Value(parts[0]), Value(parts[1]), Value(parts[2])))
    else None
  }

  lemma SplitInThree(x: string, y: string, z: string)
    requires '.' !in x && '.' !in y && '.' !in z
    ensures Split(x + "." + y + "." + z, '.') == [x, y, z]
  {
    assert x + "." + y + "." + z == x + ['.'] + (y + ['.'] + z);
    SplitAtSeparator(x, '.', y + ['.'] + z);
    SplitAtSeparator(y, '.', z);
    SplitWithoutSeparator(x, '.');
    SplitWithoutSeparator(y, '.');
    SplitWithoutSeparator(z, '.');
  }

  lemma JoinOfThree(parts: seq<string>)
    requires |parts| == 3
    ensures Join(parts, '.') == parts[0] + "." + parts[1] + "." + parts[2]
  {
    assert parts[1..][0] == parts[1] && parts[1..][1..][0] == parts[2];
    assert Join(parts[1..], '.') == parts[1] + ['.'] + parts[2];
  }

  lemma PrintedParses(v: Version)
    ensures ParseSemver(PrintVersion(v)) == Some(v)
    ensures ParseSemver(PrintVersion(v) + "\n") == Some(v)
  {
    var x, y, z := Print(v.major), Print(v.minor), Print(v.patch);
    ValueOfPrint(v.major);
    ValueOfPrint(v.minor);
    ValueOfPrint(v.patch);
    SplitInThree(x, y, z);
    PrintedHasNoNewline(v);
  }

  lemma PrintedHasNoNewline(v: Version)
    ensures Body(PrintVersion(v)) == PrintVersion(v) == Body(PrintVersion(v) + "\n")
  {
    var s, z := PrintVersion(v), Print(v.patch);
    assert s[|s| - 1] == z[|z| - 1];
  }

  lemma ParsedIsPrinted(s: string)
    requires ParseSemver(s).Some?
    ensures Body(s) == PrintVersion(ParseSemver(s).value)
  {
    var parts := Split(Body(s), '.');
    JoinOfSplit(Body(s), '.');
    JoinOfThree(parts);
    PrintOfValue(parts[0]);
    PrintOfValue(parts[1]);
    PrintOfValue(parts[2]);
  }

  /** The parser accepts a version's one printed form, with or without a final newline, and
      nothing else. */
  lemma ParsesExactly(s: string, v: Version)
    ensures ParseSemver(s) == Some(v) <==> s == PrintVersion(v) || s == PrintVersion(v) + "\n"
  {
    PrintedParses(v);
    if ParseSemver(s) == Some(v) {
      ParsedIsPrinted(s);
      assert s == Body(s) || s == Body(s) + "\n";
    }
  }

  /** Two accepted strings denote one version exactly if they differ at most by a final newline. */
  lemma ParseIsInjective(s: string, t: string)
    requires ParseSemver(s).Some? && ParseSemver(t).Some?
    ensures ParseSemver(s) == ParseSemver(t) <==> Body(s) == Body(t)
  {
    ParsesExactly(s, ParseSemver(s).value);
    ParsesExactly(t, ParseSemver(s).value);
    PrintedHasNoNewline(ParseSemver(s).value);
  }

  datatype BadVersion = BadVersion

  function VersionGe(a: string, b: string): Result<bool, BadVersion> {
    var v, w := ParseSemver(a), ParseSemver(b);
    if v.None? || w.None? then Err(BadVersion) else Ok(Ge(v.value, w.value))
  }

  function VersionMax(a: string, b: string): Result<string, BadVersion> {
    match VersionGe(a, b)
    case Err(e) => Err(e)
    case Ok(ge) => Ok(if ge then a else b)
  }

  /** Order of the arguments matters exactly if they are the same version written differently. */
  lemma MaxCommutesExactly(a: string, b: string)
    requires ParseSemver(a).Some? && ParseSemver(b).Some?
    ensures VersionMax(a, b) == VersionMax(b, a) <==> (Body(a) == Body(b) ==> a == b)
  {
    ParseIsInjective(a, b);
  }

  lemma MaxIsAssociative(a: string, b: string, c: string)
    requires ParseSemver(a).Some? && ParseSemver(b).Some? && ParseSemver(c).Some?
    ensures VersionMax(a, a) == Ok(a)
    ensures VersionMax(a, VersionMax(b, c).value) == VersionMax(VersionMax(a, b).value, c)
  {
  }

  // ----- ansible/run-ansible.sh

  const TWO_TO_THE_63: nat := 0x8000_0000_0000_0000

  /** Shell arithmetic keeps the low 64 bits, as a signed number. */
  function Wrap(n: nat): int {
    var low := n % (2 * TWO_TO_THE_63);
    if low < TWO_TO_THE_63 then low else low - 2 * TWO_TO_THE_63
  }

  predicate ShellVersion(s: string) {
    var parts := Split(s, '.');
    && |parts| == 3
    && forall i :: 0 <= i < 3 ==> parts[i] != "" && AllDigits(parts[i])
  }

  function Segment(s: string, i: nat): int
    requires ShellVersion(s) && i < 3
  {
    Wrap(Value(Split(s, '.')[i]))
  }

  /** The first differing segment decides. */
  predicate GeFrom(a: string, b: string, i: nat)
    requires ShellVersion(a) && ShellVersion(b) && i <= 3
    decreases 3 - i
  {
    i == 3 || Segment(a, i) > Segment(b, i) || (Segment(a, i) == Segment(b, i) && GeFrom(a, b, i + 1))
  }

  /** The script's `version_ge`; `Err` is its exit with status 4. */
  method ScriptVersionGe(a: string, b: string) returns (r: Result<bool, BadVersion>)
    ensures r == if ShellVersion(a) && ShellVersion(b) then Ok(GeFrom(a, b, 0)) else Err(BadVersion)
  {
    if !ShellVersion(a) || !ShellVersion(b) {
      return Err(BadVersion);
    }
    var A, B := Split(a, '.'), Split(b, '.');
    for i := 0 to 3
      invariant GeFrom(a, b, 0) == GeFrom(a, b, i)
    {
      if Wrap(Value(A[i])) > Wrap(Value(B[i])) {
        return Ok(true);
      }
      if Wrap(Value(A[i])) < Wrap(Value(B[i])) {
        return Ok(false);
      }
    }
    return Ok(true);
  }

  predicate Below(v: Version, bound: nat) {
    v.major < bound && v.minor < bound && v.patch < bound
  }

  lemma ShellReadsPrinted(v: Version)
    ensures var s := PrintVersion(v);
            && ShellVersion(s)
            && Segment(s, 0) == Wrap(v.major) && Segment(s, 1) == Wrap(v.minor) && Segment(s, 2) == Wrap(v.patch)
  {
    ValueOfPrint(v.major);
    ValueOfPrint(v.minor);
    ValueOfPrint(v.patch);
    SplitInThree(Print(v.major), Print(v.minor), Print(v.patch));
  }

  lemma ScriptOrder(v: Version, w: Version)
    ensures var a, b := PrintVersion(v), PrintVersion(w);
            && ShellVersion(a) && ShellVersion(b)
            && (GeFrom(a, b, 0) <==>
                || Wrap(v.major) > Wrap(w.major)
                || (Wrap(v.major) == Wrap(w.major)
                    && (|| Wrap(v.minor) > Wrap(w.minor)
                        || (Wrap(v.minor) == Wrap(w.minor) && Wrap(v.patch) >= Wrap(w.patch)))))
  {
    var a, b := PrintVersion(v), PrintVersion(w);
    ShellReadsPrinted(v);
    ShellReadsPrinted(w);
    assert GeFrom(a, b, 2) == (Segment(a, 2) > Segment(b, 2) || (Segment(a, 2) == Segment(b, 2) && GeFrom(a, b, 3)));
    assert GeFrom(a, b, 1) == (Segment(a, 1) > Segment(b, 1) || (Segment(a, 1) == Segment(b, 1) && GeFrom(a, b, 2)));
  }

  lemma WrapSmall(n: nat)
    ensures n < TWO_TO_THE_63 ==> Wrap(n) == n
  {
  }

  predicate AgreeOn(a: string, b: string) {
    ShellVersion(a) && ShellVersion(b) && VersionGe(a, b) == Ok(GeFrom(a, b, 0))
  }

  predicate BothAccept(s: string) {
    ParseSemver(s).Some? && ShellVersion(s)
  }

  lemma SegmentsEnd(s: string)
    requires ShellVersion(s)
    ensures Body(s) == s && !EndsWith(s, "\n")
  {
    var parts := Split(s, '.');
    JoinOfSplit(s, '.');
    JoinOfThree(parts);
    assert s[|s| - 1] == parts[2][|parts[2]| - 1];
  }

  predicate NoLeadingZeros(parts: seq<string>) {
    forall i :: 0 <= i < |parts| ==> Canonical(parts[i])
  }

  lemma ThreeCanonical(parts: seq<string>)
    requires |parts| == 3
    ensures NoLeadingZeros(parts) <==> Canonical(parts[0]) && Canonical(parts[1]) && Canonical(parts[2])
  {
  }

  /** A string that Python accepts is refused by the shell exactly if it ends in a newline; one
      that the shell accepts is refused by Python exactly if a segment has a leading zero. */
  lemma AcceptanceDiffersExactly(s: string)
    ensures ParseSemver(s).Some? ==> (ShellVersion(s) <==> !EndsWith(s, "\n"))
    ensures ShellVersion(s) ==>
              (ParseSemver(s).Some? <==> NoLeadingZeros(Split(s, '.')))
  {
    if ParseSemver(s).Some? {
      ParsesExactly(s, ParseSemver(s).value);
      ShellReadsPrinted(ParseSemver(s).value);
      assert EndsWith(PrintVersion(ParseSemver(s).value) + "\n", "\n");
    }
    if ShellVersion(s) {
      SegmentsEnd(s);
      ThreeCanonical(Split(s, '.'));
    }
  }

  /** What both accept is what `PrintVersion` writes. */
  lemma BothAcceptPrinted(s: string)
    requires BothAccept(s)
    ensures s == PrintVersion(ParseSemver(s).value)
  {
    ParsedIsPrinted(s);
    SegmentsEnd(s);
  }

  lemma SmallVersionsAgree(v: Version, w: Version)
    requires Below(v, TWO_TO_THE_63) && Below(w, TWO_TO_THE_63)
    ensures AgreeOn(PrintVersion(v), PrintVersion(w))
  {
    PrintedParses(v);
    PrintedParses(w);
    ScriptOrder(v, w);
    WrapSmall(v.major);
    WrapSmall(v.minor);
    WrapSmall(v.patch);
    WrapSmall(w.major);
    WrapSmall(w.minor);
    WrapSmall(w.patch);
  }

  lemma WrappedOrderDisagrees(v: Version, w: Version)
    requires v.major > w.major && Wrap(v.major) < Wrap(w.major)
    ensures !AgreeOn(PrintVersion(v), PrintVersion(w))
  {
    PrintedParses(v);
    PrintedParses(w);
    ScriptOrder(v, w);
  }

  /** Version 2^63.0.0 is newer than 0.0.0, but negative to the shell. */
  lemma LargeVersionDisagrees() returns (v: Version, w: Version)
    ensures v == Version(TWO_TO_THE_63, 0, 0) && w == Version(0, 0, 0)
    ensures !AgreeOn(PrintVersion(v), PrintVersion(w))
  {
    v, w := Version(TWO_TO_THE_63, 0, 0), Version(0, 0, 0);
    WrappedOrderDisagrees(v, w);
  }

  /** A string both accept, all segments below the bound. */
  predicate SmallForBoth(s: string, bound: nat) {
    BothAccept(s) && Below(ParseSemver(s).value, bound)
  }

  lemma PrintedIsSmallForBoth(v: Version, bound: nat)
    requires Below(v, bound)
    ensures SmallForBoth(PrintVersion(v), bound)
  {
    PrintedParses(v);
    ShellReadsPrinted(v);
  }

  /** On all strings that both accept with segments below a bound, the two implementations agree
      exactly if the bound is at most 2^63. */
  lemma ImplementationsAgreeExactly(bound: nat)
    ensures (forall a, b :: SmallForBoth(a, bound) && SmallForBoth(b, bound) ==> AgreeOn(a, b)) <==> bound <= TWO_TO_THE_63
  {
    if bound <= TWO_TO_THE_63 {
      forall a, b | SmallForBoth(a, bound) && SmallForBoth(b, bound)
        ensures AgreeOn(a, b)
      {
        BothAcceptPrinted(a);
        BothAcceptPrinted(b);
        SmallVersionsAgree(ParseSemver(a).value, ParseSemver(b).value);
      }
    } else {
      var v, w := LargeVersionDisagrees();
      PrintedIsSmallForBoth(v, bound);
      PrintedIsSmallForBoth(w, bound);
    }
  }

  // ----- The check before a run

  datatype Rejection = BadRequirement | VersionNotRead | NoVersionFound | BadData | TooOld

  /** `found` is the last version-shaped token of the script's output, if there is one. */
  method PrecheckScriptVersion(checks: bool, floor: string, apiMin: Option<string>, exitStatus: int, found: Option<string>)
    returns (r: Result<(), Rejection>)
    ensures r.Ok? <==>
            !checks || (&& exitStatus == 0 && found.Some?
                        && VersionGe(found.value, floor) == Ok(true)
                        && (apiMin.Some? && apiMin.value != "" ==> VersionGe(found.value, apiMin.value) == Ok(true)))
    ensures r == Err(BadRequirement) <==>
            checks && apiMin.Some? && apiMin.value != "" && VersionGe(floor, apiMin.value).Err?
    ensures r == Err(VersionNotRead) ==> exitStatus != 0
    ensures r == Err(NoVersionFound) ==> exitStatus == 0 && found.None?
    ensures r == Err(BadData) ==>
            found.Some? && (ParseSemver(found.value).None? || (ParseSemver(floor).None? && !(apiMin.Some? && apiMin.value != "")))
    ensures r == Err(TooOld) ==>
            found.Some? && (|| VersionGe(found.value, floor) == Ok(false)
                            || (apiMin.Some? && VersionGe(found.value, apiMin.value) == Ok(false)))
  {
    if !checks {
      return Ok(());
    }
    var effectiveMin := floor;
    if apiMin.Some? && apiMin.value != "" {
      var max := VersionMax(effectiveMin, apiMin.value);
      if max.Err? {
        return Err(BadRequirement);
      }
      effectiveMin := max.value;
    }
    if exitStatus != 0 {
      return Err(VersionNotRead);
    }
    if found.None? {
      return Err(NoVersionFound);
    }
    var ok := VersionGe(found.value, effectiveMin);
    if ok.Err? {
      return Err(BadData);
    }
    if !ok.value {
      return Err(TooOld);
    }
    return Ok(());
  }
}
