/** The exit-code sidecar: the EXIT trap of run-ansible.sh that writes it, and the
    service code that finds and reads it. */
module ExitMarker {
  import opened Wrappers
  import opened Decimal
  import opened Text

  // ----- The service's side

  /** `_compute_log_path`. */
  function LogPath(dir: string, id: string): string {
    dir + "/" + id + ".log"
  }

  /** `_exit_marker_path`. */
  function ExitMarkerPath(logPath: string): string {
    if EndsWith(logPath, ".log") then logPath[..|logPath| - |".log"|] + ".exit" else logPath + ".exit"
  }

  /** `int(...)` on a stripped string of an optional sign and ASCII digits. */
  function ParseInt(s: string): Option<int> {
    if s != "" && AllDigits(s) then
      Some(Value(s))
    else if |s| > 1 && (s[0] == '-' || s[0] == '+') && AllDigits(s[1..]) then
      var magnitude: int := Value(s[1..]);
      Some(if s[0] == '-' then -magnitude else magnitude)
    else
      None
  }

  /** How v may be spelled: its digits behind any number of zeros and an optional sign. */
  ghost predicate Spells(s: string, v: int) {
    || (v >= 0 && Denotes(s, v))
    || (s != "" && s[0] == '+' && v >= 0 && Denotes(s[1..], v))
    || (s != "" && s[0] == '-' && v <= 0 && Denotes(s[1..], -v))
  }

  /** Exactly the spelled integers are read, each as the one it spells. */
  lemma ParsesExactly(s: string, v: int)
    ensures ParseInt(s) == Some(v) <==> Spells(s, v)
  {
    if v >= 0 {
      DenotesExactly(s, v);
      if s != "" {
        DenotesExactly(s[1..], v);
      }
    }
    if v <= 0 && s != "" {
      DenotesExactly(s[1..], -v);
    }
  }

  /** `_read_run_exit_marker` once connected: `cat` fails on a missing file. */
  function ReadMarker(file: Option<string>): Option<int> {
    match file
    case None => None
    case Some(text) => ParseInt(Strip(text))
  }

  // ----- The script's side

  /** What `printf '%s\n' "$code"` writes. */
  function MarkerText(code: nat): string {
    Print(code) + "\n"
  }

  datatype Mode = Normal | Debug | DryRun

  /** Writing the temporary file works, cannot even begin, or breaks off: after n characters, or,
      if that is all of them, at the rename. */
  datatype Disk = Works | Refuses | Breaks(n: nat)

  class RunScript {
    const logDir: string
    const runId: string
    const logFile: string
    const mode: Mode
    var markerWritten: bool
    var files: map<string, string>

    /** `resolve_log_file` for an accepted run id. */
    constructor (logDir: string, runId: string, mode: Mode, files: map<string, string>)
      ensures !markerWritten && this.files == files
      ensures this.logDir == logDir && this.runId == runId && this.mode == mode
      ensures logFile == LogPath(logDir, if runId == "" then "run" else runId)
    {
      this.logDir, this.runId, this.mode := logDir, runId, mode;
      this.logFile := if runId != "" then LogPath(logDir, runId) else LogPath(logDir, "run");
      this.markerWritten := false;
      this.files := files;
    }

    function ExitFile(): string {
      logDir + "/" + runId + ".exit"
    }

    /** Does this exit leave a marker? A failed run always does, whatever its mode. */
    predicate Marks(code: nat)
      reads this`markerWritten
    {
      !markerWritten && logFile != "" && (mode.Normal? || code != 0)
    }

    /** The EXIT trap. The sidecar is complete or as it was, whatever the disk does, and once it is
        complete the path a poll derives from the log path leads to this very exit code. */
    method Cleanup(code: nat, disk: Disk)
      modifies this`markerWritten, this`files
      ensures markerWritten <==> old(markerWritten) || (logFile != "" && (code != 0 || mode.Normal?))
      ensures old(markerWritten) || (code == 0 && !mode.Normal?) ==> files == old(files)
      ensures !old(markerWritten) && (code != 0 || mode.Normal?) && disk.Works?
              && runId != "" && logFile == LogPath(logDir, runId) ==>
                ExitMarkerPath(logFile) in files && ReadMarker(Some(files[ExitMarkerPath(logFile)])) == Some(code)
      ensures old(Marks(code)) && logFile != ExitFile() && logFile != ExitFile() + ".tmp" ==>
                logFile in files
                && files[logFile] == (if logFile in old(files) then old(files)[logFile] else "")
                                     + "=== EXIT " + Print(code) + " ===\n"
      ensures !old(Marks(code)) ==> files == old(files)
      ensures old(Marks(code)) && runId != "" && disk.Works? ==>
                ExitFile() in files && files[ExitFile()] == MarkerText(code) && ExitFile() + ".tmp" !in files
      ensures old(Marks(code)) && runId != "" && disk.Breaks? && logFile != ExitFile() + ".tmp" ==>
                ExitFile() + ".tmp" in files && files[ExitFile() + ".tmp"] <= MarkerText(code)
      ensures old(Marks(code)) && !disk.Works? && logFile != ExitFile() ==>
                (ExitFile() in files <==> ExitFile() in old(files))
                && (ExitFile() in files ==> files[ExitFile()] == old(files)[ExitFile()])
      ensures old(Marks(code)) && (runId == "" || disk.Refuses?) ==>
                forall f :: f != logFile ==> (f in files <==> f in old(files)) && (f in files ==> files[f] == old(files)[f])
      ensures forall f :: f != logFile && f != ExitFile() && f != ExitFile() + ".tmp" ==>
                (f in files <==> f in old(files)) && (f in files ==> files[f] == old(files)[f])
    {
      if !markerWritten && logFile != "" && (mode.Normal? || code != 0) {
        markerWritten := true;
        var before := if logFile in files then files[logFile] else "";
        files := files[logFile := before + "=== EXIT " + Print(code) + " ===\n"];
        if runId != "" && !disk.Refuses? {
          var exitFile := ExitFile();
          var text := MarkerText(code);
          files := files[exitFile + ".tmp" := if disk.Breaks? && disk.n < |text| then text[..disk.n] else text];
          if disk.Works? {
            var moved := files[exitFile + ".tmp"];
            files := files - {exitFile + ".tmp"};
            files := files[exitFile := moved];
            SamePath(logDir, runId);
            MarkerRoundTrip(code);
          }
        }
      }
    }
  }

  // ----- The two sides agree

  /** The path a poll derives from the recorded log path is the sidecar the script renames into place. */
  lemma SamePath(dir: string, id: string)
    ensures ExitMarkerPath(LogPath(dir, id)) == dir + "/" + id + ".exit"
  {
    var p := LogPath(dir, id);
    assert p[|p| - |".log"|..] == ".log";
    assert p[..|p| - |".log"|] == dir + "/" + id;
  }

  lemma DigitsStripped(s: string)
    requires s != "" && AllDigits(s)
    ensures Strip(s + "\n") == s
  {
    var t := s + "\n";
    assert LStrip(t) == t;
    assert t[..|t| - 1] == s;
    assert RStrip(s) == s;
  }

  /** Reading the finished sidecar gives back exactly the exit code. */
  lemma MarkerRoundTrip(code: nat)
    ensures ReadMarker(Some(MarkerText(code))) == Some(code)
  {
    ValueOfPrint(code);
    DigitsStripped(Print(code));
  }
}
