/**
 * The Bauer audit-log aggregator: it folds the JSON audit files of a
 * directory into one CI summary (tagged violations, total duration, number
 * of files scanned, counts by severity, pass/fail) and picks the exit status
 * by the `--fail-on` threshold.
 *
 * The directory listing is a sequence of files in glob order, each with its
 * already-parsed content or a parse failure.
 */
module BauerAudit {
  import opened Text

  /** One violation record; `sourceFile` is the tag the aggregator writes, `details` its other keys. */
  datatype Violation = Violation(severity: Option<string>, sourceFile: Option<string>, details: map<string, string>)

  /** The parsed content of one audit file; absent keys are `None`. */
  datatype AuditData = AuditData(violations: Option<seq<Violation>>, durationMs: Option<int>)

  /** An audit file in the directory; `parsed` is `None` when opening or reading it raised an `OSError`, or its JSON did not decode. */
  datatype AuditFile = AuditFile(name: string, parsed: Option<AuditData>)

  datatype Status = Pass | Fail

  /** The summary record (without its timestamp, guardian, ministry and text fields). */
  datatype Summary = Summary(
    status: Status,
    durationMs: int,
    filesScanned: nat,
    violations: seq<Violation>,
    criticalCount: nat,
    warningCount: nat)

  /** The `--fail-on` choices. */
  datatype FailOn = OnCritical | OnWarning | OnNone

  const SummaryFileName := "ci-summary.json"
  const Critical := "critical"
  const Warning := "warning"

  /** A file is scanned when it is not the summary itself and it parsed. */
  predicate Scanned(f: AuditFile) {
    f.name != SummaryFileName && f.parsed.Some?
  }

  /** `v["source_file"] = name` */
  function Tag(v: Violation, name: string): Violation {
    v.(sourceFile := Some(name))
  }

  /** The violations one file contributes, each tagged with the file's name. */
  function TaggedViolations(f: AuditFile): (vs: seq<Violation>)
    ensures !Scanned(f) || f.parsed.value.violations.None? ==> vs == []
    ensures Scanned(f) && f.parsed.value.violations.Some? ==> |vs| == |f.parsed.value.violations.value|
    ensures Scanned(f) && f.parsed.value.violations.Some? ==> forall k :: 0 <= k < |vs| ==>
      vs[k].severity == f.parsed.value.violations.value[k].severity &&
      vs[k].details == f.parsed.value.violations.value[k].details
    ensures forall k :: 0 <= k < |vs| ==> vs[k].sourceFile == Some(f.name)
  {
    if Scanned(f) && f.parsed.value.violations.Some? then
      var raw := f.parsed.value.violations.value;
      seq(|raw|, k requires 0 <= k < |raw| => Tag(raw[k], f.name))
    else []
  }

  /** The names of the files that were scanned. */
  function ScannedNames(files: seq<AuditFile>): set<string> {
    set f | f in files && Scanned(f) :: f.name
  }

  /**
   * The violations list: the tagged violations of the files, concatenated in
   * iteration order; each names a scanned file, never the summary file.
   */
  function CollectedViolations(files: seq<AuditFile>): (vs: seq<Violation>)
    ensures forall k :: 0 <= k < |vs| ==>
      vs[k].sourceFile.Some? && vs[k].sourceFile.value in ScannedNames(files) && vs[k].sourceFile.value != SummaryFileName
    decreases |files|
  {
    if files == [] then []
    else
      var front := files[..|files| - 1];
      var last := files[|files| - 1];
      assert ScannedNames(files) == ScannedNames(front) + ScannedNames([last]) by {
        assert files == front + [last];
      }
      CollectedViolations(front) + TaggedViolations(last)
  }

  /** The `duration_ms` one file contributes. */
  function DurationOf(f: AuditFile): int {
    if Scanned(f) then f.parsed.value.durationMs.GetOr(0) else 0
  }

  /** The sum of the files' `duration_ms` values. */
  function TotalDuration(files: seq<AuditFile>): int
    decreases |files|
  {
    if files == [] then 0 else TotalDuration(files[..|files| - 1]) + DurationOf(files[|files| - 1])
  }

  /** The number of files that were scanned. */
  function ScannedCount(files: seq<AuditFile>): (n: nat)
    ensures n <= |files|
    decreases |files|
  {
    if files == [] then 0
    else ScannedCount(files[..|files| - 1]) + (if Scanned(files[|files| - 1]) then 1 else 0)
  }

  /** No file is counted exactly when none was scanned, and all are counted exactly when all were. */
  lemma {:induction false} ScannedCountExtremes(files: seq<AuditFile>)
    ensures ScannedCount(files) == 0 <==> forall i :: 0 <= i < |files| ==> !Scanned(files[i])
    ensures ScannedCount(files) == |files| <==> forall i :: 0 <= i < |files| ==> Scanned(files[i])
    decreases |files|
  {
    if files != [] {
      var front := files[..|files| - 1];
      assert forall i :: 0 <= i < |front| ==> front[i] == files[i];
      ScannedCountExtremes(front);
    }
  }

  /** The number of violations whose severity is exactly `severity`. */
  function CountSeverity(vs: seq<Violation>, severity: string): (n: nat)
    ensures n <= |vs|
  {
    if vs == [] then 0
    else (if vs[0].severity == Some(severity) then 1 else 0) + CountSeverity(vs[1..], severity)
  }

  /** `status`: fail exactly when there is a critical violation. */
  function StatusOf(criticalCount: nat): (s: Status)
    ensures s == Fail <==> criticalCount > 0
  {
    if criticalCount > 0 then Fail else Pass
  }

  /** The summary `parse_audit_logs` returns for a directory's files. */
  function SummaryOf(files: seq<AuditFile>): (s: Summary)
    ensures s.status == Fail <==> s.criticalCount > 0
    ensures s.criticalCount + s.warningCount <= |s.violations|
    ensures s.filesScanned <= |files|
  {
    var vs := CollectedViolations(files);
    var critical := CountSeverity(vs, Critical);
    var warning := CountSeverity(vs, Warning);
    SeverityCountsBounded(vs);
    Summary(StatusOf(critical), TotalDuration(files), ScannedCount(files), vs, critical, warning)
  }

  /** Critical and warning violations are disjoint, so together they are at most all violations. */
  lemma {:induction false} SeverityCountsBounded(vs: seq<Violation>)
    ensures CountSeverity(vs, Critical) + CountSeverity(vs, Warning) <= |vs|
  {
    if vs != [] {
      SeverityCountsBounded(vs[1..]);
    }
  }

  /** The summary written when the input directory does not exist. */
  const MissingDirectorySummary := Summary(Pass, 0, 0, [], 0, 0)

  /** Severity counts add up over concatenated violation lists. */
  lemma {:induction false} CountSeverityAppend(a: seq<Violation>, b: seq<Violation>, severity: string)
    ensures CountSeverity(a + b, severity) == CountSeverity(a, severity) + CountSeverity(b, severity)
  {
    if a == [] {
      assert a + b == b;
    } else {
      assert (a + b)[0] == a[0] && (a + b)[1..] == a[1..] + b;
      CountSeverityAppend(a[1..], b, severity);
    }
  }

  /** A severity count is positive exactly when some violation has exactly that severity. */
  lemma {:induction false} CountSeverityPositive(vs: seq<Violation>, severity: string)
    ensures CountSeverity(vs, severity) > 0 <==> exists k :: 0 <= k < |vs| && vs[k].severity == Some(severity)
  {
    if vs != [] {
      CountSeverityPositive(vs[1..], severity);
      if exists k :: 0 <= k < |vs| && vs[k].severity == Some(severity) {
        var k :| 0 <= k < |vs| && vs[k].severity == Some(severity);
        if k > 0 {
          assert vs[1..][k - 1].severity == Some(severity);
        }
      }
      if exists k :: 0 <= k < |vs[1..]| && vs[1..][k].severity == Some(severity) {
        var k :| 0 <= k < |vs[1..]| && vs[1..][k].severity == Some(severity);
        assert vs[k + 1].severity == Some(severity);
      }
    }
  }

  /** An audit file that was scanned and lists a violation of exactly this severity. */
  predicate HasSeverity(f: AuditFile, severity: string) {
    Scanned(f) && f.parsed.value.violations.Some? &&
    exists k :: 0 <= k < |f.parsed.value.violations.value| && f.parsed.value.violations.value[k].severity == Some(severity)
  }

  /** A file's tagged violations include the severity exactly when the file lists it. */
  lemma TaggedSeverity(f: AuditFile, severity: string)
    ensures CountSeverity(TaggedViolations(f), severity) > 0 <==> HasSeverity(f, severity)
  {
    var vs := TaggedViolations(f);
    CountSeverityPositive(vs, severity);
    if HasSeverity(f, severity) {
      var raw := f.parsed.value.violations.value;
      var k :| 0 <= k < |raw| && raw[k].severity == Some(severity);
      assert vs[k].severity == Some(severity);
    }
  }

  /**
   * The summary counts a severity exactly when some scanned file lists a
   * violation of that severity.
   */
  lemma {:induction false} SeverityCountedIff(files: seq<AuditFile>, severity: string)
    ensures CountSeverity(CollectedViolations(files), severity) > 0 <==>
      exists i :: 0 <= i < |files| && HasSeverity(files[i], severity)
    decreases |files|
  {
    if files != [] {
      var n := |files| - 1;
      var front, last := files[..n], files[n];
      assert CollectedViolations(files) == CollectedViolations(front) + TaggedViolations(last);
      CountSeverityAppend(CollectedViolations(front), TaggedViolations(last), severity);
      TaggedSeverity(last, severity);
      SeverityCountedIff(front, severity);
      if exists i :: 0 <= i < |files| && HasSeverity(files[i], severity) {
        var i :| 0 <= i < |files| && HasSeverity(files[i], severity);
        if i < n {
          assert HasSeverity(front[i], severity);
        }
      }
      if exists i :: 0 <= i < |front| && HasSeverity(front[i], severity) {
        var i :| 0 <= i < |front| && HasSeverity(front[i], severity);
        assert HasSeverity(files[i], severity);
      }
    }
  }

  /** The summary fails exactly when some scanned audit file lists a critical violation. */
  lemma StatusFailIffCriticalListed(files: seq<AuditFile>)
    ensures SummaryOf(files).status == Fail <==> exists i :: 0 <= i < |files| && HasSeverity(files[i], Critical)
  {
    SeverityCountedIff(files, Critical);
  }

  /** Under `--fail-on warning` the run fails exactly when some scanned audit file lists a warning. */
  lemma WarningModeFailsIffWarningListed(files: seq<AuditFile>)
    ensures ExitCode(OnWarning, SummaryOf(files).criticalCount, SummaryOf(files).warningCount) == 1 <==>
      exists i :: 0 <= i < |files| && HasSeverity(files[i], Warning)
  {
    SeverityCountedIff(files, Warning);
  }

  /** An empty directory summarises to the same all-zero pass summary as a missing one. */
  lemma EmptyDirectorySummary()
    ensures SummaryOf([]) == MissingDirectorySummary
  {
  }

  /**
   * One more audit file extends the summary by exactly its own contribution:
   * its tagged violations appended, its `duration_ms` added, one more file
   * scanned when it was scanned, and its violations counted by severity.
   */
  lemma SummaryStep(files: seq<AuditFile>, f: AuditFile)
    ensures SummaryOf(files + [f]).violations == SummaryOf(files).violations + TaggedViolations(f)
    ensures SummaryOf(files + [f]).durationMs ==
      SummaryOf(files).durationMs + (if Scanned(f) then f.parsed.value.durationMs.GetOr(0) else 0)
    ensures SummaryOf(files + [f]).filesScanned == SummaryOf(files).filesScanned + (if Scanned(f) then 1 else 0)
    ensures SummaryOf(files + [f]).criticalCount ==
      SummaryOf(files).criticalCount + CountSeverity(TaggedViolations(f), Critical)
    ensures SummaryOf(files + [f]).warningCount ==
      SummaryOf(files).warningCount + CountSeverity(TaggedViolations(f), Warning)
  {
    var all := files + [f];
    assert all[..|all| - 1] == files && all[|all| - 1] == f;
    CountSeverityAppend(CollectedViolations(files), TaggedViolations(f), Critical);
    CountSeverityAppend(CollectedViolations(files), TaggedViolations(f), Warning);
  }

  /** `parse_audit_logs`: the accumulation loop over the directory's files. */
  method ParseAuditLogs(files: seq<AuditFile>) returns (s: Summary)
    ensures s == SummaryOf(files)
  {
    var violations: seq<Violation> := [];
    var durationTotal := 0;
    var filesScanned := 0;
    for i := 0 to |files|
      invariant violations == CollectedViolations(files[..i])
      invariant durationTotal == TotalDuration(files[..i])
      invariant filesScanned == ScannedCount(files[..i])
    {
      assert files[..i + 1][..i] == files[..i];
      var f := files[i];
      if f.name == SummaryFileName {
        continue;
      }
      if f.parsed.None? {
        // A decode or read error: reported, nothing counted.
        continue;
      }
      var data := f.parsed.value;
      if data.violations.Some? {
        var raw := data.violations.value;
        ghost var start := violations;
        for j := 0 to |raw|
          invariant violations == start + TaggedViolations(f)[..j]
        {
          assert TaggedViolations(f)[..j + 1] == TaggedViolations(f)[..j] + [Tag(raw[j], f.name)];
          violations := violations + [raw[j].(sourceFile := Some(f.name))];
        }
        assert TaggedViolations(f)[..|raw|] == TaggedViolations(f);
      }
      if data.durationMs.Some? {
        durationTotal := durationTotal + data.durationMs.value;
      }
      filesScanned := filesScanned + 1;
    }
    assert files[..|files|] == files;
    var critical := CountSeverity(violations, Critical);
    var warning := CountSeverity(violations, Warning);
    s := Summary(if critical > 0 then Fail else Pass, durationTotal, filesScanned, violations, critical, warning);
  }

  /** The `--fail-on` exit rule. */
  function ExitCode(failOn: FailOn, criticalCount: nat, warningCount: nat): (code: int)
    ensures code == 1 <==> (failOn == OnCritical && criticalCount > 0) || (failOn == OnWarning && warningCount > 0)
    ensures code == 0 || code == 1
  {
    if failOn == OnCritical && criticalCount > 0 then 1
    else if failOn == OnWarning && warningCount > 0 then 1
    else 0
  }

  /** Under `--fail-on warning` critical violations alone do not fail, and `--fail-on none` never fails. */
  lemma ExitModes(criticalCount: nat, warningCount: nat)
    ensures ExitCode(OnWarning, criticalCount, 0) == 0
    ensures ExitCode(OnNone, criticalCount, warningCount) == 0
    ensures ExitCode(OnCritical, criticalCount, warningCount) == 1 <==> criticalCount > 0
  {
  }

  /** The script's `__main__`: summarise (or report a missing directory) and choose the exit status. */
  method RunAudit(directoryExists: bool, files: seq<AuditFile>, failOn: FailOn) returns (summary: Summary, code: int)
    ensures !directoryExists ==> summary == MissingDirectorySummary
    ensures directoryExists ==> summary == SummaryOf(files)
    ensures code == ExitCode(failOn, summary.criticalCount, summary.warningCount)
  {
    if !directoryExists {
      summary := MissingDirectorySummary;
    } else {
      summary := ParseAuditLogs(files);
    }
    if failOn == OnCritical && summary.criticalCount > 0 {
      code := 1;
    } else if failOn == OnWarning && summary.warningCount > 0 {
      code := 1;
    } else {
      code := 0;
    }
  }

  /** A missing directory passes under every threshold. */
  lemma MissingDirectoryPasses(failOn: FailOn)
    ensures MissingDirectorySummary.status == Pass
    ensures ExitCode(failOn, MissingDirectorySummary.criticalCount, MissingDirectorySummary.warningCount) == 0
  {
  }

  lemma {:induction false} CollectedAppend(a: seq<AuditFile>, b: seq<AuditFile>)
    ensures CollectedViolations(a + b) == CollectedViolations(a) + CollectedViolations(b)
    decreases |b|
  {
    if b == [] {
      assert a + b == a;
    } else {
      var n := |b| - 1;
      assert (a + b)[..|a + b| - 1] == a + b[..n];
      assert (a + b)[|a + b| - 1] == b[n];
      CollectedAppend(a, b[..n]);
      calc {
        CollectedViolations(a + b);
        CollectedViolations(a + b[..n]) + TaggedViolations(b[n]);
        CollectedViolations(a) + CollectedViolations(b[..n]) + TaggedViolations(b[n]);
        CollectedViolations(a) + CollectedViolations(b);
      }
    }
  }

  lemma {:induction false} DurationAppend(a: seq<AuditFile>, b: seq<AuditFile>)
    ensures TotalDuration(a + b) == TotalDuration(a) + TotalDuration(b)
    decreases |b|
  {
    if b == [] {
      assert a + b == a;
    } else {
      var n := |b| - 1;
      assert (a + b)[..|a + b| - 1] == a + b[..n];
      assert (a + b)[|a + b| - 1] == b[n];
      DurationAppend(a, b[..n]);
    }
  }

  lemma {:induction false} ScannedAppend(a: seq<AuditFile>, b: seq<AuditFile>)
    ensures ScannedCount(a + b) == ScannedCount(a) + ScannedCount(b)
    decreases |b|
  {
    if b == [] {
      assert a + b == a;
    } else {
      var n := |b| - 1;
      assert (a + b)[..|a + b| - 1] == a + b[..n];
      assert (a + b)[|a + b| - 1] == b[n];
      ScannedAppend(a, b[..n]);
    }
  }

  /**
   * A file that is skipped (the summary itself, or one that failed to parse)
   * contributes no violations, no duration and no count, wherever it occurs.
   */
  lemma SkippedFileContributesNothing(before: seq<AuditFile>, f: AuditFile, after: seq<AuditFile>)
    requires !Scanned(f)
    ensures SummaryOf(before + [f] + after) == SummaryOf(before + after)
  {
    var with, without := before + [f] + after, before + after;
    assert [f][..0] == [];
    assert CollectedViolations(with) == CollectedViolations(without) by {
      CollectedAppend(before + [f], after);
      CollectedAppend(before, [f]);
      CollectedAppend(before, after);
    }
    assert TotalDuration(with) == TotalDuration(without) by {
      DurationAppend(before + [f], after);
      DurationAppend(before, [f]);
      DurationAppend(before, after);
    }
    assert ScannedCount(with) == ScannedCount(without) by {
      ScannedAppend(before + [f], after);
      ScannedAppend(before, [f]);
      ScannedAppend(before, after);
    }
  }

  /** The summary file named `ci-summary.json` is never counted. */
  lemma SummaryFileSkipped(before: seq<AuditFile>, parsed: Option<AuditData>, after: seq<AuditFile>)
    ensures SummaryOf(before + [AuditFile(SummaryFileName, parsed)] + after) == SummaryOf(before + after)
  {
    SkippedFileContributesNothing(before, AuditFile(SummaryFileName, parsed), after);
  }
}
