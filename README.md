# Verified model of the canon library's CI audit scripts

The repository ships small command-line audit scripts for its CI pipeline.
Each one reads some files, applies one fixed rule and exits with status 0
or 1. This project models five of those rules in Dafny and proves what each
rule promises.

- **Whitaker rogue-device reconciler** (`whitaker.dfy`, module `Whitaker`).
  It picks the device-manifest path: the first existing conventional path,
  else `DEVICE_MANIFEST`, else a default. It loads the manifest, whose
  `devices` entry is a list or a map, and builds the set of lower-cased
  MACs. Every live UniFi device whose non-empty lower-cased MAC is not in
  that set is an `Infrastructure` rogue. Live clients are looked at but
  never reported. Missing credentials skip the run with status 0. Rogues
  give status 1.
- **Playbook structure linter** (`playbook.dfy`, module `PlaybookLinter`).
  Task names are upper-cased. A name is canonical when it contains one of
  GATHER, PROCESS, APPLY, VERIFY, AUDIT, REPORT, FINALIZE. The i-th
  canonical name must contain the i-th keyword, for all seven, in every
  play.
- **Bauer audit-log aggregator** (`bauer.dfy`, module `BauerAudit`). It
  folds the JSON audit files of a directory into a summary: violations
  tagged with their file, total duration, files scanned, critical and
  warning counts, and pass/fail. The exit status follows `--fail-on`.
- **Endpoint coverage check** (`coverage.dfy`, module `EndpointCoverage`).
  A record with no endpoints passes. Otherwise the record passes when at
  least 80% of its endpoints are documented, and `coverage_pct` is
  rewritten in place.
- **Eternal version-drift check** (`eternal.dfy`, module `EternalAudit`).
  Each of six canon files must exist and contain the string `1.0.0`.
  Drift, meaning any file fails, gives status 1.

`text.dfy` (module `Text`) holds the shared helpers. These are an optional
value for a key that may be missing, ASCII `lower`/`upper`, and Python's
substring test `sub in s`.

Effects become input values:

- For Whitaker, the file system is a map from path to parsed manifest
  document. For the eternal audit, it is a map from path to raw file
  content.
- A directory listing is a sequence of files in glob order, each parsed or
  failed (Bauer).
- The coverage file is missing, unreadable, or parsed.
- The environment is a record of optional strings.
- The controller's answer is either the device and client lists or an
  error.
- `argv` is the sequence of parsed playbook files.
- Exit statuses are returned as integers.

Where the source loops and updates variables (path search, rogue loop,
client loop, play and file loops, audit accumulation, drift loop), the
model is a `method` with a loop. Each such method is proved against a
specification function, and the lemmas are stated about that function.
The coverage record, which `validate_coverage` updates in place, is a class
whose `Validate` may modify only `coveragePct`.

## Model

| member | source | states |
|---|---|---|
| `Text.Lower` | scripts/whitaker_anomaly_detector.py:53 | `lower()` keeps the length and leaves no upper-case letter; each capital becomes the lower-case letter whose capital it is, and every other character is unchanged |
| `Text.Upper` | scripts/playbook-structure-linter.py:56 | `upper()` keeps the length and leaves no lower-case letter; each lower-case letter becomes the capital whose lower case it is, and every other character is unchanged |
| `Text.LowerIgnoresCase` | scripts/whitaker_anomaly_detector.py:93-94 | lower-casing ignores case: `Lower(Upper(s)) == Lower(s)`, so MACs that differ only in case compare equal |
| `Text.UpperIgnoresCase` | scripts/playbook-structure-linter.py:56-61 | upper-casing ignores case: `Upper(Lower(s)) == Upper(s)`, so task names that differ only in case get the same verdict |
| `Text.Contains` | scripts/audit-eternal.py:31 | Python's `sub in s` on strings, defined by scanning from the left: `sub` is a prefix of `s` or is contained in `s` without its first character; `ContainsIff` proves this is "occurs at some index" |
| `Text.ContainsIff` | scripts/audit-eternal.py:31 | the scanning substring test holds exactly when the pattern occurs at some index |
| `Whitaker.LoadManifest` | scripts/whitaker_anomaly_detector.py:24-28 | a nonexistent path and an empty document both give the empty mapping; otherwise the parsed document |
| `Whitaker.NormalizeMac` | scripts/whitaker_anomaly_detector.py:93 | `(mac or "").lower()` has no upper-case letter and is non-empty exactly when `mac` is truthy |
| `Whitaker.ManifestMacs` | scripts/whitaker_anomaly_detector.py:50-60 | for the list shape and the map shape alike, the set is exactly the lower-cased non-empty `mac` fields of the records; every member is non-empty and lower-case |
| `Whitaker.ShapeIndependent` | scripts/whitaker_anomaly_detector.py:51-60 | the same records as a list or as an id-keyed map give the same MAC set |
| `Whitaker.MaclessRecordIgnored` | scripts/whitaker_anomaly_detector.py:52-54 | a record with a missing or empty `mac` adds nothing to the set |
| `Whitaker.SelectedPath` | scripts/whitaker_anomaly_detector.py:35-47 | the manifest path the search picks: the candidate at `FirstExisting` if there is one, otherwise the `DEVICE_MANIFEST` value or the default path; `SelectedPathFirstWins` and `SelectedPathFallback` state its two cases |
| `Whitaker.FirstExisting` | scripts/whitaker_anomaly_detector.py:44-47 | the index found has no existing candidate before it, and is an existing candidate unless it is past the end |
| `Whitaker.SelectedPathFirstWins` | scripts/whitaker_anomaly_detector.py:35-47 | the first existing candidate in list order is the path loaded, whatever the environment says |
| `Whitaker.SelectedPathFallback` | scripts/whitaker_anomaly_detector.py:35-47 | the environment or default path is used exactly when no candidate exists |
| `Whitaker.ChooseManifestPath` | scripts/whitaker_anomaly_detector.py:35-47 | the search loop with `break` returns the selected path: first existing candidate, else the fallback |
| `Whitaker.RoguesOf` | scripts/whitaker_anomaly_detector.py:91-97 | every rogue has a non-empty lower-case MAC not in the manifest and type `Infrastructure`; there are at most as many rogues as live devices |
| `Whitaker.RogueIndices` | scripts/whitaker_anomaly_detector.py:91-97 | the rogue list is the order-preserving filter of the live devices: the k-th rogue comes from the k-th of strictly increasing source positions, each a rogue, with no de-duplication |
| `Whitaker.RogueIndicesComplete` | scripts/whitaker_anomaly_detector.py:91-97 | every rogue position is among those positions |
| `Whitaker.IsRogue` | scripts/whitaker_anomaly_detector.py:93-94 | a live device is a rogue when its MAC, lower-cased with a missing or empty one as `""`, is non-empty and not in the manifest set; `RogueIndices`, `RogueIndicesComplete` and `FailsIffRogue` are stated in terms of it |
| `Whitaker.RoguesComplete` | scripts/whitaker_anomaly_detector.py:91-97 | every live device whose lower-cased MAC is non-empty and not in the manifest is reported |
| `Whitaker.AllKnownNoRogues` | scripts/whitaker_anomaly_detector.py:91-97 | a manifest that covers every non-empty live MAC gives no rogues; devices without a MAC need not be listed |
| `Whitaker.FindRogues` | scripts/whitaker_anomaly_detector.py:91-97 | the device loop that appends to `rogues` computes `RoguesOf` |
| `Whitaker.InspectClients` | scripts/whitaker_anomaly_detector.py:99-104 | the client loop leaves the rogue list unchanged |
| `Whitaker.ClientsIgnored` | scripts/whitaker_anomaly_detector.py:99-104 | the run's outcome does not depend on the live clients |
| `Whitaker.CaseInsensitiveMatch` | scripts/whitaker_anomaly_detector.py:93-94 | live `AA:BB:CC:DD:EE:FF` matches manifest `aa:bb:cc:dd:ee:ff` and is not a rogue |
| `Whitaker.ExitCode` | scripts/whitaker_anomaly_detector.py:106-112 | status 0 exactly for a skipped run or a run with no rogues; otherwise 1 |
| `Whitaker.MissingCredentialsSkip` | scripts/whitaker_anomaly_detector.py:62-68 | a missing or empty host, user or password skips the run with status 0, whatever the controller would answer and whatever manifest loads (a manifest the script fails to load is left out, see below) |
| `Whitaker.FailsIffRogue` | scripts/whitaker_anomaly_detector.py:91-112 | with credentials and a controller answer, the run exits 1 exactly when some live device is a rogue |
| `Whitaker.Verdict` | scripts/whitaker_anomaly_detector.py:62-112 | the outcome of `main`: skipped without a truthy host, user and password; a controller error when the controller cannot be reached; otherwise the rogues found by the device loop, or none. `MissingCredentialsSkip`, `FailsIffRogue` and `ClientsIgnored` state its properties |
| `Whitaker.DetectAnomalies` | scripts/whitaker_anomaly_detector.py:31-112 | `main` (path choice, MAC set, credential check, both loops, exit decision) yields the specified outcome and its exit status |
| `Whitaker.MockControllerScenario` | tests/integration/mock_unifi.py:21-54 | against the mock controller's fixture, with CORE-GATEWAY in the manifest, exactly ACCESS-POINT-01 (MAC lower-cased) is reported and the run exits 1 |
| `PlaybookLinter.TaskNames` | scripts/playbook-structure-linter.py:54-57 | the contract gives no lower-case letter in any name and at most one name per task; `TaskNamesSingleton` with `TaskNamesAppend` pins the value: the upper-cased names of the mapping tasks in order, `""` for a missing name |
| `PlaybookLinter.PlayPasses` | scripts/playbook-structure-linter.py:52-74 | a play passes when it has at least seven canonical task names and the i-th contains the i-th required keyword for every i < 7; `CheckPlayOrder` computes it and `FewerThanSevenFails`, `NonCanonicalTaskIrrelevant` and `TasksAfterSeventhIrrelevant` state its properties |
| `PlaybookLinter.PlaybookPasses` | scripts/playbook-structure-linter.py:42-75 | a file passes when it parsed to a list and every play passes; `LintPlaybook` computes it and `EdgeCases` and `FailingPlayFailsFile` state its cases |
| `PlaybookLinter.CanonicalNames` | scripts/playbook-structure-linter.py:60-62 | every kept name contains a required keyword, and no more names are kept than given |
| `PlaybookLinter.CanonicalAppend` | scripts/playbook-structure-linter.py:60-62 | the canonical filter is order-preserving: it distributes over concatenation |
| `PlaybookLinter.TaskNamesAppend` | scripts/playbook-structure-linter.py:55-57 | name extraction distributes over concatenated task lists |
| `PlaybookLinter.TaskNamesSingleton` | scripts/playbook-structure-linter.py:55-57 | one mapping task gives its upper-cased name, or `""` when it has no `name`; one entry that is not a mapping gives nothing (with `TaskNamesAppend` this pins every name list) |
| `PlaybookLinter.LowerCaseNameCanonical` | scripts/playbook-structure-linter.py:55-62 | a task named `gather facts` becomes `GATHER FACTS`, which is canonical |
| `PlaybookLinter.CheckPlayOrder` | scripts/playbook-structure-linter.py:64-74 | the per-keyword loop leaves `all_valid` true exactly when it was true, the play has at least 7 canonical names, and name i contains keyword i for each i < 7 |
| `PlaybookLinter.LintPlaybook` | scripts/playbook-structure-linter.py:38-75 | a parse error or a non-list document fails; otherwise the result is the conjunction of the play verdicts |
| `PlaybookLinter.LintFiles` | scripts/playbook-structure-linter.py:83-98 | no arguments exit 1; otherwise every file is linted, and the exit status is 0 exactly when all pass |
| `PlaybookLinter.NonCanonicalTaskFound` | scripts/playbook-structure-linter.py:55-62 | a non-mapping task or a task whose name has no keyword leaves the canonical names unchanged wherever it is inserted |
| `PlaybookLinter.NonCanonicalTaskIrrelevant` | scripts/playbook-structure-linter.py:60-74 | inserting a non-canonical task anywhere never changes a play's verdict |
| `PlaybookLinter.TasksAfterSeventhIrrelevant` | scripts/playbook-structure-linter.py:64-74 | once seven canonical tasks are present, tasks appended after them never change the verdict |
| `PlaybookLinter.FewerThanSevenFails` | scripts/playbook-structure-linter.py:65-68 | a play with fewer than 7 canonical tasks fails |
| `PlaybookLinter.EdgeCases` | scripts/playbook-structure-linter.py:42-57 | a play without `tasks` fails; an empty list of plays passes; a parse error or non-list document fails |
| `PlaybookLinter.FailingPlayFailsFile` | scripts/playbook-structure-linter.py:52-75 | one failing play fails the whole file |
| `PlaybookLinter.KeywordPlayPasses` | scripts/playbook-structure-linter.py:23-74 | a play whose tasks are the seven keywords in order passes |
| `PlaybookLinter.SwappedPlayFails` | scripts/playbook-structure-linter.py:64-74 | swapping GATHER and PROCESS makes the play fail |
| `BauerAudit.Scanned` | scripts/bauer_parse_audit.py:22-40 | a file contributes to the summary when it is not `ci-summary.json` and it was read and decoded; it is then counted in `files_scanned`. `SummaryStep`, `HasSeverity` and `SkippedFileContributesNothing` are stated in terms of it |
| `BauerAudit.TaggedViolations` | scripts/bauer_parse_audit.py:31-34 | a skipped file, an unparsed file or a file without `violations` contributes nothing; otherwise entry k is the file's k-th violation with the same severity and other keys, and `source_file` set to the file's name |
| `BauerAudit.CollectedViolations` | scripts/bauer_parse_audit.py:21-34 | every collected violation is tagged with the name of a scanned file, never `ci-summary.json` |
| `BauerAudit.ScannedCount` | scripts/bauer_parse_audit.py:21-40 | `files_scanned` never exceeds the number of files |
| `BauerAudit.CountSeverity` | scripts/bauer_parse_audit.py:45-46 | a severity count is at most the number of violations |
| `BauerAudit.SeverityCountsBounded` | scripts/bauer_parse_audit.py:45-46 | critical plus warning counts are at most the number of violations |
| `BauerAudit.CountSeverityAppend` | scripts/bauer_parse_audit.py:45-46 | severity counts add up over concatenated violation lists |
| `BauerAudit.CountSeverityPositive` | scripts/bauer_parse_audit.py:45-46 | a severity count is positive exactly when some violation has exactly that severity |
| `BauerAudit.ScannedCountExtremes` | scripts/bauer_parse_audit.py:21-40 | `files_scanned` is 0 exactly when no file was scanned, and equals the number of files exactly when all were |
| `BauerAudit.TaggedSeverity` | scripts/bauer_parse_audit.py:31-34 | tagging keeps severities: a file's tagged violations include a severity exactly when the file lists it |
| `BauerAudit.SeverityCountedIff` | scripts/bauer_parse_audit.py:21-46 | the summary counts a severity exactly when some scanned file lists a violation of that severity |
| `BauerAudit.StatusFailIffCriticalListed` | scripts/bauer_parse_audit.py:21-47 | the summary fails exactly when some scanned audit file lists a `critical` violation |
| `BauerAudit.WarningModeFailsIffWarningListed` | scripts/bauer_parse_audit.py:21-46 | under `--fail-on warning` the exit status is 1 exactly when some scanned audit file lists a `warning` violation |
| `BauerAudit.EmptyDirectorySummary` | scripts/bauer_parse_audit.py:17-19 | an empty directory gives the all-zero pass summary, with no violations |
| `BauerAudit.SummaryStep` | scripts/bauer_parse_audit.py:21-46 | one more file extends the summary by exactly its own contribution: its tagged violations appended, its `duration_ms` (0 when absent) added, one more file scanned when it was scanned, its violations added to the severity counts |
| `BauerAudit.StatusOf` | scripts/bauer_parse_audit.py:47 | status is `fail` exactly when there is a critical violation |
| `BauerAudit.TotalDuration` | scripts/bauer_parse_audit.py:36-38 | `duration_total`: the sum, in file order, of the `duration_ms` of the scanned files, where an absent key adds 0; `SummaryStep` and `EmptyDirectorySummary` state its step and base |
| `BauerAudit.SummaryOf` | scripts/bauer_parse_audit.py:44-60 | the summary's status is `fail` exactly when its critical count is positive; its counts are bounded by its violations and its files |
| `BauerAudit.ParseAuditLogs` | scripts/bauer_parse_audit.py:15-60 | the accumulation loop (skip the summary file, skip parse failures, tag and append violations, add durations, count files) computes `SummaryOf` |
| `BauerAudit.SkippedFileContributesNothing` | scripts/bauer_parse_audit.py:21-42 | the summary file or a file that fails to parse, inserted anywhere, changes no part of the summary |
| `BauerAudit.SummaryFileSkipped` | scripts/bauer_parse_audit.py:22-24 | a file named `ci-summary.json` is never counted, whatever it contains |
| `BauerAudit.ExitCode` | scripts/bauer_parse_audit.py:113-122 | exit 1 exactly when (`critical` mode and critical > 0) or (`warning` mode and warning > 0) |
| `BauerAudit.ExitModes` | scripts/bauer_parse_audit.py:113-122 | under `warning`, critical violations alone do not fail; `none` never fails; `critical` fails exactly on a critical violation |
| `BauerAudit.RunAudit` | scripts/bauer_parse_audit.py:77-122 | a missing directory gives the all-zero pass summary; otherwise the aggregated summary; the exit status follows `--fail-on` |
| `BauerAudit.MissingDirectoryPasses` | scripts/bauer_parse_audit.py:80-91 | the missing-directory summary passes, and exits 0 under every threshold |
| `EndpointCoverage.PercentBelowThreshold` | scripts/track-endpoint-coverage.py:51-56 | `pct < MIN_COVERAGE_PCT` with `pct = documented / total * 100`, computed exactly over the rationals for a non-zero total; `CrossMultiplicationExact` turns it into integer arithmetic |
| `EndpointCoverage.CrossMultiplicationExact` | scripts/track-endpoint-coverage.py:51-56 | `documented / total * 100 < 80` over the rationals equals the integer cross-multiplied comparison, for either sign of `total` |
| `EndpointCoverage.CoverageValid` | scripts/track-endpoint-coverage.py:43-61 | a zero or absent total is valid; for a positive total, valid exactly when `documented * 100 >= 80 * total` |
| `EndpointCoverage.EightyPercentPasses` | scripts/track-endpoint-coverage.py:56 | exactly 80% passes |
| `EndpointCoverage.FullyDocumentedPasses` | scripts/track-endpoint-coverage.py:51-61 | `documented >= total > 0` passes |
| `EndpointCoverage.NoEndpointsValid` | scripts/track-endpoint-coverage.py:44-49 | with no endpoints the record is valid whatever `documented` says |
| `EndpointCoverage.DefaultRecordValid` | scripts/track-endpoint-coverage.py:27-49 | the default record (all counts zero, nothing missing) validates |
| `EndpointCoverage.CoverageData.FromRecord` | scripts/track-endpoint-coverage.py:38-40 | the in-memory dictionary holds exactly the loaded record |
| `EndpointCoverage.CoverageData.Validate` | scripts/track-endpoint-coverage.py:43-61 | the verdict is `CoverageValid`; with no endpoints the record is unchanged; otherwise only `coverage_pct` is rewritten, with the rounded share |
| `EndpointCoverage.LoadCoverage` | scripts/track-endpoint-coverage.py:26-40 | a missing file gives a fresh default record; a parsed file gives its record; an unreadable file gives none |
| `EndpointCoverage.RunCoverage` | scripts/track-endpoint-coverage.py:69-82 | exit 0 exactly when the file loads and validates; a failed validation or a read error exits 1 |
| `EndpointCoverage.MissingFilePasses` | scripts/track-endpoint-coverage.py:26-49 | a missing coverage file loads and passes |
| `EternalAudit.CheckVersion` | scripts/audit-eternal.py:24-37 | a missing file fails; a present file passes exactly when `1.0.0` occurs somewhere in its content |
| `EternalAudit.AuditDrift` | scripts/audit-eternal.py:39-52 | every listed file is checked in order; drift is detected exactly when some file fails; exit 1 exactly on drift |
| `EternalAudit.SubstringNotVersionMatch` | scripts/audit-eternal.py:31 | content `11.0.0` passes, as the check is a plain substring test |
| `EternalAudit.MissingOrStaleFails` | scripts/audit-eternal.py:25-37 | a missing file fails, and so does content without the version |

## Left out

- Parsing and file I/O are not modelled: YAML and JSON parsing, opening files, globbing and existence checks. Parsed documents, existence maps and directory listings are inputs.
- Output is not modelled: all printing, the summary JSON write, and the `mkdir` calls in the Bauer and coverage scripts.
- The UniFi client is not modelled: constructing `UnifiAPI`, `get_devices` and `get_clients`, the `requests` exception kinds, and the missing-library branch. They appear only as `LiveState.Unreachable`, which gives status 1.
- `sys.path` manipulation and `argparse` are not modelled. Environment reads become parameters.
- The Bauer summary's `timestamp` (a clock read) is not modelled. Nor are its constant `guardian`/`ministry` fields or its human-readable `summary` string.
- Coverage uses float division and `round(pct, 2)`. `CoveragePct.RoundedShare` records the two counts instead of the rounded float. The threshold is compared exactly over the rationals. The script's double-precision share can land on the other side of 80% only when `total_endpoints` is around 10^15 or more. For example, `documented = 1600000000000003` and `total = 2000000000000004` is just below 80% exactly but `80.0` in floating point, so the model fails it and the script passes it.
- Case mapping: `lower()` and `upper()` are modelled on ASCII letters. Python also maps non-ASCII letters.
- Inputs the scripts do not handle are left out; on these the scripts crash. Examples:
  - a device manifest whose YAML does not parse (`scripts/whitaker_anomaly_detector.py:28`), or whose document is truthy but not a mapping (`:50`). Both crash before the credential check at `:66`, so such a run exits 1 even without credentials;
  - a manifest record or play that is not a mapping;
  - a truthy `mac` that is not a string. A falsy `mac`, such as null or `0`, is skipped like a missing one, which the model covers;
  - a task `name` that is null or not a string;
  - a `devices` value that is null or neither a list nor a mapping;
  - a non-empty `violations` value that is not a list of mappings. An empty one, such as `{}` or `""`, iterates nothing, like an absent one;
  - a non-numeric `duration_ms`;
  - an audit file that is not valid UTF-8: the resulting `UnicodeDecodeError` is not among the exceptions caught at `scripts/bauer_parse_audit.py:41`;
  - a playbook path that cannot be opened.
- A floating-point `duration_ms` is summed by the script like an integer. The model's durations are integers only.
- In the coverage script, a non-numeric or null count raises inside `main`'s `try`, and the script exits 1. This happens only when the division at `scripts/track-endpoint-coverage.py:51` is reached: `total_endpoints` is itself non-numeric or null, or it is non-zero and `documented` is non-numeric or null. The model treats such a record as malformed: it is `FileUnreadable`, which also exits 1. With a zero or absent `total_endpoints`, the record is a `FileParsed` whatever `documented` holds, and it passes, as `NoEndpointsValid` states.
- The Bauer aggregator writes `source_file` into each parsed violation dictionary. The model builds a tagged copy instead. Nothing else holds a reference to those freshly decoded dictionaries, so aliasing is not modelled.
- `tests/unit/test_makefile_targets.py` is not modelled. It runs `make` and checks file permissions, and holds no logic.
