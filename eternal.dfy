/**
 * The eternal-audit version-drift check: each of six canon files must exist
 * and mention the expected version string "1.0.0"; drift is reported when
 * any of them does not.
 *
 * The file system is a map from path to file content; a path absent from the
 * map does not exist.
 */
module EternalAudit {
  import opened Text

  const ExpectedVersion := "1.0.0"

  const FilesToCheck: seq<string> := [
    "README.md",
    "CHANGELOG.md",
    "RYLANLABS-INSTRUCTION-SET.md",
    ".agent.md",
    "docs/vlan-discipline.md",
    "docs/vault-discipline.md"
  ]

  /** The files that exist, with their contents. */
  type FileSystem = map<string, string>

  /**
   * `check_version`: a missing file fails; a present one passes exactly when
   * the expected version occurs somewhere in it as a plain substring.
   */
  function CheckVersion(fs: FileSystem, path: string): (ok: bool)
    ensures path !in fs ==> !ok
    ensures path in fs ==> (ok <==> exists i :: OccursAt(fs[path], ExpectedVersion, i))
  {
    if path in fs then
      ContainsIff(fs[path], ExpectedVersion);
      Contains(fs[path], ExpectedVersion)
    else false
  }

  /** `main`: check every listed file, without stopping at the first failure, and exit 1 on drift. */
  method AuditDrift(fs: FileSystem) returns (drift: bool, verdicts: seq<bool>, code: int)
    ensures |verdicts| == |FilesToCheck|
    ensures forall i :: 0 <= i < |FilesToCheck| ==> verdicts[i] == CheckVersion(fs, FilesToCheck[i])
    ensures drift <==> exists i :: 0 <= i < |FilesToCheck| && !CheckVersion(fs, FilesToCheck[i])
    ensures code == (if drift then 1 else 0)
  {
    drift := false;
    verdicts := [];
    for i := 0 to |FilesToCheck|
      invariant |verdicts| == i
      invariant forall j :: 0 <= j < i ==> verdicts[j] == CheckVersion(fs, FilesToCheck[j])
      invariant drift <==> exists j :: 0 <= j < i && !CheckVersion(fs, FilesToCheck[j])
    {
      var ok := CheckVersion(fs, FilesToCheck[i]);
      verdicts := verdicts + [ok];
      if !ok {
        drift := true;
      }
    }
    code := if drift then 1 else 0;
  }

  /** The check is a plain substring test: "11.0.0" also passes. */
  lemma SubstringNotVersionMatch()
    ensures CheckVersion(map["CHANGELOG.md" := "11.0.0"], "CHANGELOG.md")
  {
    assert OccursAt("11.0.0", ExpectedVersion, 1);
  }

  /** A file without the version fails, as does a missing one. */
  lemma MissingOrStaleFails()
    ensures !CheckVersion(map[], "README.md")
    ensures !CheckVersion(map["README.md" := "v2"], "README.md")
  {
  }
}
