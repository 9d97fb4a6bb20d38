/**
 * The API documentation coverage check: the coverage record (loaded from
 * `.audit/api/coverage.json`, or a default one when the file is missing)
 * passes when no endpoints are known, or when at least 80% of them are
 * documented; validation rewrites the record's `coverage_pct` in place.
 *
 * The coverage file is given as its parsed content, a read or decode
 * failure, or absence.
 */
module EndpointCoverage {
  import opened Text

  const MinCoveragePct := 80

  /** A `coverage_pct` value: as found in the record, or the rounded percentage validation writes. */
  datatype CoveragePct = Recorded(value: int) | RoundedShare(documented: int, total: int)

  /** The keys of a coverage record; absent keys are `None`. */
  datatype CoverageRecord = CoverageRecord(
    totalEndpoints: Option<int>,
    documented: Option<int>,
    coveragePct: Option<CoveragePct>,
    missing: seq<string>,
    guardianMapping: map<string, string>)

  /**
   * The coverage file: absent, unreadable or malformed, or parsed. Malformed
   * includes a record whose counts make the percentage raise: a
   * `total_endpoints` that is not a number, or a non-zero total with a
   * `documented` that is not a number. With a zero or absent total,
   * `documented` is never used.
   */
  datatype CoverageFile = FileMissing | FileUnreadable | FileParsed(record: CoverageRecord)

  /** The record `load_coverage` returns when the file does not exist. */
  const DefaultRecord := CoverageRecord(Some(0), Some(0), Some(Recorded(0)), [], map[])

  /**
   * `pct < MIN_COVERAGE_PCT` with `pct = documented / total * 100`, computed
   * exactly over the rationals.
   */
  predicate PercentBelowThreshold(documented: int, total: int)
    requires total != 0
  {
    (documented as real / total as real) * 100.0 < MinCoveragePct as real
  }

  /** The same comparison by integer cross-multiplication (the sign of `total` flips it). */
  predicate CrossMultipliedBelow(documented: int, total: int) {
    if total > 0 then documented * 100 < MinCoveragePct * total
    else documented * 100 > MinCoveragePct * total
  }

  /** Cross-multiplying decides the percentage comparison exactly, for either sign of `total`. */
  lemma CrossMultiplicationExact(documented: int, total: int)
    requires total != 0
    ensures PercentBelowThreshold(documented, total) <==> CrossMultipliedBelow(documented, total)
  {
    var d, t := documented as real, total as real;
    var q := d / t;
    assert q * t == d;
    if total > 0 {
      assert q * 100.0 < 80.0 <==> q * 100.0 * t < 80.0 * t;
      assert q * 100.0 * t == d * 100.0;
    } else {
      assert q * 100.0 < 80.0 <==> q * 100.0 * t > 80.0 * t;
      assert q * 100.0 * t == d * 100.0;
    }
  }

  /** `validate_coverage`'s verdict on a record's counts. */
  function CoverageValid(totalEndpoints: Option<int>, documented: Option<int>): (valid: bool)
    ensures totalEndpoints.GetOr(0) == 0 ==> valid
    ensures totalEndpoints.GetOr(0) > 0 ==>
      (valid <==> documented.GetOr(0) * 100 >= MinCoveragePct * totalEndpoints.GetOr(0))
  {
    var total := totalEndpoints.GetOr(0);
    total == 0 || !CrossMultipliedBelow(documented.GetOr(0), total)
  }

  /** Exactly 80% passes. */
  lemma EightyPercentPasses(documented: int, total: int)
    requires total > 0 && documented * 100 == MinCoveragePct * total
    ensures CoverageValid(Some(total), Some(documented))
  {
  }

  /** Every endpoint documented (or more) passes. */
  lemma FullyDocumentedPasses(documented: int, total: int)
    requires documented >= total > 0
    ensures CoverageValid(Some(total), Some(documented))
  {
  }

  /** With no endpoints known the record is valid whatever `documented` says. */
  lemma NoEndpointsValid(documented: Option<int>)
    ensures CoverageValid(None, documented) && CoverageValid(Some(0), documented)
  {
  }

  /** The default record validates, so a missing coverage file passes. */
  lemma DefaultRecordValid()
    ensures CoverageValid(DefaultRecord.totalEndpoints, DefaultRecord.documented)
  {
  }

  /** The coverage record as a mutable dictionary. */
  class CoverageData {
    var totalEndpoints: Option<int>
    var documented: Option<int>
    var coveragePct: Option<CoveragePct>
    var missing: seq<string>
    var guardianMapping: map<string, string>

    /** The record's current keys and values. */
    function Record(): CoverageRecord
      reads this
    {
      CoverageRecord(totalEndpoints, documented, coveragePct, missing, guardianMapping)
    }

    constructor FromRecord(r: CoverageRecord)
      ensures Record() == r
    {
      totalEndpoints := r.totalEndpoints;
      documented := r.documented;
      coveragePct := r.coveragePct;
      missing := r.missing;
      guardianMapping := r.guardianMapping;
    }

    /**
     * `validate_coverage`: with no endpoints nothing is written; otherwise
     * only `coverage_pct` is rewritten, with the rounded percentage.
     */
    method Validate() returns (valid: bool)
      modifies this`coveragePct
      ensures valid == CoverageValid(totalEndpoints, documented)
      ensures totalEndpoints.GetOr(0) == 0 ==> Record() == old(Record())
      ensures totalEndpoints.GetOr(0) != 0 ==>
        Record() == old(Record()).(coveragePct := Some(RoundedShare(documented.GetOr(0), totalEndpoints.GetOr(0))))
    {
      var total := totalEndpoints.GetOr(0);
      var count := documented.GetOr(0);
      if total == 0 {
        return true;
      }
      coveragePct := Some(RoundedShare(count, total));
      CrossMultiplicationExact(count, total);
      if PercentBelowThreshold(count, total) {
        return false;
      }
      return true;
    }
  }

  /** `load_coverage`: the default record for a missing file, the parsed one otherwise; `None` when reading fails. */
  method LoadCoverage(file: CoverageFile) returns (data: Option<CoverageData>)
    ensures data.None? <==> file.FileUnreadable?
    ensures file.FileMissing? ==> data.Some? && fresh(data.value) && data.value.Record() == DefaultRecord
    ensures file.FileParsed? ==> data.Some? && fresh(data.value) && data.value.Record() == file.record
  {
    if file.FileUnreadable? {
      data := None;
    } else {
      var d := new CoverageData.FromRecord(if file.FileMissing? then DefaultRecord else file.record);
      data := Some(d);
    }
  }

  /** The counts the verdict is computed from. */
  function RecordOf(file: CoverageFile): CoverageRecord {
    if file.FileParsed? then file.record else DefaultRecord
  }

  /** `main`: exit 0 exactly when the record loads and validates. */
  method RunCoverage(file: CoverageFile) returns (code: int)
    ensures code == 0 <==> !file.FileUnreadable? && CoverageValid(RecordOf(file).totalEndpoints, RecordOf(file).documented)
    ensures code == 0 || code == 1
  {
    var data := LoadCoverage(file);
    if data.None? {
      return 1;
    }
    var valid := data.value.Validate();
    code := if valid then 0 else 1;
  }

  /** A missing coverage file passes. */
  lemma MissingFilePasses()
    ensures !FileMissing.FileUnreadable? && CoverageValid(RecordOf(FileMissing).totalEndpoints, RecordOf(FileMissing).documented)
  {
  }
}
