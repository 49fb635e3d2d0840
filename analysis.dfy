/** `analyseLicenses2` (main.go:128-170): for every record, classify what the
    license detector reported, fill in the license fields and the license
    hash, then look for a NOTICE file and hash it. The detector's JSON, the
    `ls | grep` output, the file system and the hash function are inputs;
    the records are updated in place in the array. */
module Analysis {
  import opened Strings
  import opened Deps
  import opened Grouping

  /** What the code reads from `licensee detect --json`: the size of
      `matched_files`, and of its first entry `matched_license` and
      `filename`; of the first entry of `licenses`, `spdx_id` and
      `meta.title`. */
  datatype Detection = Detection(
    matchedFiles: nat,
    matchedLicense: string,
    spdxId: string,
    filename: string,
    title: string)

  /** The outputs of the external tools for one dependency: the detector's
      result (None when it printed nothing) and the output of
      `ls -1 <dir> | grep -i NOTICE` ("" when there is no such file). */
  datatype Probe = Probe(detection: Option<Detection>, noticeListing: string)

  /** How the code reads a detector result. */
  datatype Verdict = NoOutput | NoMatch | Matched(conflict: bool)

  /** The lines the loop prints. */
  datatype Diagnostic =
    | CannotFindLicense(size: nat, dependency: string)
    | SeveralLicenseFiles
    | FindLicenseError(dependency: string)

  /** Empty output is no result; zero matched files is no match; otherwise
      the first match is taken, and it is a conflict when there are several
      matched files and the first file's license differs from the first
      listed license. The 95% confidence threshold is only a detector flag:
      the code never looks at a confidence. */
  function Classify(r: Option<Detection>): (v: Verdict)
    ensures v == NoOutput <==> r.None?
    ensures v == NoMatch <==> r.Some? && r.value.matchedFiles == 0
    ensures v.Matched? ==>
      (v.conflict <==> r.value.matchedFiles > 1 && r.value.matchedLicense != r.value.spdxId)
  {
    match r
    case None => NoOutput
    case Some(det) =>
      if det.matchedFiles == 0 then NoMatch
      else Matched(det.matchedFiles > 1 && det.matchedLicense != det.spdxId)
  }

  /** `ioutil.ReadFile` with its error ignored (main.go:149, 161): a file that
      cannot be read gives no bytes, which are then hashed all the same. */
  function ReadFile(fs: map<string, Bytes>, path: string): (b: Bytes)
    ensures path !in fs ==> b == []
  {
    if path in fs then fs[path] else []
  }

  /** The SHA-1 digest in URL-safe base64: 28 characters for any input. */
  ghost predicate IsFingerprint(hash: Bytes -> string)
  {
    forall b :: |hash(b)| == 28
  }

  /** The module's directory name in the module cache. */
  function ModuleDir(d: DependencyInfo): string
  {
    d.name + "@" + d.version
  }

  /** `filepath.Join` of three clean, non-empty components. */
  function Join3(a: string, b: string, c: string): string
  {
    a + "/" + b + "/" + c
  }

  /** Drops the final character (the newline) of a command's output. */
  function Chomp(s: string): (r: string)
    requires s != ""
    ensures r + [s[|s| - 1]] == s
  {
    s[..|s| - 1]
  }

  /** `localRepPath` (main.go:94-98): the module cache under the GOPATH that
      `go env GOPATH` printed. When the command fails its output is empty
      and slicing it panics: `None`. */
  function LocalRepPath(gopathOutput: string): (p: Option<string>)
    ensures p.None? <==> gopathOutput == ""
    ensures p.Some? ==> |p.value| >= 8 && p.value[|p.value| - 8..] == "/pkg/mod"
    ensures p.Some? ==> gopathOutput == p.value[..|p.value| - 8] + [gopathOutput[|gopathOutput| - 1]]
  {
    if gopathOutput == "" then None
    else
      var r := Chomp(gopathOutput) + "/pkg/mod";
      assert r[..|r| - 8] == Chomp(gopathOutput);
      Some(r)
  }

  /** main.go:145-153: the first match's file, license id and title, and the
      hash of that file's bytes. */
  function WithLicense(d: DependencyInfo, repPath: string, det: Detection,
                       fs: map<string, Bytes>, hash: Bytes -> string): (r: DependencyInfo)
    ensures r.name == d.name && r.version == d.version
    ensures r.noticePath == d.noticePath && r.noticeHash == d.noticeHash
    ensures r.newLicenseName == d.newLicenseName && r.newNoticeName == d.newNoticeName
    ensures r.licensePath == Join3(repPath, ModuleDir(d), det.filename)
    ensures r.licenseName == det.matchedLicense && r.licenseFullName == det.title
    ensures r.licenseHash == hash(ReadFile(fs, r.licensePath))
    ensures IsFingerprint(hash) ==> r.licenseHash != ""
  {
    var path := Join3(repPath, ModuleDir(d), det.filename);
    d.(licensePath := path,
       licenseName := det.matchedLicense,
       licenseFullName := det.title,
       licenseHash := hash(ReadFile(fs, path)))
  }

  /** The notice hash as the code computes it (main.go:161): over the bytes of
      the LICENSE path, not of the notice path just found. */
  function NoticeHashAsWritten(d: DependencyInfo, fs: map<string, Bytes>,
                               hash: Bytes -> string): (h: string)
    ensures h == NoticeHashOf(d.(noticePath := d.licensePath), fs, hash)
    ensures ReadFile(fs, d.licensePath) == ReadFile(fs, d.noticePath) ==> h == NoticeHashOf(d, fs, hash)
  {
    hash(ReadFile(fs, d.licensePath))
  }

  /** The notice hash as intended: over the bytes of the notice file. */
  function NoticeHashOf(d: DependencyInfo, fs: map<string, Bytes>,
                        hash: Bytes -> string): string
  {
    hash(ReadFile(fs, d.noticePath))
  }

  /** main.go:158-166 with the intended notice hash: the `ls | grep` output
      minus its final newline names the notice file. */
  function WithNotice(d: DependencyInfo, repPath: string, listing: string,
                      fs: map<string, Bytes>, hash: Bytes -> string): (r: DependencyInfo)
    ensures listing == "" ==> r == d
    ensures r.name == d.name && r.version == d.version
    ensures r.licensePath == d.licensePath && r.licenseHash == d.licenseHash
    ensures r.licenseName == d.licenseName && r.licenseFullName == d.licenseFullName
    ensures r.newLicenseName == d.newLicenseName && r.newNoticeName == d.newNoticeName
    ensures listing != "" ==>
      && r.noticePath == Join3(repPath, ModuleDir(d), Chomp(listing))
      && r.noticeHash == hash(ReadFile(fs, r.noticePath))
  {
    if listing == "" then d
    else
      var d1 := d.(noticePath := Join3(repPath, ModuleDir(d), Chomp(listing)));
      d1.(noticeHash := NoticeHashOf(d1, fs, hash))
  }

  /** One iteration of the loop of `analyseLicenses2`. */
  function AnalysedRecord(d: DependencyInfo, repPath: string, p: Probe,
                          fs: map<string, Bytes>, hash: Bytes -> string): (r: DependencyInfo)
    requires IsFingerprint(hash)
    // identity and output names are never touched here
    ensures r.name == d.name && r.version == d.version
    ensures r.newLicenseName == d.newLicenseName && r.newNoticeName == d.newNoticeName
    // zero matched files: `continue`, the record is left exactly as it was
    ensures Classify(p.detection) == NoMatch ==> r == d
    // no detector output: the license fields stay as they were
    ensures Classify(p.detection) == NoOutput ==>
      && r.licenseName == d.licenseName && r.licenseFullName == d.licenseFullName
      && r.licensePath == d.licensePath && r.licenseHash == d.licenseHash
    // a match, conflicting or not: the FIRST matched file is used
    ensures Classify(p.detection).Matched? ==>
      && r.licensePath == Join3(repPath, ModuleDir(d), p.detection.value.filename)
      && r.licenseName == p.detection.value.matchedLicense
      && r.licenseFullName == p.detection.value.title
      && r.licenseHash == hash(ReadFile(fs, r.licensePath))
      && r.licenseHash != ""
    // a notice file is looked for unless the record was skipped
    ensures Classify(p.detection) != NoMatch && p.noticeListing != "" ==>
      && r.noticePath == Join3(repPath, ModuleDir(d), Chomp(p.noticeListing))
      && r.noticeHash == hash(ReadFile(fs, r.noticePath))
      && r.noticeHash != ""
    ensures p.noticeListing == "" ==> r.noticePath == d.noticePath && r.noticeHash == d.noticeHash
  {
    match Classify(p.detection)
    case NoMatch => d
    case NoOutput => WithNotice(d, repPath, p.noticeListing, fs, hash)
    case Matched(_) =>
      WithNotice(WithLicense(d, repPath, p.detection.value, fs, hash),
                 repPath, p.noticeListing, fs, hash)
  }

  /** A freshly listed record ends up with a license hash exactly when the
      detector matched something, and with a notice hash exactly when it was
      not skipped and a notice file was listed. */
  lemma ResolvedIffMatched(name: string, version: string, repPath: string, p: Probe,
                           fs: map<string, Bytes>, hash: Bytes -> string)
    requires IsFingerprint(hash)
    ensures var r := AnalysedRecord(Listed(name, version), repPath, p, fs, hash);
      && (r.licenseHash != "" <==> Classify(p.detection).Matched?)
      && (r.noticeHash != "" <==> Classify(p.detection) != NoMatch && p.noticeListing != "")
  {
  }

  /** A conflict only produces a diagnostic: the record comes out exactly as
      for a single matched file. */
  lemma ConflictOnlyDiagnoses(d: DependencyInfo, repPath: string, det: Detection,
                              listing: string, fs: map<string, Bytes>, hash: Bytes -> string)
    requires IsFingerprint(hash)
    requires Classify(Some(det)) == Matched(true)
    ensures AnalysedRecord(d, repPath, Probe(Some(det), listing), fs, hash)
         == AnalysedRecord(d, repPath, Probe(Some(det.(matchedFiles := 1)), listing), fs, hash)
  {
  }

  /** What the loop prints for one record. */
  function RecordDiagnostics(d: DependencyInfo, p: Probe): (log: seq<Diagnostic>)
    ensures |log| <= 1
    ensures log == [SeveralLicenseFiles] <==> Classify(p.detection) == Matched(true)
    ensures log == [] <==> Classify(p.detection) == Matched(false)
    ensures Classify(p.detection) == NoOutput ==> log == [FindLicenseError(ModuleDir(d))]
    ensures Classify(p.detection) == NoMatch ==> log == [CannotFindLicense(0, ModuleDir(d))]
  {
    match Classify(p.detection)
    case NoOutput => [FindLicenseError(ModuleDir(d))]
    case NoMatch => [CannotFindLicense(0, ModuleDir(d))]
    case Matched(conflict) => if conflict then [SeveralLicenseFiles] else []
  }

  /** What the loop prints for the first `n` records. */
  function AllDiagnostics(recs: seq<DependencyInfo>, probes: seq<Probe>, n: nat): seq<Diagnostic>
    requires n <= |recs| && n <= |probes|
  {
    if n == 0 then []
    else AllDiagnostics(recs, probes, n - 1) + RecordDiagnostics(recs[n - 1], probes[n - 1])
  }

  /** The body of `analyseLicenses2`'s loop for record `i`: updates the
      record's fields in place and returns what it prints. */
  method AnalyseRecordAt(repPath: string, dArr: array<DependencyInfo>, i: nat, p: Probe,
                         fs: map<string, Bytes>, hash: Bytes -> string)
    returns (log: seq<Diagnostic>)
    requires i < dArr.Length
    requires IsFingerprint(hash)
    modifies dArr
    ensures dArr[i] == AnalysedRecord(old(dArr[i]), repPath, p, fs, hash)
    ensures forall k :: 0 <= k < dArr.Length && k != i ==> dArr[k] == old(dArr[k])
    ensures log == RecordDiagnostics(old(dArr[i]), p)
  {
    var d := dArr[i];
    var dir := d.name + "@" + d.version;
    log := [];
    match p.detection {
      case None =>
        log := [FindLicenseError(dir)];
      case Some(det) =>
        if det.matchedFiles == 0 {
          log := [CannotFindLicense(det.matchedFiles, dir)];
          return;
        } else if det.matchedFiles > 1 && det.matchedLicense != det.spdxId {
          log := [SeveralLicenseFiles];
        }
        dArr[i] := dArr[i].(licensePath := Join3(repPath, dir, det.filename));
        dArr[i] := dArr[i].(licenseName := det.matchedLicense);
        dArr[i] := dArr[i].(licenseFullName := det.title);
        var licenseBytes := ReadFile(fs, dArr[i].licensePath);
        dArr[i] := dArr[i].(licenseHash := hash(licenseBytes));
        assert dArr[i] == WithLicense(d, repPath, det, fs, hash);
    }
    var noticeName := p.noticeListing;
    if noticeName != "" {
      noticeName := noticeName[..|noticeName| - 1];
      dArr[i] := dArr[i].(noticePath := Join3(repPath, dir, noticeName));
      // main.go:161 reads dArr[i].LicensePath here; see NoticeHashAsWritten
      var noticeBytes := ReadFile(fs, dArr[i].noticePath);
      dArr[i] := dArr[i].(noticeHash := hash(noticeBytes));
    }
  }

  /** `analyseLicenses2` (main.go:128-170): locate the module cache, then
      analyse every record. `completed` is false when `localRepPath` panics
      on an empty `go env GOPATH` output, before any record is touched. */
  method AnalyseLicenses(gopathOutput: string, dArr: array<DependencyInfo>, probes: seq<Probe>,
                         fs: map<string, Bytes>, hash: Bytes -> string)
    returns (log: seq<Diagnostic>, completed: bool)
    requires |probes| == dArr.Length
    requires IsFingerprint(hash)
    modifies dArr
    ensures completed <==> gopathOutput != ""
    ensures !completed ==> dArr[..] == old(dArr[..]) && log == []
    ensures completed ==> forall i :: 0 <= i < dArr.Length ==>
      dArr[i] == AnalysedRecord(old(dArr[i]), LocalRepPath(gopathOutput).value, probes[i], fs, hash)
    ensures completed ==> log == AllDiagnostics(old(dArr[..]), probes, dArr.Length)
  {
    var repPath := LocalRepPath(gopathOutput);
    if repPath.None? {
      return [], false;
    }
    log := AnalyseEach(repPath.value, dArr, probes, fs, hash);
    completed := true;
  }

  /** The loop of `analyseLicenses2` over the records: every record is
      replaced by its analysed form, and the diagnostics are returned in
      record order. */
  method AnalyseEach(repPath: string, dArr: array<DependencyInfo>, probes: seq<Probe>,
                     fs: map<string, Bytes>, hash: Bytes -> string)
    returns (log: seq<Diagnostic>)
    requires |probes| == dArr.Length
    requires IsFingerprint(hash)
    modifies dArr
    ensures forall i :: 0 <= i < dArr.Length ==>
      dArr[i] == AnalysedRecord(old(dArr[i]), repPath, probes[i], fs, hash)
    ensures log == AllDiagnostics(old(dArr[..]), probes, dArr.Length)
  {
    log := [];
    ghost var before := dArr[..];
    for i := 0 to dArr.Length
      invariant forall k :: 0 <= k < i ==>
        dArr[k] == AnalysedRecord(before[k], repPath, probes[k], fs, hash)
      invariant forall k :: i <= k < dArr.Length ==> dArr[k] == before[k]
      invariant log == AllDiagnostics(before, probes, i)
    {
      var printed := AnalyseRecordAt(repPath, dArr, i, probes[i], fs, hash);
      log := log + printed;
    }
  }

  /** As written, a record with a matched license gets as notice hash its own
      license hash, whatever its notice file holds. */
  lemma NoticeHashAsWrittenIsLicenseHash(d: DependencyInfo, repPath: string, det: Detection,
                                         fs: map<string, Bytes>, hash: Bytes -> string)
    ensures var r := WithLicense(d, repPath, det, fs, hash);
      NoticeHashAsWritten(r, fs, hash) == r.licenseHash
  {
  }

  /** Two dependencies with byte-identical license files but different notice
      files: as written their notice hashes coincide (they would share one
      NOTICE section), while the intended hashes tell them apart under any
      fingerprint that tells the two notices apart. */
  lemma NoticeHashAsWrittenMerges(hash: Bytes -> string)
    requires IsFingerprint(hash) && hash([1]) != hash([2])
    ensures var fs := map["/m/x@v1/LICENSE" := [0], "/m/y@v1/LICENSE" := [0],
                    "/m/x@v1/NOTICE" := [1], "/m/y@v1/NOTICE" := [2]];
      var d1 := Listed("x", "v1").(licensePath := "/m/x@v1/LICENSE", noticePath := "/m/x@v1/NOTICE");
      var d2 := Listed("y", "v1").(licensePath := "/m/y@v1/LICENSE", noticePath := "/m/y@v1/NOTICE");
      && NoticeHashAsWritten(d1, fs, hash) == NoticeHashAsWritten(d2, fs, hash)
      && NoticeHashOf(d1, fs, hash) != NoticeHashOf(d2, fs, hash)
  {
  }

  /** As written (main.go:149): the read error is ignored, so every matched
      license file that cannot be read is hashed as no bytes. Two such
      records get the same license hash and share one LICENSE section,
      whatever their detected license ids. */
  lemma UnreadableLicensesShareGroup(recs: seq<DependencyInfo>, groups: seq<Group>, i: nat, j: nat,
                                     d1: DependencyInfo, d2: DependencyInfo, repPath: string,
                                     det1: Detection, det2: Detection,
                                     fs: map<string, Bytes>, hash: Bytes -> string)
    requires IsGrouping(groups, LicenseKeys(recs), false)
    requires i < |recs| && j < |recs|
    requires recs[i] == WithLicense(d1, repPath, det1, fs, hash)
    requires recs[j] == WithLicense(d2, repPath, det2, fs, hash)
    requires recs[i].licensePath !in fs && recs[j].licensePath !in fs
    ensures recs[i].licenseHash == recs[j].licenseHash == hash([])
    ensures exists g :: 0 <= g < |groups| && i in groups[g].members && j in groups[g].members
  {
    SameGroupIffSameKey(groups, LicenseKeys(recs), false, i, j);
  }

  /** main.go:145-153 with the read error checked: a license file that cannot
      be read leaves the record's license fields unset, as when nothing was
      matched. */
  function WithReadLicense(d: DependencyInfo, repPath: string, det: Detection,
                           fs: map<string, Bytes>, hash: Bytes -> string): (r: DependencyInfo)
    ensures Join3(repPath, ModuleDir(d), det.filename) !in fs ==> r == d
    ensures Join3(repPath, ModuleDir(d), det.filename) in fs ==>
      && r.licensePath == Join3(repPath, ModuleDir(d), det.filename)
      && r.licenseName == det.matchedLicense && r.licenseFullName == det.title
      && r.licenseHash == hash(fs[r.licensePath])
      && r == WithLicense(d, repPath, det, fs, hash)
  {
    var path := Join3(repPath, ModuleDir(d), det.filename);
    if path in fs then WithLicense(d, repPath, det, fs, hash) else d
  }

  /** With the read error checked, records that were unresolved before share a
      resolved LICENSE section only when both their license files were read
      and have the same fingerprint. */
  lemma ReadLicensesShareGroupOnlyIfRead(recs: seq<DependencyInfo>, groups: seq<Group>, i: nat, j: nat,
                                         d1: DependencyInfo, d2: DependencyInfo, repPath: string,
                                         det1: Detection, det2: Detection,
                                         fs: map<string, Bytes>, hash: Bytes -> string)
    requires IsGrouping(groups, LicenseKeys(recs), false)
    requires i < |recs| && j < |recs|
    requires d1.licenseHash == "" && d2.licenseHash == ""
    requires recs[i] == WithReadLicense(d1, repPath, det1, fs, hash)
    requires recs[j] == WithReadLicense(d2, repPath, det2, fs, hash)
    requires recs[i].licenseHash != ""
    requires exists g :: 0 <= g < |groups| && i in groups[g].members && j in groups[g].members
    ensures recs[i].licensePath in fs && recs[j].licensePath in fs
    ensures hash(fs[recs[i].licensePath]) == hash(fs[recs[j].licensePath])
  {
    SameGroupIffSameKey(groups, LicenseKeys(recs), false, i, j);
  }
}
