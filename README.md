# dependency-license-collect, modelled in Dafny

`dependency-license-collect` is a Go tool. It gathers the third-party
licenses and notices of a Go module into one LICENSE and one NOTICE
document. The tool itself is the single file `main.go`. It works in three
steps:

1. **Listing** (`dependenciesList`). The output of `go list -m all` is cut
   into lines. Every line with at least two space-separated tokens becomes
   a `DependencyInfo` record holding the module path and version.
2. **Analysis** (`analyseLicenses2`). For each record, the license
   detector's result is classified as no output, no match, or a (possibly
   conflicting) match. The record's license fields and license hash are
   filled in place. A NOTICE file, when one is listed, is recorded and
   hashed.
3. **Output** (`outputFile`). The steps, in order:
   - The records are grouped by license hash, a "transpose" of the record
     array into a map.
   - Each group's first record, its representative, gets the name of its
     copied license file.
   - One `LicenseHashInfo` per group is sorted by license id with
     `sort.Sort` (`Len`/`Less`/`Swap`).
   - The LICENSE text is assembled: the project's own license, a header,
     then one section per info. A section is a title plus one
     `name (version)` line per member.
   - The same is done for NOTICE, over the records that have a notice hash,
     in the notice map's iteration order.

The model keeps the program's shape. The record array is a Dafny `array`,
and its in-place updates are methods with `modifies` clauses. Each such
method is proved against a specification function:
- `AnalysedRecord` for one analysis step;
- `NamedReps` for the naming loop;
- `LicenseText`/`NoticeText` for the `+=` accumulation.

The license infos are sorted in place in an `array` through `Less` and
`Swap`. Go has no object with mutating methods here: the state is a slice
handed from function to function. So the model has methods over arrays and
no class.

External effects are inputs:
- the outputs of `go list`, `go env GOPATH`, `licensee detect` and `ls | grep`;
- the file system, as a map from path to bytes;
- the SHA-1/base64 hash, as a function from bytes to a 28-character string;
- the order in which Go visits the notice map.

Modules, one file each:

- `Strings` (`strings.dfy`) holds the string primitives:
  - `strings.Split` and `strings.Join` with a one-character separator;
  - `filepath.Base` on Unix paths;
  - the last two segments of a module path;
  - Go's `<` on strings.
- `Deps` (`deps.dfy`) holds the record types and the grouping keys.
- `Listing` (`listing.dfy`) is `dependenciesList`.
- `Analysis` (`analysis.dfy`) is `analyseLicenses2` and `localRepPath`.
- `Grouping` (`grouping.dfy`) is the two transpose loops.
- `Sorting` (`sorting.dfy`) is `Len`/`Less`/`Swap` and `sort.Sort`.
- `Naming` (`naming.dfy`) is the naming of representatives.
- `Render` (`render.dfy`) is the format strings, `fmt.Sprintf` and the two
  documents' text.
- `Layout` (`layout.dfy`) reads each document back as a sequence of titles
  and member lines, so that what `Coverage` says about the listed records
  is a statement about the text itself.
- `Coverage` (`coverage.dfy`) says what the documents list.
- `Pipeline` (`pipeline.dfy`) is `outputFile` end to end.

## Model

| member | source | states |
|---|---|---|
| Strings.JoinSplit | main.go:115-118 | Joining the pieces of `strings.Split` with the separator gives back the original string. |
| Strings.SplitJoin | main.go:217-218 | Splitting a join of separator-free pieces gives back exactly those pieces. |
| Strings.Split | main.go:115 | `strings.Split` with a one-character separator gives one more piece than there are separators (also at lines 118 and 217). |
| Strings.SplitPiecesFree | main.go:115-118 | No piece produced by `strings.Split` contains the separator. |
| Strings.CountPositive | main.go:118-119 | The separator count is positive exactly when the separator occurs. `Split` yields count + 1 pieces, so a line has more than one token iff it has a space. |
| Strings.SplitPrefix | main.go:115 | A separator-free prefix is glued onto the first piece of the split of what follows. |
| Strings.Base | main.go:218 | `filepath.Base` is never empty. It is either "/" or free of slashes. A non-empty name without a slash is its own base. |
| Strings.LastTwoSegments | main.go:217-218 | Takes the last two pieces of a module path with a slash. Both are slash-free, and they sit at the end of the path, joined by '/' and preceded by a '/' or by nothing. |
| Strings.SplitEndsInTwo | main.go:217-218 | A path with a slash splits into at least two pieces. Those pieces, with the join of what precedes them, rebuild the path. |
| Strings.LexLessIrreflexive | main.go:42 | Go's `<` on strings is irreflexive. |
| Strings.LexLessTransitive | main.go:42 | Go's `<` on strings is transitive. |
| Strings.LexLessTotal | main.go:42 | Of two distinct strings, one is `<` the other. |
| Strings.LexLeqTotal | main.go:42 | Any two strings are ordered one way or the other by `<=`. This is the totality `sort.Sort` needs from `Less`. |
| Deps.Listed | main.go:120 | The `DependencyInfo{Name, Version}` literal sets name and version and leaves both hashes empty. |
| Listing.LineRecords | main.go:118-121 | A line gives at most one record. It gives one exactly when it contains a space, and that record holds tokens 0 and 1. |
| Listing.RecordsBound | main.go:117-122 | There are never more records than lines. |
| Listing.RecordsComeFromLines | main.go:117-122 | Every record is tokens 0 and 1 of some line that has more than one token. |
| Listing.DependenciesList | main.go:108-125 | The loop yields the records of the output's lines, in line order. There are at most (number of newlines + 1) of them. |
| Listing.RecordsOfListLines | main.go:117-122 | One "path version" line per module gives one record per module, in order. |
| Listing.ParseListing | main.go:114-122 | Round trip: parsing the newline-terminated listing of modules with no space or newline in path or version gives exactly those modules, in order. The final empty piece adds nothing. |
| Analysis.Classify | main.go:134-144 | Empty output is "no output", zero matched files is "no match", anything else is a match. A match is a conflict iff there are several matched files and the first file's license differs from the first listed license. |
| Analysis.ReadFile | main.go:149 | An unreadable path gives no bytes, because the error is ignored. |
| Analysis.Chomp | main.go:159 | Dropping the final newline: the result plus the dropped character is the input. |
| Analysis.LocalRepPath | main.go:94-98 | Empty `go env GOPATH` output gives no path: Go's `res[:len(res)-1]` panics there. Otherwise the path ends in `/pkg/mod`, and what precedes that suffix, plus the output's last character, is the whole output. |
| Analysis.AnalysedRecord | main.go:132-166 | One record's analysis:<br>• No match: the record is unchanged (`continue`).<br>• No output: the license fields are unchanged.<br>• A match: the first matched file gives path, id, title and a non-empty hash of that file.<br>• A listed notice file gives its path and a non-empty hash of the notice file's bytes.<br>• Name, version and output names are never touched. |
| Analysis.ResolvedIffMatched | main.go:134-166 | A fresh record gets a license hash iff the detector matched. It gets a notice hash iff it was not skipped and a notice file was listed. |
| Analysis.ConflictOnlyDiagnoses | main.go:138-144 | A conflicting match yields the same record as a single match: the conflict is only printed. |
| Analysis.RecordDiagnostics | main.go:136-155 | Of the loop's own three `Println` calls (lines 136, 142 and 155), at most one fires per record. The conflict message appears iff there is a conflicting match. None of them fires iff there is a clean match. No detector output prints the find-license error naming `name@version` (line 155); zero matched files prints the cannot-find message with size 0 and `name@version` (line 136). |
| Analysis.AnalyseRecordAt | main.go:133-166 | The loop body updates record `i` in place to its analysed form and leaves every other record alone. It returns what it prints. |
| Analysis.AnalyseLicenses | main.go:128-170 | It completes iff `go env GOPATH` printed something; otherwise it stops (Go panics at line 96) with the records untouched. On completion every record is replaced by its analysed form under the module cache path, and the diagnostics come out in record order. |
| Analysis.AnalyseEach | main.go:132-167 | The `range dArr` loop replaces every record by its analysed form and returns the diagnostics in record order. |
| Analysis.WithLicense | main.go:145-153 | A match sets the license path to the cache path of the matched file, the license id and title from the detector, and the hash of that file's bytes, which is never empty. Name, version, notice fields and new names are kept. |
| Analysis.WithNotice | main.go:158-165 | An empty listing leaves the record as it is. Otherwise the notice path is the cache path of the listed name without its newline, and the notice hash is that file's hash. All license fields are kept. |
| Analysis.NoticeHashAsWritten | main.go:161 | As written, the notice hash is the intended hash of a record whose notice path were its license path. It agrees with the intended hash whenever the two files hold the same bytes. |
| Analysis.NoticeHashAsWrittenIsLicenseHash | main.go:161 | As written, a licensed record's notice hash equals its license hash. |
| Analysis.NoticeHashAsWrittenMerges | main.go:161 | Counterexample, for every 28-character fingerprint that tells the bytes 1 and 2 apart: two modules with identical license files and different notices get the same notice hash as written, but different hashes as intended. |
| Analysis.UnreadableLicensesShareGroup | main.go:149 | As written, two matched records whose license files cannot be read both get the hash of no bytes, so they share one LICENSE section whatever their license ids. |
| Analysis.WithReadLicense | main.go:145-153 | With the read error checked: an unreadable license file leaves the record as it was; a readable one gives exactly what the code as written gives, with the hash of the file's bytes. |
| Analysis.ReadLicensesShareGroupOnlyIfRead | main.go:149 | With the read error checked, two previously unresolved records in the same resolved LICENSE section both had their license files read, with equal fingerprints. |
| Grouping.GroupByKey | main.go:203-211 | The transpose loop yields a grouping:<br>• One group per distinct included key, in order of first appearance.<br>• Members in record order, each carrying its group's key.<br>• Every included record in its key's group.<br>• The first member is the earliest record with that key.<br>• As many members as included records. |
| Grouping.GroupRecord | main.go:204-210 | One iteration keeps the grouping invariant for one more record and adds one member iff the record is included. |
| Grouping.AddRecord | main.go:205-209 | A new key opens a group holding just the record. A known key appends the record to its group. |
| Grouping.OneGroupPerRecord | main.go:203-211 | A record belongs to one group only. |
| Grouping.GroupLicenses | main.go:203-211 | Groups all records by license hash, the empty hash included. The members add up to the number of records. |
| Grouping.GroupNotices | main.go:256-266 | Groups the records that have a notice hash by that hash, with line 263 as intended. |
| Grouping.NoNoticeNoGroup | main.go:258 | A record without a notice hash is in no notice group. |
| Grouping.SameGroupIffSameKey | main.go:203-211 | Two records share a group iff their keys are equal. For NOTICE (lines 256-266, as intended) this means: two records with notice hashes share a section iff their notice hashes are equal. |
| Grouping.NoticeMapAsWritten | main.go:256-266 | The map built as written never has the empty key, and every entry ends with a record carrying that entry's key. |
| Grouping.NoticeMapAsWrittenDropsRecord | main.go:259-263 | Counterexample: two unlicensed records share a notice hash. As written, the second one's entry is built from the (missing) entry of its license hash, so the first record drops out of the notice map. Every intended grouping keeps record 0 in that group. |
| Sorting.Less | main.go:41-43 | `Less(i, j)` holds only when the two license ids differ and the j-th is not `<` the i-th, so it is a strict order for `sort.Sort`. |
| Sorting.Swap | main.go:45-48 | Exchanges entries `i` and `j`, touches no other entry, and keeps the multiset. |
| Sorting.SmallestFrom | main.go:223 | Finds, with `Less`, a position at or after `i` whose license id is `<=` every later one. |
| Sorting.SortInfos | main.go:223 | Afterwards the infos are in non-decreasing license-id order and are a permutation of the input. |
| Naming.NewFileName | main.go:218 | A new name built from a path whose base is not "/" is a bare file name. It has no slash, and `filepath.Base` keeps it whole, as at line 228. |
| Naming.NewFileNameInjective | main.go:218 | When no part contains '_', equal new names come from equal base names and equal last two module segments. |
| Naming.GroupingNameable | main.go:215-218 | A grouping whose representatives have a slash in their module path can be named. |
| Naming.NamedReps | main.go:215-219 | Naming keeps the number of records. It changes no module path, version, license id, title or hash. |
| Naming.NamedRepsRenamesRepresentatives | main.go:217-218 | Every group's representative ends up renamed from its original record. |
| Naming.NamedRepsKeepsOthers | main.go:215-219 | A record that represents no group is left as it was. |
| Naming.NameRepresentatives | main.go:215-219 | The naming loop over the array yields exactly `NamedReps` of the old contents. Line 271-272 is the same loop. |
| Naming.RenameAt | main.go:217-218 | One iteration sets the representative's new license or notice name and changes nothing else. |
| Naming.RenamedKeepsKeys | main.go:218 | Renaming changes only the one new-name field. |
| Naming.HashInfos | main.go:221 | One info per license group: the group's hash and its representative's license id. |
| Render.Sprintf | main.go:202 | `fmt.Sprintf` output starts with the format's leading literal text followed by the first argument. With no arguments it is exactly the format's text. |
| Render.SectionTitle | main.go:228 | A LICENSE title starts with the title format's leading text and the representative's license id. A NOTICE title (line 280) starts with its format's leading text and the new notice name. |
| Render.LicenseText | main.go:181-233 | The LICENSE text starts with the project's own license followed by the formatted header. |
| Render.NoticeText | main.go:251-284 | The NOTICE text starts with the project's own notice followed by the formatted header. |
| Render.GoFormatsArities | main.go:183-200 | Each of the code's format strings has as many `%s` verbs as the code passes arguments. |
| Render.Find | main.go:227 | The `licenseMap` lookup finds the first group with the key. It returns `|groups|` when there is none. |
| Render.SectionOrder | main.go:226-227 | The k-th LICENSE section shows the group that the k-th info's hash looks up. |
| Render.AppendMemberLines | main.go:229-231 | The inner loop appends one `name (version)` line per member, in member order. |
| Render.AppendSection | main.go:227-231 | One section appended to the text is `WithSection`: the representative's title, then one line per member. The NOTICE loop does the same at lines 280-283. |
| Render.RenderLicense | main.go:202-233 | The `+=` loop produces `LicenseText`: own license, header, then one section per sorted info. |
| Render.RenderNotice | main.go:255-284 | The `+=` loop produces `NoticeText`: own notice, header, then one section per group in the map's iteration order. |
| Coverage.VisitingEachOnce | main.go:269 | An order that visits each group once lists as many records as the groups have members. It lists a record iff the record is in some group. |
| Coverage.HashInfosOrder | main.go:215-227 | Looking up the unsorted infos' hashes finds the groups in order. |
| Coverage.LicenseSectionsVisitEachOnce | main.go:223-227 | The sorted infos' lookups visit every license group exactly once. |
| Coverage.LicenseListsEveryRecordOnce | main.go:213-233 | The records the LICENSE sections list, in order, are exactly as many as there are records, and every record is among them. `Layout.LicenseLayout` shows that this list is the text's own member lines. |
| Coverage.LicenseSectionNames | main.go:221-228 | The k-th LICENSE title carries the k-th sorted info's license id, and its group's key is that info's hash. |
| Coverage.LicenseSectionsInNameOrder | main.go:223-228 | LICENSE section titles name license ids in non-decreasing order. |
| Coverage.NoticeListsExactlyNoticed | main.go:256-284 | The NOTICE sections list a record iff the record has a notice hash. `Layout.NoticeLayout` shows that this list is the text's own member lines. |
| Layout.PiecesLines | main.go:226-231 | Cutting the sections into pieces gives one title per visited group, in visiting order, and the member lines are exactly the listed records. |
| Layout.WithSectionsShows | main.go:226-233 | The `+=` accumulation of sections equals the accumulator followed by the shown pieces: each title is the representative's formatted title and each line is `name (version)` of its record. The same holds for NOTICE at lines 269-284. |
| Layout.LicenseLayout | main.go:202-233 | The LICENSE text is the own license, the header, and the shown pieces. The titles follow the sorted infos, there are as many member lines as records, and every record has a line. |
| Layout.NoticeLayout | main.go:255-284 | The NOTICE text is the own notice, the header, and the shown pieces. The titles follow the iteration order, and a record has a member line iff it has a notice hash. |
| Pipeline.OpenersNameable | main.go:217-218 | Each representative is the first record with its key. If every such opener has a slash in its path, the grouping can be named. |
| Pipeline.NamingChangesOnlyNames | main.go:218 | Naming keeps every record's module path, version, license id and title, and both hashes. |
| Pipeline.OutputLicense | main.go:203-233 | The LICENSE half:<br>• A license grouping of the input records.<br>• The array becomes `NamedReps` of the input.<br>• The infos are sorted and are a permutation of one info per group.<br>• The text is `LicenseText`.<br>• Every record is listed once. |
| Pipeline.WriteLicense | main.go:212-233 | On named records, it builds and sorts the infos and writes the LICENSE text. Every record gets exactly one line. |
| Pipeline.OutputNotice | main.go:255-284 | The NOTICE half:<br>• A notice grouping.<br>• The array becomes `NamedReps` of the input.<br>• Every group's copy guard holds.<br>• The text is `NoticeText` in the given iteration order.<br>• It lists exactly the records that have a notice hash. |
| Pipeline.OutputFile | main.go:172-286 | `outputFile` overall:<br>• Every record keeps its module path, version, license id and title, and both hashes.<br>• Both groupings are those of the input records.<br>• The array ends as the license naming followed by the notice naming of the input.<br>• The infos are sorted and are a permutation of one info per license group of the input.<br>• `license` is `LicenseText` of the license-named records in sorted-info order; `notice` is `NoticeText` of the final records in the given iteration order.<br>• LICENSE lists every record once, in sorted sections.<br>• NOTICE lists exactly the records with a notice hash. |
| Pipeline.HashInfosSameEntries | main.go:221 | Records that differ only in their new names give the same infos. |
| Pipeline.CopyGuardAsWritten | main.go:274 | As written, the guard panics (`None`) exactly when no license group has the notice key. |
| Pipeline.CopyGuardAsWrittenPanics | main.go:269-276 | Counterexample: a dependency with no detector output and a NOTICE file makes the guard index a missing `licenseMap` entry. |
| Pipeline.NamedNoticeRepsCopied | main.go:271-275 | After naming, the intended guard holds for every notice group, so every notice file is copied. |

## Left out

- Running `go list`, `go env`, `go mod download`, `licensee`, `ls | grep`
  and `cp`: their outputs are inputs, and the copies are not modelled. The
  `os.Chdir`/`os.Mkdir` calls and the hard-coded directory are not
  modelled either. Only the names the copies receive are modelled.
- `ioutil.WriteFile` of the two documents: the texts are returned instead.
  Reading the project's own LICENSE/NOTICE is an input string.
- SHA-1 and URL-safe base64: the hash is a parameter. It is assumed to
  give 28 characters for every input, the length of an encoded SHA-1
  digest.
- JSON navigation of the detector output: the fields the code reads are a
  `Detection` record.
- `main` and the `flag` parsing with its default paths: command-line
  plumbing.
- The commented-out license regex table.
- `Len`: it is `a.Length` of the info array.
- `filepath.Join`: modelled as '/'-concatenation of three components. Path
  cleaning of `..` and duplicate slashes is not modelled. `filepath.Base`
  is modelled in full for Unix paths.
- The order of Go map iteration:
  - The license infos are built in order of the groups' first appearance.
    They are sorted straight away, so only the order of infos with equal
    license ids depends on it. That order is not promised, since
    `sort.Sort` is not stable.
  - The notice sections follow an arbitrary order that visits each notice
    group once, given as an input.
- The notice loop names a group's representative just before writing its
  section. The model names all notice representatives first, then writes.
  A section reads only its own representative, so the text is the same.
- Behaviour a reader might expect but `main.go` does not have:
  - Sorted notice sections: the code does not sort them.
  - Excluding records without a resolved license: the code keeps them in
    a LICENSE section whose key is the empty hash.
  - Filtering on a 95% confidence level: it is only a flag passed to the
    detector, and the code reads no confidence value.
  - A tie-break between infos with equal license ids.
- Grouping.NoticeMapAsWritten: treats the `append` at main.go:263 as a
  value append. Go's `append(noticeMap[d.LicenseHash], ...)` may write into
  the spare capacity of the LICENSE-hash entry's backing array, so a later
  append to that entry can overwrite a NOTICE entry's last slot. Shared
  backing arrays are not modelled. With main.go:161 as written, no input
  reaches that case: a licensed record's two hashes coincide, and an
  unlicensed record appends to a nil slice. It needs line 161 corrected.
- Analysis.WithReadLicense: the corrected reading of main.go:149 stands
  alone. `AnalysedRecord` keeps the code as written there, since the other
  findings about main.go:263 and main.go:274 depend on the hash of no bytes.
- Analysis.RecordDiagnostics: models only the loop's own `Println` calls
  (main.go:136, 142, 155). `execCommand` also prints the output and the error
  of every failing command (main.go:85-86). An example is the exit status of
  `ls | grep` when a module has no NOTICE file. Those lines depend on
  processes the model does not run, so they are not modelled.
- Pipeline.OutputLicense: requires that every record opening a license
  group has a '/' in its module path. On any other opener, Go's
  `dNameTokens[len-2]` panics (main.go:217-218). The model does not
  describe that panic.
- Pipeline.OutputNotice: requires the same of every record opening a
  notice group (main.go:271-272), for the same reason.

## Findings

| source | as written | input that shows it | evidently intended | confidence | as-written member | corrected member |
|---|---|---|---|---|---|---|
| main.go:161 | The notice bytes are read from `dArr[i].LicensePath`. | Two modules whose LICENSE files are byte-identical and whose NOTICE files differ get the same notice hash and share one NOTICE section. | Read `dArr[i].NoticePath`, the file found on line 160. | high; not executed | Analysis.NoticeHashAsWrittenMerges | Analysis.AnalysedRecord |
| main.go:149 | The error of `ioutil.ReadFile` on the matched license file is ignored and the empty buffer is hashed. | Two matched modules whose license files cannot be read (for instance, unreadable permissions) get the same license hash, and one LICENSE section lists both under the first one's license id. | Check the error and leave the record unresolved, as for a module with no match. | medium; not executed | Analysis.UnreadableLicensesShareGroup | Analysis.ReadLicensesShareGroupOnlyIfRead |
| main.go:263 | Record `i` is appended to `noticeMap[d.LicenseHash]` and stored under its notice hash. | Two records with the same notice hash and an empty license hash: the notice map keeps only the second. While line 161 stays as written, licensed records are not affected, because their two hashes coincide. With line 274 also as written, the program then panics before NOTICE is written, unless that notice hash is also a license key (for example, the hash of no bytes when some matched license file is empty or unreadable). With line 274 corrected, the NOTICE lists only the second record. | Append to `noticeMap[d.NoticeHash]`. | high; not executed | Grouping.NoticeMapAsWrittenDropsRecord | Grouping.GroupNotices |
| main.go:274 | The copy guard reads `licenseMap[k][0]` for a notice key `k`. | A dependency for which `licensee` prints nothing and which has a NOTICE file. Its notice hash is the hash of no bytes. Unless some matched license file is itself empty or unreadable, that is not a license key, so indexing the nil slice panics. | Read `noticeMap[k][0]`, the representative just named. | high; not executed | Pipeline.CopyGuardAsWrittenPanics | Pipeline.NamedNoticeRepsCopied |
