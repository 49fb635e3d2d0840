/** `outputFile` (main.go:172-286): group the records by license hash, name
    each group's representative, sort one info per group by license id and
    write the LICENSE text; then group the records with a notice by notice
    hash, name each group's representative and write the NOTICE text. The
    order in which Go's `range` visits the notice map is an input. */
module Pipeline {
  import opened Strings
  import opened Deps
  import opened Grouping
  import opened Naming
  import opened Sorting
  import opened Render
  import opened Coverage

  /** Every record that is the first with its license hash has a slash in
      its module path (the code splits it and indexes `len-2`). */
  predicate LicenseOpenersSplittable(recs: seq<DependencyInfo>)
  {
    forall i :: 0 <= i < |recs| ==>
      (forall j :: 0 <= j < i ==> recs[j].licenseHash != recs[i].licenseHash) ==>
      '/' in recs[i].name
  }

  /** Every record that is the first with its non-empty notice hash has a
      slash in its module path. */
  predicate NoticeOpenersSplittable(recs: seq<DependencyInfo>)
  {
    forall i :: 0 <= i < |recs| ==>
      recs[i].noticeHash != "" && (forall j :: 0 <= j < i ==> recs[j].noticeHash != recs[i].noticeHash) ==>
      '/' in recs[i].name
  }

  /** A grouping's representatives are the first records with their key, so
      the openers' condition makes the grouping nameable. */
  lemma OpenersNameable(recs: seq<DependencyInfo>, groups: seq<Group>, forNotice: bool)
    requires IsGrouping(groups, Keys(recs, forNotice), forNotice)
    requires if forNotice then NoticeOpenersSplittable(recs) else LicenseOpenersSplittable(recs)
    ensures Nameable(recs, groups)
  {
    var keys := Keys(recs, forNotice);
    assert |keys| == |recs|;
    assert Representatives(groups, keys, forNotice);
    assert MembersCarryKey(groups, keys, |recs|);
    forall g | 0 <= g < |groups| && groups[g].members != [] && groups[g].members[0] < |recs|
      ensures '/' in recs[groups[g].members[0]].name
    {
      var i := groups[g].members[0];
      assert keys[i] == groups[g].key;
      assert Earliest(keys, groups[g].key, i);
      if forNotice {
        assert forall j :: 0 <= j < i ==> keys[j] != keys[i];
      } else {
        assert forall j :: 0 <= j < i ==> keys[j] != keys[i];
      }
    }
    GroupingNameable(recs, groups, forNotice);
  }

  /** `b` is `a` with at most the copied files' names changed. */
  predicate SameEntries(b: seq<DependencyInfo>, a: seq<DependencyInfo>)
  {
    |b| == |a| && forall i :: 0 <= i < |a| ==> SameEntry(b[i], a[i])
  }

  /** Naming representatives changes only the copied files' names. */
  lemma NamingChangesOnlyNames(recs: seq<DependencyInfo>, groups: seq<Group>, forNotice: bool)
    requires Nameable(recs, groups)
    ensures SameEntries(NamedReps(recs, groups, forNotice), recs)
  {
  }

  /** Two namings in a row keep what each keeps. */
  lemma SameEntriesCompose(a: seq<DependencyInfo>, b: seq<DependencyInfo>, c: seq<DependencyInfo>)
    requires SameEntries(b, a) && SameEntries(c, b)
    ensures SameEntries(c, a)
  {
  }

  /** Naming keeps both hashes of every record, so it keeps the grouping
      keys and the openers. */
  lemma NamingKeepsKeys(a: seq<DependencyInfo>, b: seq<DependencyInfo>)
    requires SameEntries(b, a)
    ensures LicenseKeys(a) == LicenseKeys(b) && NoticeKeys(a) == NoticeKeys(b)
    ensures NoticeOpenersSplittable(a) ==> NoticeOpenersSplittable(b)
  {
  }

  /** main.go:203-233: the LICENSE half. Groups by license hash, names the
      representatives, then writes the text. */
  method OutputLicense(selfLicense: string, project: string, dArr: array<DependencyInfo>)
    returns (license: string, groups: seq<Group>, infos: seq<LicenseHashInfo>)
    requires LicenseOpenersSplittable(dArr[..])
    modifies dArr
    ensures IsGrouping(groups, LicenseKeys(old(dArr[..])), false)
    ensures Nameable(old(dArr[..]), groups)
    ensures dArr[..] == NamedReps(old(dArr[..]), groups, false)
    ensures SameEntries(dArr[..], old(dArr[..]))
    ensures WellFormed(groups, dArr.Length) && InfosFound(groups, infos)
    ensures SortedByName(infos) && multiset(infos) == multiset(HashInfos(dArr[..], groups))
    ensures license == LicenseText(GoFormats, selfLicense, project, dArr[..], groups, infos)
    ensures |ListedRecords(groups, SectionOrder(groups, infos))| == dArr.Length
    ensures forall i :: 0 <= i < dArr.Length ==> i in ListedRecords(groups, SectionOrder(groups, infos))
  {
    ghost var orig := dArr[..];
    groups := GroupLicenses(dArr);
    OpenersNameable(orig, groups, false);
    NameRepresentatives(dArr, groups, false);
    NamingChangesOnlyNames(orig, groups, false);
    NamingKeepsKeys(orig, dArr[..]);
    license, infos := WriteLicense(selfLicense, project, dArr, groups);
  }

  /** main.go:212-233 after naming: one info per group (license id of the
      representative, license hash), sorted by license id, then the header
      and one section per info. Every record is listed exactly once. */
  method WriteLicense(selfLicense: string, project: string, dArr: array<DependencyInfo>, groups: seq<Group>)
    returns (license: string, infos: seq<LicenseHashInfo>)
    requires IsGrouping(groups, LicenseKeys(dArr[..]), false) && MemberCount(groups) == dArr.Length
    ensures WellFormed(groups, dArr.Length) && InfosFound(groups, infos)
    ensures SortedByName(infos) && multiset(infos) == multiset(HashInfos(dArr[..], groups))
    ensures license == LicenseText(GoFormats, selfLicense, project, dArr[..], groups, infos)
    ensures |ListedRecords(groups, SectionOrder(groups, infos))| == dArr.Length
    ensures forall i :: 0 <= i < dArr.Length ==> i in ListedRecords(groups, SectionOrder(groups, infos))
  {
    GroupingWellFormed(groups, LicenseKeys(dArr[..]), false);
    var hashInfos := HashInfos(dArr[..], groups);
    var infoArr := new LicenseHashInfo[|hashInfos|](k requires 0 <= k < |hashInfos| => hashInfos[k]);
    assert infoArr[..] == hashInfos;
    SortInfos(infoArr);
    infos := infoArr[..];
    LicenseListsEveryRecordOnce(dArr[..], groups, infos);
    GoFormatsArities();
    license := RenderLicense(GoFormats, selfLicense, project, dArr, groups, infoArr);
  }

  /** main.go:254-284: the NOTICE half. Groups the records with a notice by
      notice hash, names the representatives and renders the sections in
      the map's iteration order. The code names a representative just
      before writing its section; a section reads only its own
      representative, so naming them all first gives the same text. */
  method OutputNotice(selfNotice: string, project: string, dArr: array<DependencyInfo>,
                      iterationOrder: nat -> seq<nat>)
    returns (notice: string, groups: seq<Group>)
    requires NoticeOpenersSplittable(dArr[..])
    requires forall n :: VisitsEachOnce(iterationOrder(n), n)
    modifies dArr
    ensures IsGrouping(groups, NoticeKeys(old(dArr[..])), true)
    ensures Nameable(old(dArr[..]), groups)
    ensures dArr[..] == NamedReps(old(dArr[..]), groups, true)
    ensures SameEntries(dArr[..], old(dArr[..]))
    ensures WellFormed(groups, dArr.Length)
    ensures forall g :: 0 <= g < |groups| ==> CopyGuard(dArr[..], groups, g)
    ensures forall k :: 0 <= k < |iterationOrder(|groups|)| ==> iterationOrder(|groups|)[k] < |groups|
    ensures notice == NoticeText(GoFormats, selfNotice, project, dArr[..], groups, iterationOrder(|groups|))
    ensures forall i :: 0 <= i < dArr.Length ==>
      (i in ListedRecords(groups, iterationOrder(|groups|)) <==> dArr[i].noticeHash != "")
  {
    ghost var orig := dArr[..];
    groups := GroupNotices(dArr);
    OpenersNameable(orig, groups, true);
    NameRepresentatives(dArr, groups, true);
    NamingChangesOnlyNames(orig, groups, true);
    NamingKeepsKeys(orig, dArr[..]);
    assert IsGrouping(groups, NoticeKeys(dArr[..]), true);
    GroupingWellFormed(groups, NoticeKeys(dArr[..]), true);
    forall g | 0 <= g < |groups|
      ensures CopyGuard(dArr[..], groups, g)
    {
      NamedNoticeRepsCopied(orig, groups, g);
    }
    var order := iterationOrder(|groups|);
    VisitingEachOnce(groups, order, 0);
    forall i | 0 <= i < dArr.Length
      ensures i in ListedRecords(groups, order) <==> dArr[i].noticeHash != ""
    {
      NoticeListsExactlyNoticed(dArr[..], groups, order, i);
    }
    GoFormatsArities();
    notice := RenderNotice(GoFormats, selfNotice, project, dArr, groups, order);
  }

  /** `outputFile`: the LICENSE half, then the NOTICE half on the records
      the first half named. */
  method OutputFile(selfLicense: string, selfNotice: string, project: string, dArr: array<DependencyInfo>,
                    iterationOrder: nat -> seq<nat>)
    returns (license: string, notice: string,
             licenseGroups: seq<Group>, infos: seq<LicenseHashInfo>, noticeGroups: seq<Group>)
    requires LicenseOpenersSplittable(dArr[..]) && NoticeOpenersSplittable(dArr[..])
    requires forall n :: VisitsEachOnce(iterationOrder(n), n)
    modifies dArr
    ensures SameEntries(dArr[..], old(dArr[..]))
    ensures IsGrouping(licenseGroups, LicenseKeys(old(dArr[..])), false)
    ensures IsGrouping(noticeGroups, NoticeKeys(old(dArr[..])), true)
    ensures Nameable(old(dArr[..]), licenseGroups)
    ensures Nameable(NamedReps(old(dArr[..]), licenseGroups, false), noticeGroups)
    ensures dArr[..] == NamedReps(NamedReps(old(dArr[..]), licenseGroups, false), noticeGroups, true)
    ensures SortedByName(infos) && WellFormed(licenseGroups, dArr.Length) && InfosFound(licenseGroups, infos)
    ensures multiset(infos) == multiset(HashInfos(old(dArr[..]), licenseGroups))
    ensures license == LicenseText(GoFormats, selfLicense, project, NamedReps(old(dArr[..]), licenseGroups, false),
                                   licenseGroups, infos)
    ensures WellFormed(noticeGroups, dArr.Length)
    ensures forall k :: 0 <= k < |iterationOrder(|noticeGroups|)| ==> iterationOrder(|noticeGroups|)[k] < |noticeGroups|
    ensures notice == NoticeText(GoFormats, selfNotice, project, dArr[..], noticeGroups, iterationOrder(|noticeGroups|))
    ensures |ListedRecords(licenseGroups, SectionOrder(licenseGroups, infos))| == dArr.Length
    ensures forall i :: 0 <= i < dArr.Length ==> i in ListedRecords(licenseGroups, SectionOrder(licenseGroups, infos))
    ensures forall i :: 0 <= i < dArr.Length ==>
      (i in ListedRecords(noticeGroups, iterationOrder(|noticeGroups|)) <==> dArr[i].noticeHash != "")
  {
    ghost var orig := dArr[..];
    license, licenseGroups, infos := OutputLicense(selfLicense, project, dArr);
    NamingKeepsKeys(orig, dArr[..]);
    ghost var named := dArr[..];
    notice, noticeGroups := OutputNotice(selfNotice, project, dArr, iterationOrder);
    NamingKeepsKeys(named, dArr[..]);
    SameEntriesCompose(orig, named, dArr[..]);
    HashInfosSameEntries(orig, named, licenseGroups);
  }

  /** The infos read only the representatives' license ids, which naming
      keeps. */
  lemma HashInfosSameEntries(a: seq<DependencyInfo>, b: seq<DependencyInfo>, groups: seq<Group>)
    requires SameEntries(b, a)
    requires forall g :: 0 <= g < |groups| ==> groups[g].members != [] && groups[g].members[0] < |a|
    ensures HashInfos(a, groups) == HashInfos(b, groups)
  {
  }

  // ---------------------------------------------------------------------
  // The copy guard of the notice loop

  /** main.go:274 as written: it reads the first record of `licenseMap[k]`
      for the NOTICE key `k`. A Go map yields a nil slice for a missing key,
      and indexing it panics: `None` here. */
  function CopyGuardAsWritten(recs: seq<DependencyInfo>, licenseGroups: seq<Group>, k: string): (r: Option<bool>)
    requires WellFormed(licenseGroups, |recs|)
    ensures r.None? <==> forall g :: 0 <= g < |licenseGroups| ==> licenseGroups[g].key != k
  {
    var g := Find(licenseGroups, k);
    if g == |licenseGroups| then None
    else Some(recs[licenseGroups[g].members[0]].newNoticeName != "")
  }

  /** A single dependency for which the detector printed nothing but which
      has a NOTICE file: its license hash stays empty, its notice hash is the
      hash of the (unreadable, so empty) license path, and the guard looks up
      a license entry that does not exist. */
  lemma CopyGuardAsWrittenPanics()
    ensures var recs := [Listed("a/x", "v1").(noticePath := "/m/a/x@v1/NOTICE", noticeHash := "h")];
      && IsGrouping([Group("", [0])], LicenseKeys(recs), false)
      && IsGrouping([Group("h", [0])], NoticeKeys(recs), true)
      && CopyGuardAsWritten(recs, [Group("", [0])], "h").None?
  {
    var recs := [Listed("a/x", "v1").(noticePath := "/m/a/x@v1/NOTICE", noticeHash := "h")];
    assert LicenseKeys(recs) == [""];
    assert NoticeKeys(recs) == ["h"];
    SingleRecordGrouping([""], false);
    SingleRecordGrouping(["h"], true);
  }

  /** One record forms one group on its own. */
  lemma SingleRecordGrouping(keys: seq<string>, skipEmpty: bool)
    requires |keys| == 1 && (skipEmpty ==> keys[0] != "")
    ensures IsGrouping([Group(keys[0], [0])], keys, skipEmpty)
  {
    var groups := [Group(keys[0], [0])];
    assert Representatives(groups, keys, skipEmpty);
    assert MembersCarryKey(groups, keys, 1);
    assert Complete(groups, keys, skipEmpty, 1) by {
      assert 0 in groups[0].members;
    }
  }

  /** The guard as intended: the notice group's own representative has
      been given a file name. */
  predicate CopyGuard(recs: seq<DependencyInfo>, noticeGroups: seq<Group>, g: nat)
    requires g < |noticeGroups| && noticeGroups[g].members != [] && noticeGroups[g].members[0] < |recs|
  {
    recs[noticeGroups[g].members[0]].newNoticeName != ""
  }

  /** Naming the notice representatives makes the intended guard hold for
      every notice group, so every notice file is copied. */
  lemma NamedNoticeRepsCopied(recs: seq<DependencyInfo>, groups: seq<Group>, g: nat)
    requires Nameable(recs, groups) && g < |groups|
    ensures CopyGuard(NamedReps(recs, groups, true), groups, g)
  {
    NamedRepsRenamesRepresentatives(recs, groups, true, g);
  }
}
