/** Naming of each group's representative (main.go:215-218 for licenses,
    main.go:271-272 for notices): the representative is the group's first
    member, and its copied file is named after the base name of its file
    and the last two segments of its module path. */
module Naming {
  import opened Strings
  import opened Deps
  import opened Grouping

  /** `filepath.Base(path) + "_" + tokens[len-2] + "_" + tokens[len-1]` with
      `tokens` the module path split on '/'. */
  function NewFileName(path: string, moduleName: string): (r: string)
    requires '/' in moduleName
    // the name is a bare file name: `filepath.Base` at main.go:228 keeps it whole
    ensures Base(path) != "/" ==> '/' !in r && Base(r) == r
  {
    var b := Base(path);
    var segs := LastTwoSegments(moduleName);
    var r := b + "_" + segs.0 + "_" + segs.1;
    assert b != "/" ==> '/' !in r by {
      if b != "/" {
        assert forall k :: 0 <= k < |r| ==> r[k] != '/' by {
          forall k | 0 <= k < |r| ensures r[k] != '/' {
            if k < |b| { assert r[k] == b[k]; }
            else if k == |b| { }
            else if k < |b| + 1 + |segs.0| { assert r[k] == segs.0[k - |b| - 1]; }
            else if k == |b| + 1 + |segs.0| { }
            else { assert r[k] == segs.1[k - |b| - 2 - |segs.0|]; }
          }
        }
      }
    }
    r
  }

  /** Joining three pieces with a separator. */
  lemma JoinThree(a: string, b: string, c: string, sep: char)
    ensures Join([a, b, c], sep) == a + [sep] + b + [sep] + c
  {
    assert [a, b, c][1..] == [b, c];
    assert [b, c][1..] == [c];
    assert Join([c], sep) == c;
    assert Join([b, c], sep) == b + [sep] + c;
  }

  /** When neither the file's base name nor the two module segments contain
      '_', the new name determines all three: representatives named alike
      come from files with the same base name in modules whose paths end in
      the same two segments. */
  lemma NewFileNameInjective(path1: string, name1: string, path2: string, name2: string)
    requires '/' in name1 && '/' in name2
    requires '_' !in Base(path1) && '_' !in LastTwoSegments(name1).0 && '_' !in LastTwoSegments(name1).1
    requires '_' !in Base(path2) && '_' !in LastTwoSegments(name2).0 && '_' !in LastTwoSegments(name2).1
    requires NewFileName(path1, name1) == NewFileName(path2, name2)
    ensures Base(path1) == Base(path2)
    ensures LastTwoSegments(name1) == LastTwoSegments(name2)
  {
    var s1, s2 := LastTwoSegments(name1), LastTwoSegments(name2);
    var parts1, parts2 := [Base(path1), s1.0, s1.1], [Base(path2), s2.0, s2.1];
    JoinThree(Base(path1), s1.0, s1.1, '_');
    JoinThree(Base(path2), s2.0, s2.1, '_');
    assert Join(parts1, '_') == Join(parts2, '_');
    SplitJoin(parts1, '_');
    SplitJoin(parts2, '_');
    assert parts1 == parts2;
  }

  /** The record with its new file name set: the license copy's name for a
      license group, the notice copy's name for a notice group. */
  function Renamed(d: DependencyInfo, forNotice: bool): (r: DependencyInfo)
    requires '/' in d.name
  {
    if forNotice then d.(newNoticeName := NewFileName(d.noticePath, d.name))
    else d.(newLicenseName := NewFileName(d.licensePath, d.name))
  }

  /** Everything naming does not touch is the same: module path, version,
      license id and title, and both hashes. */
  predicate SameEntry(a: DependencyInfo, b: DependencyInfo)
  {
    && a.name == b.name && a.version == b.version
    && a.licenseName == b.licenseName && a.licenseFullName == b.licenseFullName
    && a.licenseHash == b.licenseHash && a.noticeHash == b.noticeHash
  }

  /** The grouping keys: notice hashes for notice groups, license hashes
      otherwise. */
  function Keys(recs: seq<DependencyInfo>, forNotice: bool): seq<string>
  {
    if forNotice then NoticeKeys(recs) else LicenseKeys(recs)
  }

  /** Each group has a first member, these representatives are records of
      `recs` in strictly increasing order, and each has a module path with a
      slash (the code indexes `len-2` of the split path, which panics
      otherwise). */
  predicate Nameable(recs: seq<DependencyInfo>, groups: seq<Group>)
  {
    && (forall g :: 0 <= g < |groups| ==>
      groups[g].members != [] && groups[g].members[0] < |recs| && '/' in recs[groups[g].members[0]].name)
    && (forall g, h :: 0 <= h < g < |groups| && groups[h].members != [] && groups[g].members != [] ==>
      groups[h].members[0] < groups[g].members[0])
  }

  /** A grouping of the records whose representatives all have a slash in
      their module path is nameable. */
  lemma GroupingNameable(recs: seq<DependencyInfo>, groups: seq<Group>, forNotice: bool)
    requires IsGrouping(groups, Keys(recs, forNotice), forNotice)
    requires forall g :: 0 <= g < |groups| && groups[g].members != [] && groups[g].members[0] < |recs| ==>
      '/' in recs[groups[g].members[0]].name
    ensures Nameable(recs, groups)
  {
    assert |Keys(recs, forNotice)| == |recs|;
    assert MembersCarryKey(groups, Keys(recs, forNotice), |recs|);
    assert Representatives(groups, Keys(recs, forNotice), forNotice);
    forall g | 0 <= g < |groups|
      ensures groups[g].members != [] && groups[g].members[0] < |recs|
    {
      assert groups[g].members != [];
      assert 0 < |groups[g].members|;
    }
    assert DistinctKeysInOrder(groups);
  }

  /** The records after naming the representatives of `groups`, one group
      after the other. */
  function NamedReps(recs: seq<DependencyInfo>, groups: seq<Group>, forNotice: bool): (r: seq<DependencyInfo>)
    requires Nameable(recs, groups)
    ensures |r| == |recs|
    ensures forall i :: 0 <= i < |recs| ==> SameEntry(r[i], recs[i])
    decreases |groups|
  {
    if groups == [] then recs
    else
      var n := |groups|;
      assert Nameable(recs, groups[..n - 1]);
      var prev := NamedReps(recs, groups[..n - 1], forNotice);
      var rep := groups[n - 1].members[0];
      prev[rep := Renamed(prev[rep], forNotice)]
  }

  /** Naming renames every representative once, from its original record. */
  lemma {:induction false} NamedRepsRenamesRepresentatives(recs: seq<DependencyInfo>, groups: seq<Group>, forNotice: bool, g: nat)
    requires Nameable(recs, groups)
    requires g < |groups|
    ensures NamedReps(recs, groups, forNotice)[groups[g].members[0]] == Renamed(recs[groups[g].members[0]], forNotice)
    decreases |groups|
  {
    var n := |groups|;
    var init := groups[..n - 1];
    assert Nameable(recs, init);
    if g == n - 1 {
      NamedRepsRenamesLast(recs, groups, forNotice);
    } else {
      assert init[g] == groups[g];
      NamedRepsRenamesRepresentatives(recs, init, forNotice, g);
      NamedRepsKeepsEarlier(recs, groups, forNotice, groups[g].members[0]);
    }
  }

  /** The last group's representative is renamed from its original record. */
  lemma NamedRepsRenamesLast(recs: seq<DependencyInfo>, groups: seq<Group>, forNotice: bool)
    requires Nameable(recs, groups) && groups != []
    ensures NamedReps(recs, groups, forNotice)[groups[|groups| - 1].members[0]]
         == Renamed(recs[groups[|groups| - 1].members[0]], forNotice)
  {
    var n := |groups|;
    var init := groups[..n - 1];
    assert Nameable(recs, init);
    var rep := groups[n - 1].members[0];
    forall h | 0 <= h < |init|
      ensures init[h].members[0] != rep
    {
      assert init[h] == groups[h];
    }
    NamedRepsKeepsOthers(recs, init, forNotice, rep);
  }

  /** Naming the last group leaves the records before its representative
      as the earlier groups left them. */
  lemma NamedRepsKeepsEarlier(recs: seq<DependencyInfo>, groups: seq<Group>, forNotice: bool, i: nat)
    requires Nameable(recs, groups) && groups != []
    requires i < groups[|groups| - 1].members[0]
    ensures Nameable(recs, groups[..|groups| - 1])
    ensures NamedReps(recs, groups, forNotice)[i] == NamedReps(recs, groups[..|groups| - 1], forNotice)[i]
  {
    assert Nameable(recs, groups[..|groups| - 1]);
  }

  /** Naming leaves every record that represents no group as it was. */
  lemma {:induction false} NamedRepsKeepsOthers(recs: seq<DependencyInfo>, groups: seq<Group>, forNotice: bool, i: nat)
    requires Nameable(recs, groups)
    requires i < |recs|
    requires forall g :: 0 <= g < |groups| ==> groups[g].members[0] != i
    ensures NamedReps(recs, groups, forNotice)[i] == recs[i]
    decreases |groups|
  {
    if groups != [] {
      var n := |groups|;
      var init := groups[..n - 1];
      assert Nameable(recs, init);
      assert groups[n - 1].members[0] != i;
      assert forall g :: 0 <= g < |init| ==> init[g] == groups[g];
      NamedRepsKeepsOthers(recs, init, forNotice, i);
    }
  }

  lemma NameablePrefix(recs: seq<DependencyInfo>, groups: seq<Group>, k: nat)
    requires Nameable(recs, groups) && k <= |groups|
    ensures Nameable(recs, groups[..k])
  {
  }

  /** Naming one more group renames its representative, whose module path
      still has its slash. */
  lemma NamedRepsStep(recs: seq<DependencyInfo>, groups: seq<Group>, forNotice: bool, g: nat)
    requires Nameable(recs, groups) && g < |groups|
    ensures Nameable(recs, groups[..g]) && Nameable(recs, groups[..g + 1])
    ensures var prev := NamedReps(recs, groups[..g], forNotice);
      var rep := groups[g].members[0];
      && rep < |prev| && '/' in prev[rep].name
      && NamedReps(recs, groups[..g + 1], forNotice) == prev[rep := Renamed(prev[rep], forNotice)]
  {
    NameablePrefix(recs, groups, g);
    NameablePrefix(recs, groups, g + 1);
    assert groups[..g + 1][..g] == groups[..g];
  }

  /** The naming loop: the representatives of the groups are renamed in
      group order. */
  method NameRepresentatives(dArr: array<DependencyInfo>, groups: seq<Group>, forNotice: bool)
    requires Nameable(dArr[..], groups)
    modifies dArr
    ensures dArr[..] == NamedReps(old(dArr[..]), groups, forNotice)
  {
    ghost var before := dArr[..];
    for g := 0 to |groups|
      invariant Nameable(before, groups[..g]) && dArr[..] == NamedReps(before, groups[..g], forNotice)
    {
      NameGroup(dArr, before, groups, g, forNotice);
    }
    assert groups[..|groups|] == groups;
  }

  /** One iteration of the naming loop, from the records before naming
      group `g` to the records after it. */
  method NameGroup(dArr: array<DependencyInfo>, ghost recs: seq<DependencyInfo>, groups: seq<Group>, g: nat, forNotice: bool)
    requires Nameable(recs, groups) && g < |groups|
    requires Nameable(recs, groups[..g]) && dArr[..] == NamedReps(recs, groups[..g], forNotice)
    modifies dArr
    ensures Nameable(recs, groups[..g + 1]) && dArr[..] == NamedReps(recs, groups[..g + 1], forNotice)
  {
    var rep := groups[g].members[0];
    NamedRepsStep(recs, groups, forNotice, g);
    RenameAt(dArr, rep, forNotice);
  }

  /** One iteration of the naming loop: the representative at `rep` gets the
      name built from its file's base name and the last two tokens of its
      module path. */
  method RenameAt(dArr: array<DependencyInfo>, rep: nat, forNotice: bool)
    requires rep < dArr.Length && '/' in dArr[rep].name
    modifies dArr
    ensures dArr[..] == old(dArr[..])[rep := Renamed(old(dArr[rep]), forNotice)]
  {
    var d := dArr[rep];
    var tokens := Split(d.name, '/');
    SplitEndsInTwo(d.name);
    var base := Base(if forNotice then d.noticePath else d.licensePath);
    var name := base + "_" + tokens[|tokens| - 2] + "_" + tokens[|tokens| - 1];
    assert name == NewFileName(if forNotice then d.noticePath else d.licensePath, d.name);
    if forNotice {
      dArr[rep] := d.(newNoticeName := name);
    } else {
      dArr[rep] := d.(newLicenseName := name);
    }
  }

  /** Naming changes no hash, path, license id or title, name or version:
      the grouping still describes the records. */
  lemma RenamedKeepsKeys(d: DependencyInfo, forNotice: bool)
    requires '/' in d.name
    ensures var r := Renamed(d, forNotice);
      && r.name == d.name && r.version == d.version
      && r.licenseHash == d.licenseHash && r.noticeHash == d.noticeHash
      && r.licenseName == d.licenseName && r.licenseFullName == d.licenseFullName
      && r.licensePath == d.licensePath && r.noticePath == d.noticePath
      && (forNotice ==> r.newLicenseName == d.newLicenseName)
      && (!forNotice ==> r.newNoticeName == d.newNoticeName)
  {
  }

  /** One `LicenseHashInfo` per license group (main.go:221): the group's hash
      and its representative's license id. */
  function HashInfos(recs: seq<DependencyInfo>, groups: seq<Group>): (infos: seq<LicenseHashInfo>)
    requires forall g :: 0 <= g < |groups| ==> groups[g].members != [] && groups[g].members[0] < |recs|
    ensures |infos| == |groups|
    ensures forall g :: 0 <= g < |groups| ==>
      infos[g] == LicenseHashInfo(recs[groups[g].members[0]].licenseName, groups[g].key)
  {
    seq(|groups|, g requires 0 <= g < |groups| =>
      LicenseHashInfo(recs[groups[g].members[0]].licenseName, groups[g].key))
  }
}
