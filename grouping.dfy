/** The "transpose" loops of `outputFile` (main.go:203-211 for licenses,
    main.go:256-266 for notices): every record's index is appended to the
    entry of its hash in a map from hash to `*DependencyInfo` entries. A Go map has no
    order; here the groups are kept in order of first appearance of their
    key, and a member is the record's index in the array. */
module Grouping {
  import opened Deps

  /** One map entry: the hash and the indices of the records carrying it, in
      the order they were appended. */
  datatype Group = Group(key: string, members: seq<nat>)

  /** Whether record `i` takes part: the notice loop skips empty hashes, the
      license loop does not. */
  predicate Included(keys: seq<string>, skipEmpty: bool, i: nat)
    requires i < |keys|
  {
    !skipEmpty || keys[i] != ""
  }

  /** No record before `i` carries `key`. */
  ghost predicate Earliest(keys: seq<string>, key: string, i: nat)
  {
    forall j :: 0 <= j < i && j < |keys| ==> keys[j] != key
  }

  /** Every group is non-empty, has a non-empty key when empty keys are
      skipped, and its first member is the earliest record with its key. */
  ghost predicate Representatives(groups: seq<Group>, keys: seq<string>, skipEmpty: bool)
  {
    forall g :: 0 <= g < |groups| ==>
      && groups[g].members != []
      && (skipEmpty ==> groups[g].key != "")
      && Earliest(keys, groups[g].key, groups[g].members[0])
  }

  /** Every member is one of the first `n` records and carries its group's key. */
  ghost predicate MembersCarryKey(groups: seq<Group>, keys: seq<string>, n: nat)
    requires n <= |keys|
  {
    forall g, m :: 0 <= g < |groups| && 0 <= m < |groups[g].members| ==>
      groups[g].members[m] < n && keys[groups[g].members[m]] == groups[g].key
  }

  /** Members are kept in input order. */
  ghost predicate MembersInOrder(groups: seq<Group>)
  {
    forall g, m1, m2 :: 0 <= g < |groups| && 0 <= m1 < m2 < |groups[g].members| ==>
      groups[g].members[m1] < groups[g].members[m2]
  }

  /** Keys are distinct, and groups are ordered by their first members. */
  ghost predicate DistinctKeysInOrder(groups: seq<Group>)
  {
    forall g1, g2 :: 0 <= g1 < g2 < |groups| ==>
      && groups[g1].members != [] && groups[g2].members != []
      && groups[g1].key != groups[g2].key
      && groups[g1].members[0] < groups[g2].members[0]
  }

  /** Every included record among the first `n` is in the group of its key. */
  ghost predicate Complete(groups: seq<Group>, keys: seq<string>, skipEmpty: bool, n: nat)
    requires n <= |keys|
  {
    forall i :: 0 <= i < n && Included(keys, skipEmpty, i) ==>
      exists g :: 0 <= g < |groups| && groups[g].key == keys[i] && i in groups[g].members
  }

  /** `groups` is the transpose of the first `n` keys. */
  ghost predicate GroupsUpTo(groups: seq<Group>, keys: seq<string>, skipEmpty: bool, n: nat)
    requires n <= |keys|
  {
    && Representatives(groups, keys, skipEmpty)
    && MembersCarryKey(groups, keys, n)
    && MembersInOrder(groups)
    && DistinctKeysInOrder(groups)
    && Complete(groups, keys, skipEmpty, n)
  }

  ghost predicate IsGrouping(groups: seq<Group>, keys: seq<string>, skipEmpty: bool)
  {
    GroupsUpTo(groups, keys, skipEmpty, |keys|)
  }

  /** The total number of members over all groups. */
  function MemberCount(groups: seq<Group>): nat
  {
    if groups == [] then 0
    else MemberCount(groups[..|groups| - 1]) + |groups[|groups| - 1].members|
  }

  /** The number of included records among the first `n`. */
  function IncludedCount(keys: seq<string>, skipEmpty: bool, n: nat): (c: nat)
    requires n <= |keys|
    ensures c <= n
    ensures !skipEmpty ==> c == n
  {
    if n == 0 then 0
    else IncludedCount(keys, skipEmpty, n - 1) + (if Included(keys, skipEmpty, n - 1) then 1 else 0)
  }

  lemma {:induction false} MemberCountUpdate(groups: seq<Group>, g: nat, x: Group)
    requires g < |groups|
    ensures MemberCount(groups[g := x])
         == MemberCount(groups) - |groups[g].members| + |x.members|
  {
    var n := |groups|;
    if g < n - 1 {
      assert groups[g := x][..n - 1] == groups[..n - 1][g := x];
      MemberCountUpdate(groups[..n - 1], g, x);
    } else {
      assert groups[g := x][..n - 1] == groups[..n - 1];
    }
  }

  lemma MemberCountSnoc(groups: seq<Group>, x: Group)
    ensures MemberCount(groups + [x]) == MemberCount(groups) + |x.members|
  {
    assert (groups + [x])[..|groups|] == groups;
  }

  /** A record belongs to one group only. */
  lemma OneGroupPerRecord(groups: seq<Group>, keys: seq<string>, skipEmpty: bool,
                          g1: nat, g2: nat, i: nat)
    requires IsGrouping(groups, keys, skipEmpty)
    requires g1 < |groups| && g2 < |groups|
    requires i in groups[g1].members && i in groups[g2].members
    ensures g1 == g2
  {
    var m1 :| 0 <= m1 < |groups[g1].members| && groups[g1].members[m1] == i;
    var m2 :| 0 <= m2 < |groups[g2].members| && groups[g2].members[m2] == i;
    assert keys[i] == groups[g1].key && keys[i] == groups[g2].key;
  }

  /** Adding record `i` to the existing group `g` of its key. */
  lemma AppendStep(groups: seq<Group>, keys: seq<string>, skipEmpty: bool, i: nat, g: nat)
    requires i < |keys| && Included(keys, skipEmpty, i)
    requires GroupsUpTo(groups, keys, skipEmpty, i)
    requires g < |groups| && groups[g].key == keys[i]
    ensures GroupsUpTo(groups[g := Group(keys[i], groups[g].members + [i])], keys, skipEmpty, i + 1)
  {
    var ng := groups[g := Group(keys[i], groups[g].members + [i])];
    assert forall h :: 0 <= h < |ng| ==> ng[h].key == groups[h].key;
    assert forall h :: 0 <= h < |ng| ==> ng[h].members[0] == groups[h].members[0];
    assert Representatives(ng, keys, skipEmpty);
    assert DistinctKeysInOrder(ng);
    AppendMembers(groups, keys, i, g);
    AppendComplete(groups, keys, skipEmpty, i, g);
  }

  lemma AppendMembers(groups: seq<Group>, keys: seq<string>, i: nat, g: nat)
    requires i < |keys|
    requires MembersCarryKey(groups, keys, i) && MembersInOrder(groups)
    requires g < |groups| && groups[g].key == keys[i]
    ensures var ng := groups[g := Group(keys[i], groups[g].members + [i])];
      MembersCarryKey(ng, keys, i + 1) && MembersInOrder(ng)
  {
    var ng := groups[g := Group(keys[i], groups[g].members + [i])];
    forall h, m | 0 <= h < |ng| && 0 <= m < |ng[h].members|
      ensures ng[h].members[m] < i + 1 && keys[ng[h].members[m]] == ng[h].key
    {
      if h != g || m < |groups[g].members| {
        assert ng[h].members[m] == groups[h].members[m];
      }
    }
    forall h, m1, m2 | 0 <= h < |ng| && 0 <= m1 < m2 < |ng[h].members|
      ensures ng[h].members[m1] < ng[h].members[m2]
    {
      assert ng[h].members[m1] == groups[h].members[m1];
      if h != g || m2 < |groups[g].members| {
        assert ng[h].members[m2] == groups[h].members[m2];
      }
    }
  }

  lemma AppendComplete(groups: seq<Group>, keys: seq<string>, skipEmpty: bool, i: nat, g: nat)
    requires i < |keys| && Included(keys, skipEmpty, i)
    requires Complete(groups, keys, skipEmpty, i)
    requires g < |groups| && groups[g].key == keys[i]
    ensures Complete(groups[g := Group(keys[i], groups[g].members + [i])], keys, skipEmpty, i + 1)
  {
    var ng := groups[g := Group(keys[i], groups[g].members + [i])];
    forall j | 0 <= j < i + 1 && Included(keys, skipEmpty, j)
      ensures exists h :: 0 <= h < |ng| && ng[h].key == keys[j] && j in ng[h].members
    {
      if j == i {
        assert ng[g].members == groups[g].members + [i];
        assert i in ng[g].members;
      } else {
        var h :| 0 <= h < |groups| && groups[h].key == keys[j] && j in groups[h].members;
        if h == g {
          assert ng[g].members == groups[g].members + [i];
        }
        assert j in ng[h].members;
      }
    }
  }

  /** Passing over record `i`, which the loop skips. */
  lemma SkipStep(groups: seq<Group>, keys: seq<string>, skipEmpty: bool, i: nat)
    requires i < |keys| && !Included(keys, skipEmpty, i)
    requires GroupsUpTo(groups, keys, skipEmpty, i)
    ensures GroupsUpTo(groups, keys, skipEmpty, i + 1)
  {
  }

  /** Opening a new group for record `i`, whose key no earlier record has. */
  lemma OpenStep(groups: seq<Group>, keys: seq<string>, skipEmpty: bool, i: nat)
    requires i < |keys| && Included(keys, skipEmpty, i)
    requires GroupsUpTo(groups, keys, skipEmpty, i)
    requires forall h :: 0 <= h < |groups| ==> groups[h].key != keys[i]
    ensures GroupsUpTo(groups + [Group(keys[i], [i])], keys, skipEmpty, i + 1)
  {
    var ng := groups + [Group(keys[i], [i])];
    forall j | 0 <= j < i
      ensures keys[j] != keys[i]
    {
      if keys[j] == keys[i] {
        assert Included(keys, skipEmpty, j);
        assert false;
      }
    }
    assert Earliest(keys, keys[i], i);
    assert Representatives(ng, keys, skipEmpty);
    assert MembersCarryKey(ng, keys, i + 1);
    assert MembersInOrder(ng);
    OpenComplete(groups, keys, skipEmpty, i);
    forall g1, g2 | 0 <= g1 < g2 < |ng|
      ensures ng[g1].key != ng[g2].key && ng[g1].members[0] < ng[g2].members[0]
    {
      if g2 < |groups| {
        assert ng[g1] == groups[g1] && ng[g2] == groups[g2];
      } else {
        assert ng[g1] == groups[g1];
      }
    }
  }

  lemma OpenComplete(groups: seq<Group>, keys: seq<string>, skipEmpty: bool, i: nat)
    requires i < |keys| && Included(keys, skipEmpty, i)
    requires Complete(groups, keys, skipEmpty, i)
    ensures Complete(groups + [Group(keys[i], [i])], keys, skipEmpty, i + 1)
  {
    var ng := groups + [Group(keys[i], [i])];
    forall j | 0 <= j < i + 1 && Included(keys, skipEmpty, j)
      ensures exists h :: 0 <= h < |ng| && ng[h].key == keys[j] && j in ng[h].members
    {
      if j == i {
        assert ng[|groups|].key == keys[j] && j in ng[|groups|].members;
      } else {
        var h :| 0 <= h < |groups| && groups[h].key == keys[j] && j in groups[h].members;
        assert ng[h] == groups[h];
      }
    }
  }

  /** The transpose loop: groups the records by `keys`, skipping empty keys
      when `skipEmpty` is set. */
  method GroupByKey(keys: seq<string>, skipEmpty: bool) returns (groups: seq<Group>)
    ensures IsGrouping(groups, keys, skipEmpty)
    ensures MemberCount(groups) == IncludedCount(keys, skipEmpty, |keys|)
  {
    groups := [];
    var index: map<string, nat> := map[];
    for i := 0 to |keys|
      invariant GroupsUpTo(groups, keys, skipEmpty, i)
      invariant MemberCount(groups) == IncludedCount(keys, skipEmpty, i)
      invariant Indexes(index, groups)
    {
      groups, index := GroupRecord(keys, skipEmpty, i, groups, index);
    }
  }

  /** One iteration of the transpose loop: a record without a key is passed
      over, any other is added to its key's group. */
  method GroupRecord(keys: seq<string>, skipEmpty: bool, i: nat,
                     groups: seq<Group>, index: map<string, nat>)
    returns (groups': seq<Group>, index': map<string, nat>)
    requires i < |keys|
    requires GroupsUpTo(groups, keys, skipEmpty, i)
    requires MemberCount(groups) == IncludedCount(keys, skipEmpty, i)
    requires Indexes(index, groups)
    ensures GroupsUpTo(groups', keys, skipEmpty, i + 1)
    ensures MemberCount(groups') == IncludedCount(keys, skipEmpty, i + 1)
    ensures Indexes(index', groups')
  {
    if skipEmpty && keys[i] == "" {
      SkipStep(groups, keys, skipEmpty, i);
      return groups, index;
    }
    groups', index' := AddRecord(keys, skipEmpty, i, groups, index);
  }

  /** `index` finds the position of each group by its key, as the Go map
      lookup does. */
  ghost predicate Indexes(index: map<string, nat>, groups: seq<Group>)
  {
    && (forall k :: k in index ==> index[k] < |groups| && groups[index[k]].key == k)
    && (forall h :: 0 <= h < |groups| ==> groups[h].key in index)
  }

  /** One iteration of the transpose loop for an included record: a new
      entry for a new key, otherwise an append to the key's entry. */
  method AddRecord(keys: seq<string>, skipEmpty: bool, i: nat,
                   groups: seq<Group>, index: map<string, nat>)
    returns (groups': seq<Group>, index': map<string, nat>)
    requires i < |keys| && Included(keys, skipEmpty, i)
    requires GroupsUpTo(groups, keys, skipEmpty, i)
    requires Indexes(index, groups)
    ensures GroupsUpTo(groups', keys, skipEmpty, i + 1)
    ensures Indexes(index', groups')
    ensures MemberCount(groups') == MemberCount(groups) + 1
  {
    var k := keys[i];
    if k !in index {
      OpenStep(groups, keys, skipEmpty, i);
      MemberCountSnoc(groups, Group(k, [i]));
      index' := index[k := |groups|];
      groups' := groups + [Group(k, [i])];
      IndexesSnoc(index, groups, Group(k, [i]));
    } else {
      var g := index[k];
      AppendStep(groups, keys, skipEmpty, i, g);
      MemberCountUpdate(groups, g, Group(k, groups[g].members + [i]));
      index' := index;
      groups' := groups[g := Group(k, groups[g].members + [i])];
      IndexesUpdate(index, groups, g, Group(k, groups[g].members + [i]));
    }
  }

  lemma IndexesSnoc(index: map<string, nat>, groups: seq<Group>, x: Group)
    requires Indexes(index, groups) && x.key !in index
    ensures Indexes(index[x.key := |groups|], groups + [x])
  {
  }

  lemma IndexesUpdate(index: map<string, nat>, groups: seq<Group>, g: nat, x: Group)
    requires Indexes(index, groups) && g < |groups| && x.key == groups[g].key
    ensures Indexes(index, groups[g := x])
  {
  }

  /** main.go:203-211: license groups over every record, the empty hash of
      an unresolved record included. */
  method GroupLicenses(dArr: array<DependencyInfo>) returns (groups: seq<Group>)
    ensures IsGrouping(groups, LicenseKeys(dArr[..]), false)
    ensures MemberCount(groups) == dArr.Length
  {
    groups := GroupByKey(LicenseKeys(dArr[..]), false);
  }

  /** main.go:256-266, with line 263 as intended: notice groups over the
      records whose notice hash is set. */
  method GroupNotices(dArr: array<DependencyInfo>) returns (groups: seq<Group>)
    ensures IsGrouping(groups, NoticeKeys(dArr[..]), true)
  {
    groups := GroupByKey(NoticeKeys(dArr[..]), true);
  }

  /** A record without a notice hash is in no notice group. */
  lemma NoNoticeNoGroup(groups: seq<Group>, recs: seq<DependencyInfo>, i: nat)
    requires IsGrouping(groups, NoticeKeys(recs), true)
    requires i < |recs| && recs[i].noticeHash == ""
    ensures forall g :: 0 <= g < |groups| ==> i !in groups[g].members
  {
    forall g, m | 0 <= g < |groups| && 0 <= m < |groups[g].members|
      ensures groups[g].members[m] != i
    {
      assert NoticeKeys(recs)[groups[g].members[m]] == groups[g].key != "";
    }
  }

  /** Two records, the first of them included, share a group exactly when
      they carry the same key. */
  lemma SameGroupIffSameKey(groups: seq<Group>, keys: seq<string>, skipEmpty: bool, i: nat, j: nat)
    requires IsGrouping(groups, keys, skipEmpty)
    requires i < |keys| && j < |keys| && Included(keys, skipEmpty, i)
    ensures (exists g :: 0 <= g < |groups| && i in groups[g].members && j in groups[g].members)
            <==> keys[i] == keys[j]
  {
    if exists g :: 0 <= g < |groups| && i in groups[g].members && j in groups[g].members {
      var g :| 0 <= g < |groups| && i in groups[g].members && j in groups[g].members;
      MemberHasKey(groups, keys, skipEmpty, g, i);
      MemberHasKey(groups, keys, skipEmpty, g, j);
    }
    if keys[i] == keys[j] {
      assert Complete(groups, keys, skipEmpty, |keys|);
      assert Included(keys, skipEmpty, j);
      var gi :| 0 <= gi < |groups| && groups[gi].key == keys[i] && i in groups[gi].members;
      var gj :| 0 <= gj < |groups| && groups[gj].key == keys[j] && j in groups[gj].members;
      assert DistinctKeysInOrder(groups);
      assert gi == gj;
    }
  }

  /** A member of a group carries the group's key. */
  lemma MemberHasKey(groups: seq<Group>, keys: seq<string>, skipEmpty: bool, g: nat, i: nat)
    requires IsGrouping(groups, keys, skipEmpty)
    requires g < |groups| && i in groups[g].members
    ensures i < |keys| && keys[i] == groups[g].key
  {
    assert MembersCarryKey(groups, keys, |keys|);
    var m :| 0 <= m < |groups[g].members| && groups[g].members[m] == i;
  }

  /** The value of a Go map entry; a missing entry reads as a nil slice. */
  function Lookup(m: map<string, seq<nat>>, k: string): seq<nat>
  {
    if k in m then m[k] else []
  }

  /** The notice map as main.go:256-266 builds it: line 263 appends record
      `i` to the entry of its LICENSE hash and stores the result under its
      notice hash. */
  function NoticeMapAsWritten(recs: seq<DependencyInfo>): (m: map<string, seq<nat>>)
    ensures "" !in m
    ensures EntriesEndWithKey(m, recs)
  {
    if recs == [] then map[]
    else
      var n := |recs|;
      var m := NoticeMapAsWritten(recs[..n - 1]);
      var d := recs[n - 1];
      EntriesEndWithKeyExtend(m, recs[..n - 1], recs);
      if d.noticeHash == "" then m
      else
        var entry := if d.noticeHash !in m then [n - 1] else Lookup(m, d.licenseHash) + [n - 1];
        EntriesEndWithKeyUpdate(m, recs, d.noticeHash, entry);
        m[d.noticeHash := entry]
  }

  /** Storing an entry that ends with a record carrying its key keeps every
      entry ending that way. */
  lemma EntriesEndWithKeyUpdate(m: map<string, seq<nat>>, recs: seq<DependencyInfo>, k: string, entry: seq<nat>)
    requires EntriesEndWithKey(m, recs)
    requires entry != [] && entry[|entry| - 1] < |recs| && recs[entry[|entry| - 1]].noticeHash == k
    ensures EntriesEndWithKey(m[k := entry], recs)
  {
  }

  /** Every entry is non-empty and ends with a record that carries the
      entry's key: the record appended last. */
  ghost predicate EntriesEndWithKey(m: map<string, seq<nat>>, recs: seq<DependencyInfo>)
  {
    forall k :: k in m ==>
      m[k] != [] && m[k][|m[k]| - 1] < |recs| && recs[m[k][|m[k]| - 1]].noticeHash == k
  }

  /** Entries that end with a key-carrying record keep doing so when more
      records follow. */
  lemma EntriesEndWithKeyExtend(m: map<string, seq<nat>>, init: seq<DependencyInfo>, recs: seq<DependencyInfo>)
    requires EntriesEndWithKey(m, init) && |init| <= |recs| && init == recs[..|init|]
    ensures EntriesEndWithKey(m, recs)
  {
    forall k | k in m
      ensures m[k] != [] && m[k][|m[k]| - 1] < |recs| && recs[m[k][|m[k]| - 1]].noticeHash == k
    {
      assert init[m[k][|m[k]| - 1]] == recs[m[k][|m[k]| - 1]];
    }
  }

  /** Two records with the same notice file and no license: as written the
      second one overwrites the first in the notice map, so the first is in
      no NOTICE section; the intended grouping keeps both. */
  lemma NoticeMapAsWrittenDropsRecord()
    ensures var recs := [Listed("a/x", "v1").(noticeHash := "n"),
                         Listed("a/y", "v1").(noticeHash := "n")];
      && NoticeMapAsWritten(recs) == map["n" := [1]]
      && forall groups: seq<Group> :: IsGrouping(groups, NoticeKeys(recs), true) ==>
           exists g :: 0 <= g < |groups| && groups[g].key == "n" && 0 in groups[g].members
  {
    var recs := [Listed("a/x", "v1").(noticeHash := "n"),
                 Listed("a/y", "v1").(noticeHash := "n")];
    assert recs[..1][..0] == [];
    assert recs[..1] == [recs[0]];
    assert NoticeMapAsWritten(recs[..1]) == map["n" := [0]];
    assert recs[..|recs| - 1] == recs[..1];
    assert recs[1].noticeHash == "n" && recs[1].licenseHash == "";
    assert "n" in NoticeMapAsWritten(recs[..1]);
    assert Lookup(map["n" := [0]], "") == [];
    assert NoticeMapAsWritten(recs) == map["n" := [0]]["n" := [] + [1]];
    assert [] + [1] == [1];
    assert map["n" := [0]]["n" := [1]] == map["n" := [1]];
    forall groups: seq<Group> | IsGrouping(groups, NoticeKeys(recs), true)
      ensures exists g :: 0 <= g < |groups| && groups[g].key == "n" && 0 in groups[g].members
    {
      assert Included(NoticeKeys(recs), true, 0);
    }
  }
}
