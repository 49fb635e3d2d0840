/** What the rendered documents list. The LICENSE sections follow the
    sorted infos, which are a permutation of one info per license group, so
    they show every group once: there are as many member lines as records,
    and every record has one (main.go:213-233). The NOTICE sections show
    every notice group once, so exactly the records with a notice hash get
    a line (main.go:256-284). The LICENSE titles carry the infos' license
    ids, so they appear in sorted order. */
module Coverage {
  import opened Deps
  import opened Grouping
  import opened Naming
  import opened Sorting
  import opened Render

  // ---------------------------------------------------------------------
  // Permutations

  /** Taking out the element at `j` takes one of it out of the multiset. */
  lemma RemoveAt<T>(b: seq<T>, j: nat)
    requires j < |b|
    ensures b == b[..j] + ([b[j]] + b[j + 1..])
    ensures multiset(b[..j] + b[j + 1..]) == multiset(b) - multiset{b[j]}
  {
    assert b == b[..j] + ([b[j]] + b[j + 1..]);
  }

  /** A permutation of a non-empty sequence holds its first element somewhere. */
  lemma FirstFound<T>(a: seq<T>, b: seq<T>) returns (j: nat)
    requires multiset(a) == multiset(b) && a != []
    ensures j < |b| && b[j] == a[0]
    ensures multiset(a[1..]) == multiset(b[..j] + b[j + 1..])
  {
    assert a[0] in multiset(b);
    j :| 0 <= j < |b| && b[j] == a[0];
    RemoveAt(b, j);
    assert a == [a[0]] + a[1..];
  }

  lemma MapSeqAppend<T, U>(p: seq<T>, q: seq<T>, f: T -> U)
    ensures MapSeq(p + q, f) == MapSeq(p, f) + MapSeq(q, f)
  {
  }

  /** Mapping a function over two permutations of each other gives two
      permutations of each other. */
  lemma {:induction false} MapPerm<T, U>(a: seq<T>, b: seq<T>, f: T -> U)
    requires multiset(a) == multiset(b)
    ensures multiset(MapSeq(a, f)) == multiset(MapSeq(b, f))
    decreases |a|
  {
    if a == [] {
      assert |b| == |multiset(b)| == 0;
    } else {
      var j := FirstFound(a, b);
      var x, p, q := a[0], b[..j], b[j + 1..];
      MapPerm(a[1..], p + q, f);
      assert a == [x] + a[1..];
      MapSeqAppend([x], a[1..], f);
      RemoveAt(b, j);
      MapSeqAppend(p, [x] + q, f);
      MapSeqAppend([x], q, f);
      MapSeqAppend(p, q, f);
      calc {
        multiset(MapSeq(a, f));
        multiset(MapSeq([x], f)) + multiset(MapSeq(a[1..], f));
        multiset(MapSeq([x], f)) + multiset(MapSeq(p, f)) + multiset(MapSeq(q, f));
        multiset(MapSeq(b, f));
      }
    }
  }

  /** The records listed by two orders one after the other. */
  lemma {:induction false} ListedRecordsAppend(groups: seq<Group>, a: seq<nat>, b: seq<nat>)
    ensures ListedRecords(groups, a + b) == ListedRecords(groups, a) + ListedRecords(groups, b)
  {
    if a == [] {
      assert a + b == b;
    } else {
      assert (a + b)[1..] == a[1..] + b;
      ListedRecordsAppend(groups, a[1..], b);
    }
  }

  /** Visiting the same groups in another order lists the same records,
      each as often. */
  lemma {:induction false} ListedRecordsPerm(groups: seq<Group>, a: seq<nat>, b: seq<nat>)
    requires multiset(a) == multiset(b)
    ensures multiset(ListedRecords(groups, a)) == multiset(ListedRecords(groups, b))
    decreases |a|
  {
    if a == [] {
      assert |b| == |multiset(b)| == 0;
    } else {
      var j := FirstFound(a, b);
      var x, p, q := a[0], b[..j], b[j + 1..];
      ListedRecordsPerm(groups, a[1..], p + q);
      assert a == [x] + a[1..];
      RemoveAt(b, j);
      ListedRecordsMove(groups, x, a[1..], p, q);
    }
  }

  /** The step of the permutation proof: putting `x` in front of both sides,
      at the front on one and between `p` and `q` on the other. */
  lemma ListedRecordsMove(groups: seq<Group>, x: nat, r: seq<nat>, p: seq<nat>, q: seq<nat>)
    requires multiset(ListedRecords(groups, r)) == multiset(ListedRecords(groups, p + q))
    ensures multiset(ListedRecords(groups, [x] + r)) == multiset(ListedRecords(groups, p + ([x] + q)))
  {
    ListedRecordsAppend(groups, [x], r);
    ListedRecordsAppend(groups, p, [x] + q);
    ListedRecordsAppend(groups, [x], q);
    ListedRecordsAppend(groups, p, q);
  }

  // ---------------------------------------------------------------------
  // Listing every group once

  /** A record is listed exactly when some visited group has it as a member. */
  lemma {:induction false} ListedRecordsMembers(groups: seq<Group>, order: seq<nat>, i: nat)
    ensures i in ListedRecords(groups, order) <==>
      exists k :: 0 <= k < |order| && i in MembersOf(groups, order[k])
  {
    if order != [] {
      ListedRecordsMembers(groups, order[1..], i);
      if i in ListedRecords(groups, order[1..]) {
        var k :| 0 <= k < |order[1..]| && i in MembersOf(groups, order[1..][k]);
        assert order[k + 1] == order[1..][k];
      }
      if exists k :: 0 <= k < |order| && i in MembersOf(groups, order[k]) {
        var k :| 0 <= k < |order| && i in MembersOf(groups, order[k]);
        if k > 0 {
          assert order[1..][k - 1] == order[k];
        }
      }
    }
  }

  /** Visiting the groups in their own order lists as many records as they
      have members. */
  lemma {:induction false} ListedRecordsRange(groups: seq<Group>, n: nat)
    requires n <= |groups|
    ensures |ListedRecords(groups, Range(n))| == MemberCount(groups[..n])
  {
    if n > 0 {
      ListedRecordsRange(groups, n - 1);
      assert Range(n) == Range(n - 1) + [n - 1];
      ListedRecordsAppend(groups, Range(n - 1), [n - 1]);
      assert ListedRecords(groups, [n - 1]) == MembersOf(groups, n - 1) + ListedRecords(groups, []);
      assert groups[..n][..n - 1] == groups[..n - 1];
    }
  }

  /** An order that visits each group once lists as many records as the
      groups have members, and lists a record exactly when it is a member of
      some group. */
  lemma VisitingEachOnce(groups: seq<Group>, order: seq<nat>, i: nat)
    requires VisitsEachOnce(order, |groups|)
    ensures forall k :: 0 <= k < |order| ==> order[k] < |groups|
    ensures |ListedRecords(groups, order)| == MemberCount(groups)
    ensures i in ListedRecords(groups, order) <==>
      exists g :: 0 <= g < |groups| && i in groups[g].members
  {
    forall k | 0 <= k < |order|
      ensures order[k] < |groups|
    {
      assert order[k] in multiset(Range(|groups|));
    }
    ListedRecordsPerm(groups, order, Range(|groups|));
    assert |ListedRecords(groups, order)| == |multiset(ListedRecords(groups, order))|;
    ListedRecordsRange(groups, |groups|);
    assert groups[..|groups|] == groups;
    ListedRecordsMembers(groups, order, i);
    if exists g :: 0 <= g < |groups| && i in groups[g].members {
      var g :| 0 <= g < |groups| && i in groups[g].members;
      assert g in multiset(order) by {
        assert Range(|groups|)[g] == g;
      }
      var k :| 0 <= k < |order| && order[k] == g;
    }
  }

  // ---------------------------------------------------------------------
  // The license sections

  /** A grouping is well formed for rendering. */
  lemma GroupingWellFormed(groups: seq<Group>, keys: seq<string>, skipEmpty: bool)
    requires IsGrouping(groups, keys, skipEmpty)
    ensures WellFormed(groups, |keys|)
  {
    assert Representatives(groups, keys, skipEmpty);
    assert MembersCarryKey(groups, keys, |keys|);
  }

  /** Looking up a group's own key finds that group: keys are distinct. */
  lemma FindOwnKey(groups: seq<Group>, g: nat)
    requires DistinctKeysInOrder(groups) && g < |groups|
    ensures Find(groups, groups[g].key) == g
  {
    var f := Find(groups, groups[g].key);
    if f < g {
      assert false;
    }
  }

  /** In the order of the groups themselves, one info per group looks up
      each group in turn. */
  lemma HashInfosOrder(recs: seq<DependencyInfo>, groups: seq<Group>)
    requires DistinctKeysInOrder(groups)
    requires forall g :: 0 <= g < |groups| ==> groups[g].members != [] && groups[g].members[0] < |recs|
    ensures SectionOrder(groups, HashInfos(recs, groups)) == Range(|groups|)
  {
    forall g | 0 <= g < |groups|
      ensures SectionOrder(groups, HashInfos(recs, groups))[g] == g
    {
      FindOwnKey(groups, g);
    }
  }

  /** The facts the LICENSE lemmas start from: a grouping of the records by
      license hash, and infos that are a permutation of one info per group. */
  predicate LicenseInputs(recs: seq<DependencyInfo>, groups: seq<Group>, infos: seq<LicenseHashInfo>)
  {
    && (forall g :: 0 <= g < |groups| ==> groups[g].members != [] && groups[g].members[0] < |recs|)
    && multiset(infos) == multiset(HashInfos(recs, groups))
  }

  /** The sorted infos look up every license group exactly once. */
  lemma LicenseSectionsVisitEachOnce(recs: seq<DependencyInfo>, groups: seq<Group>, infos: seq<LicenseHashInfo>)
    requires IsGrouping(groups, LicenseKeys(recs), false)
    requires LicenseInputs(recs, groups, infos)
    ensures InfosFound(groups, infos)
    ensures VisitsEachOnce(SectionOrder(groups, infos), |groups|)
  {
    assert DistinctKeysInOrder(groups);
    MapPerm(infos, HashInfos(recs, groups), Locate(groups));
    HashInfosOrder(recs, groups);
    assert SectionOrder(groups, infos) == MapSeq(infos, Locate(groups));
    forall k | 0 <= k < |infos|
      ensures Find(groups, infos[k].licenseHash) < |groups|
    {
      InfoFound(recs, groups, infos, k);
    }
  }

  /** Each of the permuted infos is one of the groups' infos, so its hash is
      found. */
  lemma InfoFound(recs: seq<DependencyInfo>, groups: seq<Group>, infos: seq<LicenseHashInfo>, k: nat)
    requires DistinctKeysInOrder(groups)
    requires LicenseInputs(recs, groups, infos)
    requires k < |infos|
    ensures Find(groups, infos[k].licenseHash) < |groups|
  {
    assert infos[k] in multiset(HashInfos(recs, groups));
    var g :| 0 <= g < |groups| && HashInfos(recs, groups)[g] == infos[k];
    FindOwnKey(groups, g);
  }

  /** LICENSE: as many member lines as records, and every record has one;
      so each record is listed exactly once. */
  lemma LicenseListsEveryRecordOnce(recs: seq<DependencyInfo>, groups: seq<Group>, infos: seq<LicenseHashInfo>)
    requires IsGrouping(groups, LicenseKeys(recs), false)
    requires MemberCount(groups) == |recs|
    requires LicenseInputs(recs, groups, infos)
    ensures InfosFound(groups, infos)
    ensures |ListedRecords(groups, SectionOrder(groups, infos))| == |recs|
    ensures forall i :: 0 <= i < |recs| ==> i in ListedRecords(groups, SectionOrder(groups, infos))
  {
    LicenseSectionsVisitEachOnce(recs, groups, infos);
    var order := SectionOrder(groups, infos);
    VisitingEachOnce(groups, order, 0);
    forall i | 0 <= i < |recs|
      ensures i in ListedRecords(groups, order)
    {
      VisitingEachOnce(groups, order, i);
      assert Complete(groups, LicenseKeys(recs), false, |recs|);
      assert Included(LicenseKeys(recs), false, i);
    }
  }

  /** LICENSE: the k-th section's title carries the k-th info's license id,
      so with the infos sorted by name the titles are in name order. */
  lemma LicenseSectionNames(recs: seq<DependencyInfo>, groups: seq<Group>, infos: seq<LicenseHashInfo>, k: nat)
    requires IsGrouping(groups, LicenseKeys(recs), false)
    requires LicenseInputs(recs, groups, infos)
    requires k < |infos|
    ensures InfosFound(groups, infos)
    ensures var g := SectionOrder(groups, infos)[k];
      && recs[groups[g].members[0]].licenseName == infos[k].licenseName
      && groups[g].key == infos[k].licenseHash
  {
    LicenseSectionsVisitEachOnce(recs, groups, infos);
    assert DistinctKeysInOrder(groups);
    assert infos[k] in multiset(HashInfos(recs, groups));
    var g :| 0 <= g < |groups| && HashInfos(recs, groups)[g] == infos[k];
    FindOwnKey(groups, g);
  }

  /** LICENSE: when the infos are sorted, section titles name license ids in
      non-decreasing order. */
  lemma LicenseSectionsInNameOrder(recs: seq<DependencyInfo>, groups: seq<Group>, infos: seq<LicenseHashInfo>,
                                   k1: nat, k2: nat)
    requires IsGrouping(groups, LicenseKeys(recs), false)
    requires LicenseInputs(recs, groups, infos)
    requires SortedByName(infos)
    requires k1 < k2 < |infos|
    ensures InfosFound(groups, infos)
    ensures var order := SectionOrder(groups, infos);
      Strings.LexLeq(recs[groups[order[k1]].members[0]].licenseName, recs[groups[order[k2]].members[0]].licenseName)
  {
    LicenseSectionNames(recs, groups, infos, k1);
    LicenseSectionNames(recs, groups, infos, k2);
  }

  // ---------------------------------------------------------------------
  // The notice sections

  /** NOTICE: visiting each notice group once lists a record exactly when it
      has a notice hash. */
  lemma NoticeListsExactlyNoticed(recs: seq<DependencyInfo>, groups: seq<Group>, order: seq<nat>, i: nat)
    requires IsGrouping(groups, NoticeKeys(recs), true)
    requires VisitsEachOnce(order, |groups|)
    requires i < |recs|
    ensures forall k :: 0 <= k < |order| ==> order[k] < |groups|
    ensures i in ListedRecords(groups, order) <==> recs[i].noticeHash != ""
  {
    VisitingEachOnce(groups, order, i);
    if recs[i].noticeHash == "" {
      NoNoticeNoGroup(groups, recs, i);
    } else {
      assert Complete(groups, NoticeKeys(recs), true, |recs|);
      assert Included(NoticeKeys(recs), true, i);
    }
  }
}
