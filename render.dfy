/** The text of the aggregated LICENSE (main.go:181-235) and NOTICE
    (main.go:239-286) documents. Each is the project's own text, a header,
    then one section per group: a title naming the group's representative
    and one "name (version)" line per member, in group order. LICENSE
    sections follow the sorted license infos; NOTICE sections follow Go's
    iteration order over the notice map, which is an input here. */
module Render {
  import opened Strings
  import opened Deps
  import opened Grouping

  /** A Go format string whose only verbs are `%s`, cut at the verbs. */
  datatype Format = Format(pieces: seq<string>)

  /** `fmt.Sprintf` with string arguments: the pieces with the arguments in
      between. */
  function Sprintf(f: Format, args: seq<string>): (r: string)
    requires |f.pieces| == |args| + 1
    ensures |r| >= |f.pieces[0]| && r[..|f.pieces[0]|] == f.pieces[0]
    ensures args != [] ==>
      |r| >= |f.pieces[0]| + |args[0]| && r[..|f.pieces[0]| + |args[0]|] == f.pieces[0] + args[0]
    ensures args == [] ==> r == f.pieces[0]
    decreases args
  {
    if args == [] then f.pieces[0]
    else
      var rest := Sprintf(Format(f.pieces[1..]), args[1..]);
      assert (f.pieces[0] + args[0] + rest)[..|f.pieces[0]| + |args[0]|] == f.pieces[0] + args[0];
      f.pieces[0] + args[0] + rest
  }

  /** The format strings of `outputFile`: the LICENSE header, section title
      and member line, and the NOTICE header, section title and member
      line. */
  datatype Formats = Formats(header: Format, title: Format, line: Format,
                             headerN: Format, titleN: Format, lineN: Format)

  /** Each format has as many verbs as the code passes arguments. */
  predicate Arities(fm: Formats)
  {
    && |fm.header.pieces| == 3 && |fm.title.pieces| == 4 && |fm.line.pieces| == 3
    && |fm.headerN.pieces| == 2 && |fm.titleN.pieces| == 2 && |fm.lineN.pieces| == 3
  }

  /** A rule of `n` '=' characters. */
  function Rule(n: nat): string
  {
    seq(n, i => '=')
  }

  /** The literals of main.go:183-199 and 239-249. */
  const GoFormats: Formats := Formats(
    Format(["\n" + Rule(71) + "\n",
            " Subcomponents:\n\nThe ",
            " project contains subcomponents with\nseperate copyright notices and license terms."
            + " Your use of the binary release\nfor these subcomponents is subject to the terms"
            + " and conditions of the\nfollowing licenses.\n\n"]),
    Format(["\n" + Rule(64) + "\nThe following component(s) are provided under the ",
            " License (",
            ").\nSee the respective project link for details.\nYou can find a copy of the License at ",
            ".\n\n"]),
    Format(["", " (", ")"]),
    Format(["\n" + Rule(71) + "\n", " Subcomponents:\n\n"]),
    Format(["\n" + Rule(64) + "\nYou can find a copy of the Notice at ",
            " for the the following component(s)\nSee the respective project link for details.\n"]),
    Format(["", " (", ")"]))

  /** The code's formats take the arguments it passes. */
  lemma GoFormatsArities()
    ensures Arities(GoFormats)
  {
  }

  /** The document header (main.go:201, 254): the LICENSE header names the
      project twice, the NOTICE header once. */
  function Header(fm: Formats, project: string, forNotice: bool): string
    requires Arities(fm)
  {
    if forNotice then Sprintf(fm.headerN, [project])
    else Sprintf(fm.header, [project, project])
  }

  /** One member line (main.go:230, 281): `name (version)` and a newline. */
  function MemberLine(fm: Formats, d: DependencyInfo, forNotice: bool): string
    requires Arities(fm)
  {
    Sprintf(if forNotice then fm.lineN else fm.line, [d.name, d.version]) + "\n"
  }

  /** Every group has a first member and every member is a record. */
  predicate WellFormed(groups: seq<Group>, n: nat)
  {
    forall g :: 0 <= g < |groups| ==>
      groups[g].members != [] && forall m :: 0 <= m < |groups[g].members| ==> groups[g].members[m] < n
  }

  /** The title of a group's section, from its representative (main.go:228,
      279): license id, license title and base name of the copied license
      for LICENSE, the copied notice's name for NOTICE. */
  function SectionTitle(fm: Formats, rep: DependencyInfo, forNotice: bool): (t: string)
    requires Arities(fm)
    ensures forNotice ==> var lead := fm.titleN.pieces[0] + rep.newNoticeName;
      |t| >= |lead| && t[..|lead|] == lead
    ensures !forNotice ==> var lead := fm.title.pieces[0] + rep.licenseName;
      |t| >= |lead| && t[..|lead|] == lead
  {
    if forNotice then Sprintf(fm.titleN, [rep.newNoticeName])
    else Sprintf(fm.title, [rep.licenseName, rep.licenseFullName, Base(rep.newLicenseName)])
  }

  // The documents are accumulated with `+=`: each function below appends to
  // the text written so far, `acc`.

  /** `acc` followed by one line per member, in member order. */
  function WithMemberLines(fm: Formats, acc: string, recs: seq<DependencyInfo>, members: seq<nat>,
                           forNotice: bool): string
    requires Arities(fm)
    requires forall m :: 0 <= m < |members| ==> members[m] < |recs|
    decreases members
  {
    if members == [] then acc
    else WithMemberLines(fm, acc + MemberLine(fm, recs[members[0]], forNotice), recs, members[1..], forNotice)
  }

  /** `acc` followed by one group's section: its title, then its member lines. */
  function WithSection(fm: Formats, acc: string, recs: seq<DependencyInfo>, group: Group, forNotice: bool): string
    requires Arities(fm)
    requires group.members != [] && forall m :: 0 <= m < |group.members| ==> group.members[m] < |recs|
  {
    WithMemberLines(fm, acc + SectionTitle(fm, recs[group.members[0]], forNotice), recs, group.members, forNotice)
  }

  /** `acc` followed by the sections of the groups at the indices of `order`,
      in that order. */
  function WithSections(fm: Formats, acc: string, recs: seq<DependencyInfo>, groups: seq<Group>,
                        order: seq<nat>, forNotice: bool): string
    requires Arities(fm)
    requires WellFormed(groups, |recs|)
    requires forall k :: 0 <= k < |order| ==> order[k] < |groups|
    decreases order
  {
    if order == [] then acc
    else WithSections(fm, WithSection(fm, acc, recs, groups[order[0]], forNotice), recs, groups, order[1..], forNotice)
  }

  /** Appending member lines keeps what was written before. */
  lemma {:induction false} WithMemberLinesExtends(fm: Formats, acc: string, recs: seq<DependencyInfo>,
                                                  members: seq<nat>, forNotice: bool)
    requires Arities(fm)
    requires forall m :: 0 <= m < |members| ==> members[m] < |recs|
    ensures var t := WithMemberLines(fm, acc, recs, members, forNotice);
      |t| >= |acc| && t[..|acc|] == acc
    decreases members
  {
    if members != [] {
      var next := acc + MemberLine(fm, recs[members[0]], forNotice);
      WithMemberLinesExtends(fm, next, recs, members[1..], forNotice);
      var t := WithMemberLines(fm, next, recs, members[1..], forNotice);
      assert t[..|acc|] == t[..|next|][..|acc|];
    }
  }

  /** Appending sections keeps what was written before. */
  lemma {:induction false} WithSectionsExtends(fm: Formats, acc: string, recs: seq<DependencyInfo>,
                                               groups: seq<Group>, order: seq<nat>, forNotice: bool)
    requires Arities(fm)
    requires WellFormed(groups, |recs|)
    requires forall k :: 0 <= k < |order| ==> order[k] < |groups|
    ensures var t := WithSections(fm, acc, recs, groups, order, forNotice);
      |t| >= |acc| && t[..|acc|] == acc
    decreases order
  {
    if order != [] {
      var group := groups[order[0]];
      var titled := acc + SectionTitle(fm, recs[group.members[0]], forNotice);
      WithMemberLinesExtends(fm, titled, recs, group.members, forNotice);
      var next := WithSection(fm, acc, recs, group, forNotice);
      assert next[..|acc|] == next[..|titled|][..|acc|];
      WithSectionsExtends(fm, next, recs, groups, order[1..], forNotice);
      var t := WithSections(fm, next, recs, groups, order[1..], forNotice);
      assert t[..|acc|] == t[..|next|][..|acc|];
    }
  }

  /** The members of group `g`; none when there is no such group. */
  function MembersOf(groups: seq<Group>, g: nat): seq<nat>
  {
    if g < |groups| then groups[g].members else []
  }

  /** The records whose member lines the sections of `order` write, in the
      order they are written. */
  function ListedRecords(groups: seq<Group>, order: seq<nat>): seq<nat>
  {
    if order == [] then []
    else MembersOf(groups, order[0]) + ListedRecords(groups, order[1..])
  }

  /** The map lookup `licenseMap[hash]`: the index of the group with that
      key, or `|groups|` when there is none. */
  function Find(groups: seq<Group>, key: string): (g: nat)
    ensures g <= |groups|
    ensures g < |groups| ==> groups[g].key == key
    ensures forall h :: 0 <= h < g && h < |groups| ==> groups[h].key != key
  {
    if groups == [] then 0
    else if groups[0].key == key then 0
    else 1 + Find(groups[1..], key)
  }

  /** The lookup of an info's hash, as a function value. */
  function Locate(groups: seq<Group>): LicenseHashInfo -> nat
  {
    (info: LicenseHashInfo) => Find(groups, info.licenseHash)
  }

  /** `s` with `f` applied to each element. */
  function MapSeq<T, U>(s: seq<T>, f: T -> U): (r: seq<U>)
    ensures |r| == |s|
    ensures forall k :: 0 <= k < |s| ==> r[k] == f(s[k])
  {
    seq(|s|, k requires 0 <= k < |s| => f(s[k]))
  }

  /** The groups the LICENSE sections show, one per info. */
  function SectionOrder(groups: seq<Group>, infos: seq<LicenseHashInfo>): (order: seq<nat>)
    ensures |order| == |infos|
    ensures forall k :: 0 <= k < |infos| ==> order[k] == Find(groups, infos[k].licenseHash)
  {
    MapSeq(infos, Locate(groups))
  }

  /** Every info's hash is the key of a group. */
  predicate InfosFound(groups: seq<Group>, infos: seq<LicenseHashInfo>)
  {
    forall k :: 0 <= k < |infos| ==> Find(groups, infos[k].licenseHash) < |groups|
  }

  /** The LICENSE document (main.go:181-233): self license, header, then
      one section per info. */
  function LicenseText(fm: Formats, selfLicense: string, project: string, recs: seq<DependencyInfo>,
                       groups: seq<Group>, infos: seq<LicenseHashInfo>): (t: string)
    requires Arities(fm) && WellFormed(groups, |recs|) && InfosFound(groups, infos)
    ensures var lead := selfLicense + Header(fm, project, false);
      |t| >= |lead| && t[..|lead|] == lead
  {
    WithSectionsExtends(fm, selfLicense + Header(fm, project, false), recs, groups, SectionOrder(groups, infos), false);
    WithSections(fm, selfLicense + Header(fm, project, false), recs, groups, SectionOrder(groups, infos), false)
  }

  /** The NOTICE document (main.go:251-284): self notice, header, then one
      section per group in the iteration order `order`. */
  function NoticeText(fm: Formats, selfNotice: string, project: string, recs: seq<DependencyInfo>,
                      groups: seq<Group>, order: seq<nat>): (t: string)
    requires Arities(fm) && WellFormed(groups, |recs|)
    requires forall k :: 0 <= k < |order| ==> order[k] < |groups|
    ensures var lead := selfNotice + Header(fm, project, true);
      |t| >= |lead| && t[..|lead|] == lead
  {
    WithSectionsExtends(fm, selfNotice + Header(fm, project, true), recs, groups, order, true);
    WithSections(fm, selfNotice + Header(fm, project, true), recs, groups, order, true)
  }

  /** The indices `0 .. n-1` in order. */
  function Range(n: nat): (r: seq<nat>)
    ensures |r| == n
    ensures forall k :: 0 <= k < n ==> r[k] == k
  {
    seq(n, k requires 0 <= k < n => k)
  }

  /** `order` visits each of `n` groups exactly once, as a `range` over a Go
      map visits each key once. */
  predicate VisitsEachOnce(order: seq<nat>, n: nat)
  {
    multiset(order) == multiset(Range(n))
  }

  // ---------------------------------------------------------------------
  // Rendering

  /** The inner loop (main.go:229-231, 280-282): one line per member. */
  method AppendMemberLines(fm: Formats, text: string, dArr: array<DependencyInfo>, members: seq<nat>,
                           forNotice: bool) returns (out: string)
    requires Arities(fm)
    requires forall m :: 0 <= m < |members| ==> members[m] < dArr.Length
    ensures out == WithMemberLines(fm, text, dArr[..], members, forNotice)
  {
    out := text;
    for m := 0 to |members|
      invariant WithMemberLines(fm, out, dArr[..], members[m..], forNotice)
        == WithMemberLines(fm, text, dArr[..], members, forNotice)
    {
      assert members[m..][1..] == members[m + 1..];
      out := out + MemberLine(fm, dArr[members[m]], forNotice);
    }
  }

  /** One section: the representative's title, then the member lines. */
  method AppendSection(fm: Formats, text: string, dArr: array<DependencyInfo>, group: Group,
                       forNotice: bool) returns (out: string)
    requires Arities(fm)
    requires group.members != [] && forall m :: 0 <= m < |group.members| ==> group.members[m] < dArr.Length
    ensures out == WithSection(fm, text, dArr[..], group, forNotice)
  {
    var d := dArr[group.members[0]];
    if forNotice {
      out := text + Sprintf(fm.titleN, [d.newNoticeName]);
    } else {
      out := text + Sprintf(fm.title, [d.licenseName, d.licenseFullName, Base(d.newLicenseName)]);
    }
    out := AppendMemberLines(fm, out, dArr, group.members, forNotice);
  }

  /** main.go:201, 226-233: the header, then for each sorted info the
      section of the group its hash looks up. */
  method RenderLicense(fm: Formats, selfLicense: string, project: string, dArr: array<DependencyInfo>,
                       groups: seq<Group>, infos: array<LicenseHashInfo>) returns (text: string)
    requires Arities(fm) && WellFormed(groups, dArr.Length) && InfosFound(groups, infos[..])
    ensures text == LicenseText(fm, selfLicense, project, dArr[..], groups, infos[..])
  {
    ghost var order := SectionOrder(groups, infos[..]);
    text := selfLicense + Sprintf(fm.header, [project, project]);
    ghost var start := text;
    for k := 0 to infos.Length
      invariant WithSections(fm, text, dArr[..], groups, order[k..], false)
        == WithSections(fm, start, dArr[..], groups, order, false)
    {
      var g := Find(groups, infos[k].licenseHash);
      assert g == order[k] && order[k..][1..] == order[k + 1..];
      text := AppendSection(fm, text, dArr, groups[g], false);
    }
  }

  /** main.go:254, 269-284: the header, then for each notice group in
      iteration order its section. */
  method RenderNotice(fm: Formats, selfNotice: string, project: string, dArr: array<DependencyInfo>,
                      groups: seq<Group>, order: seq<nat>) returns (text: string)
    requires Arities(fm) && WellFormed(groups, dArr.Length)
    requires forall k :: 0 <= k < |order| ==> order[k] < |groups|
    ensures text == NoticeText(fm, selfNotice, project, dArr[..], groups, order)
  {
    text := selfNotice + Sprintf(fm.headerN, [project]);
    ghost var start := text;
    for k := 0 to |order|
      invariant WithSections(fm, text, dArr[..], groups, order[k..], true)
        == WithSections(fm, start, dArr[..], groups, order, true)
    {
      assert order[k..][1..] == order[k + 1..];
      text := AppendSection(fm, text, dArr, groups[order[k]], true);
    }
  }
}
