/** The layout of a rendered document body. The `+=` accumulation of
    main.go:226-233 and 269-284 writes, per visited group, the section title
    and then one member line per member. Here that body is a sequence of
    pieces, each a title or a member line, and the text is proved to be
    exactly those pieces rendered one after the other. The member-line
    pieces name the records of `ListedRecords`, so what the coverage lemmas
    prove of `ListedRecords` holds of the lines in the text. */
module Layout {
  import opened Strings
  import opened Deps
  import opened Grouping
  import opened Render
  import opened Coverage

  /** One piece of a document body: the title of group `group`'s section,
      or the member line of record `record`. */
  datatype Piece = Title(group: nat) | Line(record: nat)

  /** The member-line pieces of `members`, in member order. */
  function LinePieces(members: seq<nat>): (ps: seq<Piece>)
    ensures |ps| == |members|
    ensures forall k :: 0 <= k < |members| ==> ps[k] == Line(members[k])
  {
    if members == [] then [] else [Line(members[0])] + LinePieces(members[1..])
  }

  /** The pieces of the sections of `order`: for each visited group its
      title, then its members' lines. */
  function Pieces(groups: seq<Group>, order: seq<nat>): seq<Piece>
  {
    if order == [] then []
    else [Title(order[0])] + LinePieces(MembersOf(groups, order[0])) + Pieces(groups, order[1..])
  }

  /** The records of the member-line pieces, in order. */
  function Lines(ps: seq<Piece>): seq<nat>
  {
    if ps == [] then []
    else (if ps[0].Line? then [ps[0].record] else []) + Lines(ps[1..])
  }

  /** The groups of the title pieces, in order. */
  function Titles(ps: seq<Piece>): seq<nat>
  {
    if ps == [] then []
    else (if ps[0].Title? then [ps[0].group] else []) + Titles(ps[1..])
  }

  /** A title names a group with a first member that is a record; a line
      names a record. */
  predicate Fits(p: Piece, groups: seq<Group>, n: nat)
  {
    match p
    case Title(g) => g < |groups| && groups[g].members != [] && groups[g].members[0] < n
    case Line(r) => r < n
  }

  /** Every piece fits. */
  predicate Renderable(ps: seq<Piece>, groups: seq<Group>, n: nat)
  {
    forall k :: 0 <= k < |ps| ==> Fits(ps[k], groups, n)
  }

  /** The text of one piece: a section title from the group's
      representative, or a record's `name (version)` line. */
  function ShowPiece(fm: Formats, recs: seq<DependencyInfo>, groups: seq<Group>, p: Piece,
                     forNotice: bool): string
    requires Arities(fm) && Fits(p, groups, |recs|)
  {
    match p
    case Title(g) => SectionTitle(fm, recs[groups[g].members[0]], forNotice)
    case Line(r) => MemberLine(fm, recs[r], forNotice)
  }

  /** The pieces' texts, one after the other. */
  function Show(fm: Formats, recs: seq<DependencyInfo>, groups: seq<Group>, ps: seq<Piece>,
                forNotice: bool): string
    requires Arities(fm) && Renderable(ps, groups, |recs|)
  {
    if ps == [] then ""
    else
      ShowPiece(fm, recs, groups, ps[0], forNotice) + Show(fm, recs, groups, ps[1..], forNotice)
  }

  // ---------------------------------------------------------------------
  // Concatenation

  lemma {:induction false} LinesAppend(a: seq<Piece>, b: seq<Piece>)
    ensures Lines(a + b) == Lines(a) + Lines(b)
  {
    if a == [] {
      assert a + b == b;
    } else {
      var head := if a[0].Line? then [a[0].record] else [];
      assert (a + b)[1..] == a[1..] + b;
      assert (a + b)[0] == a[0];
      LinesAppend(a[1..], b);
      assert Lines(a + b) == head + (Lines(a[1..]) + Lines(b));
      assert Lines(a) == head + Lines(a[1..]);
    }
  }

  lemma {:induction false} TitlesAppend(a: seq<Piece>, b: seq<Piece>)
    ensures Titles(a + b) == Titles(a) + Titles(b)
  {
    if a == [] {
      assert a + b == b;
    } else {
      var head := if a[0].Title? then [a[0].group] else [];
      assert (a + b)[1..] == a[1..] + b;
      assert (a + b)[0] == a[0];
      TitlesAppend(a[1..], b);
      assert Titles(a + b) == head + (Titles(a[1..]) + Titles(b));
      assert Titles(a) == head + Titles(a[1..]);
    }
  }

  lemma {:induction false} ShowAppend(fm: Formats, recs: seq<DependencyInfo>, groups: seq<Group>,
                                      a: seq<Piece>, b: seq<Piece>, forNotice: bool)
    requires Arities(fm) && Renderable(a, groups, |recs|) && Renderable(b, groups, |recs|)
    ensures Renderable(a + b, groups, |recs|)
    ensures Show(fm, recs, groups, a + b, forNotice)
         == Show(fm, recs, groups, a, forNotice) + Show(fm, recs, groups, b, forNotice)
  {
    if a == [] {
      assert a + b == b;
    } else {
      assert (a + b)[1..] == a[1..] + b;
      assert (a + b)[0] == a[0];
      ShowAppend(fm, recs, groups, a[1..], b, forNotice);
      SeqAssoc(ShowPiece(fm, recs, groups, a[0], forNotice),
               Show(fm, recs, groups, a[1..], forNotice), Show(fm, recs, groups, b, forNotice));
    }
  }

  // ---------------------------------------------------------------------
  // The pieces of the sections

  /** Member-line pieces are all lines: their records are the members. */
  lemma {:induction false} LinePiecesLines(members: seq<nat>)
    ensures Lines(LinePieces(members)) == members
    ensures Titles(LinePieces(members)) == []
  {
    if members != [] {
      LinePiecesLines(members[1..]);
      LinesAppend([Line(members[0])], LinePieces(members[1..]));
      TitlesAppend([Line(members[0])], LinePieces(members[1..]));
    }
  }

  /** The member lines of the sections are the listed records, and the
      titles are the visited groups, both in order. */
  lemma {:induction false} PiecesLines(groups: seq<Group>, order: seq<nat>)
    ensures Lines(Pieces(groups, order)) == ListedRecords(groups, order)
    ensures Titles(Pieces(groups, order)) == order
  {
    if order != [] {
      var lp := LinePieces(MembersOf(groups, order[0]));
      PiecesLines(groups, order[1..]);
      LinePiecesLines(MembersOf(groups, order[0]));
      LinesAppend([Title(order[0])], lp);
      LinesAppend([Title(order[0])] + lp, Pieces(groups, order[1..]));
      TitlesAppend([Title(order[0])], lp);
      TitlesAppend([Title(order[0])] + lp, Pieces(groups, order[1..]));
      assert [order[0]] + order[1..] == order;
    }
  }

  /** The sections of a well-formed grouping can be rendered. */
  lemma PiecesRenderable(groups: seq<Group>, order: seq<nat>, n: nat)
    requires WellFormed(groups, n)
    requires forall k :: 0 <= k < |order| ==> order[k] < |groups|
    ensures Renderable(Pieces(groups, order), groups, n)
    decreases order
  {
    if order != [] {
      PiecesRenderable(groups, order[1..], n);
    }
  }

  // ---------------------------------------------------------------------
  // The accumulated text is the rendered pieces

  /** Appending a group's member lines appends the text of its line pieces. */
  lemma {:induction false} WithMemberLinesShows(fm: Formats, acc: string, recs: seq<DependencyInfo>,
                                                groups: seq<Group>, members: seq<nat>, forNotice: bool)
    requires Arities(fm)
    requires forall m :: 0 <= m < |members| ==> members[m] < |recs|
    ensures Renderable(LinePieces(members), groups, |recs|)
    ensures WithMemberLines(fm, acc, recs, members, forNotice)
         == acc + Show(fm, recs, groups, LinePieces(members), forNotice)
    decreases members
  {
    if members != [] {
      var line := MemberLine(fm, recs[members[0]], forNotice);
      WithMemberLinesShows(fm, acc + line, recs, groups, members[1..], forNotice);
      assert LinePieces(members)[1..] == LinePieces(members[1..]);
      SeqAssoc(acc, line, Show(fm, recs, groups, LinePieces(members[1..]), forNotice));
    }
  }

  /** Appending one section appends its title and member-line pieces. */
  lemma WithSectionShows(fm: Formats, acc: string, recs: seq<DependencyInfo>, groups: seq<Group>,
                         g: nat, forNotice: bool)
    requires Arities(fm) && WellFormed(groups, |recs|) && g < |groups|
    ensures Renderable([Title(g)] + LinePieces(groups[g].members), groups, |recs|)
    ensures WithSection(fm, acc, recs, groups[g], forNotice)
         == acc + Show(fm, recs, groups, [Title(g)] + LinePieces(groups[g].members), forNotice)
  {
    var title := SectionTitle(fm, recs[groups[g].members[0]], forNotice);
    var lp := LinePieces(groups[g].members);
    WithMemberLinesShows(fm, acc + title, recs, groups, groups[g].members, forNotice);
    ShowAppend(fm, recs, groups, [Title(g)], lp, forNotice);
    assert Show(fm, recs, groups, [Title(g)], forNotice) == title + "";
    SeqAssoc(acc, title, Show(fm, recs, groups, lp, forNotice));
  }

  /** The accumulated sections are the rendered pieces of the sections. */
  lemma {:induction false} WithSectionsShows(fm: Formats, acc: string, recs: seq<DependencyInfo>,
                                             groups: seq<Group>, order: seq<nat>, forNotice: bool)
    requires Arities(fm) && WellFormed(groups, |recs|)
    requires forall k :: 0 <= k < |order| ==> order[k] < |groups|
    ensures Renderable(Pieces(groups, order), groups, |recs|)
    ensures WithSections(fm, acc, recs, groups, order, forNotice)
         == acc + Show(fm, recs, groups, Pieces(groups, order), forNotice)
    decreases order
  {
    PiecesRenderable(groups, order, |recs|);
    if order != [] {
      var g := order[0];
      var section := [Title(g)] + LinePieces(groups[g].members);
      var next := WithSection(fm, acc, recs, groups[g], forNotice);
      WithSectionShows(fm, acc, recs, groups, g, forNotice);
      WithSectionsShows(fm, next, recs, groups, order[1..], forNotice);
      PiecesRenderable(groups, order[1..], |recs|);
      assert Pieces(groups, order) == section + Pieces(groups, order[1..]);
      ShowAppend(fm, recs, groups, section, Pieces(groups, order[1..]), forNotice);
      SeqAssoc(acc, Show(fm, recs, groups, section, forNotice),
               Show(fm, recs, groups, Pieces(groups, order[1..]), forNotice));
    }
  }

  // ---------------------------------------------------------------------
  // The two documents

  /** LICENSE is the project's license, the header, then the pieces of the
      sorted sections: one title per info, in info order, and member lines
      that name every record exactly once. */
  lemma LicenseLayout(fm: Formats, selfLicense: string, project: string, recs: seq<DependencyInfo>,
                      groups: seq<Group>, infos: seq<LicenseHashInfo>)
    requires Arities(fm)
    requires IsGrouping(groups, LicenseKeys(recs), false)
    requires MemberCount(groups) == |recs|
    requires LicenseInputs(recs, groups, infos)
    ensures WellFormed(groups, |recs|) && InfosFound(groups, infos)
    ensures var ps := Pieces(groups, SectionOrder(groups, infos));
      && Renderable(ps, groups, |recs|)
      && LicenseText(fm, selfLicense, project, recs, groups, infos)
         == selfLicense + Header(fm, project, false) + Show(fm, recs, groups, ps, false)
      && Titles(ps) == SectionOrder(groups, infos)
      && |Lines(ps)| == |recs|
      && forall i :: 0 <= i < |recs| ==> i in Lines(ps)
  {
    GroupingWellFormed(groups, LicenseKeys(recs), false);
    LicenseListsEveryRecordOnce(recs, groups, infos);
    var order := SectionOrder(groups, infos);
    WithSectionsShows(fm, selfLicense + Header(fm, project, false), recs, groups, order, false);
    PiecesLines(groups, order);
  }

  /** NOTICE is the project's notice, the header, then the pieces of the
      sections in iteration order: one title per visited group, and member
      lines that name exactly the records with a notice hash. */
  lemma NoticeLayout(fm: Formats, selfNotice: string, project: string, recs: seq<DependencyInfo>,
                     groups: seq<Group>, order: seq<nat>)
    requires Arities(fm)
    requires IsGrouping(groups, NoticeKeys(recs), true)
    requires VisitsEachOnce(order, |groups|)
    ensures WellFormed(groups, |recs|)
    ensures forall k :: 0 <= k < |order| ==> order[k] < |groups|
    ensures var ps := Pieces(groups, order);
      && Renderable(ps, groups, |recs|)
      && NoticeText(fm, selfNotice, project, recs, groups, order)
         == selfNotice + Header(fm, project, true) + Show(fm, recs, groups, ps, true)
      && Titles(ps) == order
      && forall i :: 0 <= i < |recs| ==> (i in Lines(ps) <==> recs[i].noticeHash != "")
  {
    GroupingWellFormed(groups, NoticeKeys(recs), true);
    VisitingEachOnce(groups, order, 0);
    WithSectionsShows(fm, selfNotice + Header(fm, project, true), recs, groups, order, true);
    PiecesLines(groups, order);
    forall i | 0 <= i < |recs|
      ensures i in Lines(Pieces(groups, order)) <==> recs[i].noticeHash != ""
    {
      NoticeListsExactlyNoticed(recs, groups, order, i);
    }
  }
}
