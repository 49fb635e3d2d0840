/** `dependenciesList` (main.go:108-125): the output of `go list -m all`,
    one "<module path> <version> [...]" per line, becomes one record per line
    that has at least two space-separated tokens. The main module's bare path
    and the empty piece after the final newline give nothing. */
module Listing {
  import opened Strings
  import opened Deps

  /** The records one line contributes: one when the line splits on ' ' into
      more than one token, none otherwise. */
  function LineRecords(line: string): (rs: seq<DependencyInfo>)
    ensures |rs| <= 1
    ensures |rs| == 1 <==> Count(line, ' ') >= 1
    ensures |rs| == 1 ==> rs[0] == Listed(Split(line, ' ')[0], Split(line, ' ')[1])
  {
    var toks := Split(line, ' ');
    if |toks| > 1 then [Listed(toks[0], toks[1])] else []
  }

  /** The records of a sequence of lines, in line order. */
  function Records(lines: seq<string>): seq<DependencyInfo>
  {
    if lines == [] then []
    else Records(lines[..|lines| - 1]) + LineRecords(lines[|lines| - 1])
  }

  /** Records distribute over concatenation of the line list. */
  lemma {:induction false} RecordsAppend(a: seq<string>, b: seq<string>)
    ensures Records(a + b) == Records(a) + Records(b)
  {
    if b != [] {
      var last := b[|b| - 1];
      assert (a + b)[..|a + b| - 1] == a + b[..|b| - 1];
      RecordsAppend(a, b[..|b| - 1]);
    } else {
      assert a + b == a;
    }
  }

  /** A single line gives exactly its own records. */
  lemma RecordsOfOneLine(line: string)
    ensures Records([line]) == LineRecords(line)
  {
    assert [line][..0] == [];
  }

  /** Never more records than lines. */
  lemma {:induction false} RecordsBound(lines: seq<string>)
    ensures |Records(lines)| <= |lines|
  {
    if lines != [] {
      RecordsBound(lines[..|lines| - 1]);
    }
  }

  /** Every record is listed as it appears on some line: its name and version
      are tokens 0 and 1 of that line. */
  lemma {:induction false} RecordsComeFromLines(lines: seq<string>, k: nat)
    requires k < |Records(lines)|
    ensures exists i :: (0 <= i < |lines| && |Split(lines[i], ' ')| > 1
      && Records(lines)[k] == Listed(Split(lines[i], ' ')[0], Split(lines[i], ' ')[1]))
  {
    var init := lines[..|lines| - 1];
    var i := |lines| - 1;
    if k < |Records(init)| {
      RecordsComeFromLines(init, k);
      var j :| 0 <= j < |init| && |Split(init[j], ' ')| > 1
        && Records(init)[k] == Listed(Split(init[j], ' ')[0], Split(init[j], ' ')[1]);
      assert lines[j] == init[j];
    } else {
      assert Records(lines)[k] == LineRecords(lines[i])[0];
    }
  }

  /** `dependenciesList`: walks the lines of the lister output and appends a
      record for every line with more than one token. */
  method DependenciesList(listing: string) returns (res: seq<DependencyInfo>)
    ensures res == Records(Split(listing, '\n'))
    ensures |res| <= Count(listing, '\n') + 1
  {
    var lines := Split(listing, '\n');
    res := [];
    var i := 0;
    while i < |lines|
      invariant 0 <= i <= |lines|
      invariant res == Records(lines[..i])
    {
      var toks := Split(lines[i], ' ');
      if |toks| > 1 {
        res := res + [Listed(toks[0], toks[1])];
      }
      assert lines[..i + 1][..i] == lines[..i];
      i := i + 1;
    }
    assert lines[..i] == lines;
    RecordsBound(lines);
  }

  /** One line of lister output for a module path and version. */
  function ListLine(m: (string, string)): string
  {
    m.0 + " " + m.1
  }

  /** What `go list -m all` prints for these modules: one line each, each
      terminated by a newline. */
  function Listing(ms: seq<(string, string)>): string
  {
    if ms == [] then "" else ListLine(ms[0]) + "\n" + Listing(ms[1..])
  }

  /** Neither the path nor the version contains a space or a newline. */
  predicate PlainModule(m: (string, string))
  {
    ' ' !in m.0 && '\n' !in m.0 && ' ' !in m.1 && '\n' !in m.1
  }

  function ListLines(ms: seq<(string, string)>): (ls: seq<string>)
    ensures |ls| == |ms|
    ensures forall k :: 0 <= k < |ms| ==> ls[k] == ListLine(ms[k])
  {
    seq(|ms|, k requires 0 <= k < |ms| => ListLine(ms[k]))
  }

  lemma {:induction false} ListingIsJoin(ms: seq<(string, string)>)
    ensures Listing(ms) == Join(ListLines(ms) + [""], '\n')
  {
    if ms != [] {
      ListingIsJoin(ms[1..]);
      assert (ListLines(ms) + [""])[1..] == ListLines(ms[1..]) + [""];
    }
  }

  /** The records the listed modules should give, in order. */
  function ListedModules(ms: seq<(string, string)>): (rs: seq<DependencyInfo>)
    ensures |rs| == |ms|
    ensures forall k :: 0 <= k < |ms| ==> rs[k] == Listed(ms[k].0, ms[k].1)
  {
    seq(|ms|, k requires 0 <= k < |ms| => Listed(ms[k].0, ms[k].1))
  }

  lemma RecordsOfListLine(m: (string, string))
    requires PlainModule(m)
    ensures LineRecords(ListLine(m)) == [Listed(m.0, m.1)]
  {
    assert Join([m.1], ' ') == m.1;
    assert Join([m.0, m.1], ' ') == m.0 + [' '] + Join([m.1], ' ');
    assert ListLine(m) == Join([m.0, m.1], ' ');
    SplitJoin([m.0, m.1], ' ');
  }

  lemma {:induction false} RecordsOfListLines(ms: seq<(string, string)>)
    requires forall k :: 0 <= k < |ms| ==> PlainModule(ms[k])
    ensures Records(ListLines(ms)) == ListedModules(ms)
  {
    if ms != [] {
      var n := |ms|;
      var m := ms[n - 1];
      var init := ms[..n - 1];
      RecordsOfListLines(init);
      ListsSnoc(ms);
      RecordsAppend(ListLines(init), [ListLine(m)]);
      RecordsOfOneLine(ListLine(m));
      RecordsOfListLine(m);
    }
  }

  lemma ListsSnoc(ms: seq<(string, string)>)
    requires ms != []
    ensures ListLines(ms) == ListLines(ms[..|ms| - 1]) + [ListLine(ms[|ms| - 1])]
    ensures ListedModules(ms) == ListedModules(ms[..|ms| - 1]) + [Listed(ms[|ms| - 1].0, ms[|ms| - 1].1)]
  {
  }

  /** Round trip: listing modules whose path and version hold no space or
      newline, then parsing the listing, gives one record per module with
      that path and version, in order. */
  lemma {:induction false} ParseListing(ms: seq<(string, string)>)
    requires forall k :: 0 <= k < |ms| ==> PlainModule(ms[k])
    ensures Records(Split(Listing(ms), '\n')) == ListedModules(ms)
  {
    var ls := ListLines(ms);
    ListingIsJoin(ms);
    forall k | 0 <= k < |ls + [""]|
      ensures '\n' !in (ls + [""])[k]
    {
      if k < |ls| {
        assert (ls + [""])[k] == ms[k].0 + " " + ms[k].1;
      }
    }
    SplitJoin(ls + [""], '\n');
    RecordsAppend(ls, [""]);
    RecordsOfOneLine("");
    RecordsOfListLines(ms);
  }
}
