/** The string primitives the collector relies on: Go's `strings.Split` with a
    one-character separator, `filepath.Base` on Unix paths, and Go's `<` on
    strings (byte-wise lexicographic order; on UTF-8 that is the same as
    code-point order, which is what `char` comparison gives here). */
module Strings {

  /** Number of occurrences of `c` in `s`. */
  function Count(s: string, c: char): (n: nat)
    ensures n <= |s|
  {
    if s == [] then 0 else (if s[0] == c then 1 else 0) + Count(s[1..], c)
  }

  /** `c` occurs in `s` exactly when its count is positive. */
  lemma {:induction false} CountPositive(s: string, c: char)
    ensures Count(s, c) > 0 <==> c in s
  {
    if s != [] {
      CountPositive(s[1..], c);
      assert s == [s[0]] + s[1..];
    }
  }

  /** `strings.Split(s, string(c))`: the pieces between the separators; an
      empty `s` gives one empty piece. */
  function Split(s: string, c: char): (pieces: seq<string>)
    ensures |pieces| == Count(s, c) + 1
  {
    if s == [] then [""]
    else
      var rest := Split(s[1..], c);
      if s[0] == c then [""] + rest
      else [[s[0]] + rest[0]] + rest[1..]
  }

  /** No piece of a split holds the separator. */
  lemma {:induction false} SplitPiecesFree(s: string, c: char)
    ensures forall k :: 0 <= k < |Split(s, c)| ==> c !in Split(s, c)[k]
  {
    if s != [] {
      SplitPiecesFree(s[1..], c);
      var rest := Split(s[1..], c);
      if s[0] != c {
        assert c !in [s[0]] + rest[0];
      }
    }
  }

  /** `strings.Join(pieces, string(c))`, the inverse of Split. */
  function Join(pieces: seq<string>, c: char): string
    requires |pieces| >= 1
  {
    if |pieces| == 1 then pieces[0] else pieces[0] + [c] + Join(pieces[1..], c)
  }

  /** Joining the pieces of a split gives back the original string. */
  lemma {:induction false} JoinSplit(s: string, c: char)
    ensures Join(Split(s, c), c) == s
  {
    if s != [] {
      JoinSplit(s[1..], c);
      var rest := Split(s[1..], c);
      if s[0] != c {
        if |rest| > 1 {
          assert ([[s[0]] + rest[0]] + rest[1..])[1..] == rest[1..];
          assert Join(rest, c) == rest[0] + [c] + Join(rest[1..], c);
        }
      } else {
        assert ([""] + rest)[1..] == rest;
      }
    }
  }

  /** A first character other than the separator joins the first piece. */
  lemma SplitCons(x: char, t: string, c: char)
    requires x != c
    ensures Split([x] + t, c) == [[x] + Split(t, c)[0]] + Split(t, c)[1..]
  {
    assert ([x] + t)[1..] == t;
  }

  /** A separator-free prefix glues onto the first piece of what follows. */
  lemma {:induction false} SplitPrefix(p: string, t: string, c: char)
    requires c !in p
    ensures Split(p + t, c) == [p + Split(t, c)[0]] + Split(t, c)[1..]
  {
    var st := Split(t, c);
    if p != [] {
      SplitPrefix(p[1..], t, c);
      assert p + t == [p[0]] + (p[1..] + t);
      SplitCons(p[0], p[1..] + t, c);
      assert ([p[1..] + st[0]] + st[1..])[1..] == st[1..];
      SeqAssoc([p[0]], p[1..], st[0]);
      assert [p[0]] + p[1..] == p;
    } else {
      assert p + t == t && p + st[0] == st[0];
      assert st == [st[0]] + st[1..];
    }
  }

  lemma SeqAssoc(a: string, b: string, c: string)
    ensures a + (b + c) == (a + b) + c
  {
  }

  /** Splitting a join of separator-free pieces gives back the pieces. */
  lemma {:induction false} SplitJoin(pieces: seq<string>, c: char)
    requires |pieces| >= 1
    requires forall k :: 0 <= k < |pieces| ==> c !in pieces[k]
    ensures Split(Join(pieces, c), c) == pieces
  {
    if |pieces| == 1 {
      SplitPrefix(pieces[0], "", c);
      assert pieces[0] + "" == pieces[0];
      assert Split("", c) == [""];
    } else {
      var rest := Join(pieces[1..], c);
      SplitJoin(pieces[1..], c);
      SplitPrefix(pieces[0], [c] + rest, c);
      assert Join(pieces, c) == pieces[0] + ([c] + rest);
      var t := Split([c] + rest, c);
      assert t == [""] + pieces[1..] by {
        assert ([c] + rest)[1..] == rest;
      }
      assert t[0] == "" && t[1..] == pieces[1..];
      assert pieces[0] + "" == pieces[0];
      assert pieces == [pieces[0]] + pieces[1..];
    }
  }

  /** Joining one more piece appends a separator and that piece. */
  lemma {:induction false} JoinSnoc(pieces: seq<string>, x: string, c: char)
    requires |pieces| >= 1
    ensures Join(pieces + [x], c) == Join(pieces, c) + [c] + x
  {
    if |pieces| > 1 {
      assert (pieces + [x])[1..] == pieces[1..] + [x];
      JoinSnoc(pieces[1..], x, c);
    }
  }

  /** The text after the last `c` of `s` (all of `s` when it has none). */
  function AfterLast(s: string, c: char): (r: string)
    ensures c !in r
    ensures |r| <= |s| && r == s[|s| - |r|..]
    ensures r == s || s[|s| - |r| - 1] == c
  {
    if s == [] then []
    else if s[|s| - 1] == c then []
    else AfterLast(s[..|s| - 1], c) + [s[|s| - 1]]
  }

  /** `s` with every trailing `c` removed. */
  function TrimTrailing(s: string, c: char): (r: string)
    ensures |r| <= |s| && r == s[..|r|]
    ensures r == [] || r[|r| - 1] != c
    ensures forall k :: |r| <= k < |s| ==> s[k] == c
  {
    if s != [] && s[|s| - 1] == c then TrimTrailing(s[..|s| - 1], c) else s
  }

  /** `filepath.Base` on a Unix path: "." for the empty path, "/" for a path
      made only of slashes, otherwise the last element once trailing slashes
      are removed. */
  function Base(path: string): (b: string)
    ensures b != ""
    ensures b == "/" || '/' !in b
    ensures path != "" && '/' !in path ==> b == path
  {
    if path == [] then "."
    else
      var q := TrimTrailing(path, '/');
      if q == [] then "/" else AfterLast(q, '/')
  }

  /** The split of a path with a slash ends in two segments that, with
      what precedes them, make up the path. */
  lemma {:induction false} SplitEndsInTwo(name: string)
    requires '/' in name
    ensures var toks := Split(name, '/');
      && |toks| >= 2
      && name == (if |toks| == 2 then "" else Join(toks[..|toks| - 2], '/') + "/")
                 + toks[|toks| - 2] + "/" + toks[|toks| - 1]
  {
    var toks := Split(name, '/');
    CountPositive(name, '/');
    var n := |toks|;
    var a, b := toks[n - 2], toks[n - 1];
    JoinSplit(name, '/');
    assert toks == toks[..n - 1] + [b];
    JoinSnoc(toks[..n - 1], b, '/');
    if n > 2 {
      assert toks[..n - 1] == toks[..n - 2] + [a];
      JoinSnoc(toks[..n - 2], a, '/');
    } else {
      assert toks[..n - 1] == [a];
      assert "" + a == a;
    }
  }

  /** The last two `/`-separated segments of a module path (the code indexes
      `len-2` and `len-1` of the split, so the path needs a slash). */
  function LastTwoSegments(name: string): (r: (string, string))
    requires '/' in name
    ensures '/' !in r.0 && '/' !in r.1
    ensures |r.0| + |r.1| + 1 <= |name|
    ensures name[|name| - |r.0| - |r.1| - 1..] == r.0 + "/" + r.1
    ensures |name| == |r.0| + |r.1| + 1 || name[|name| - |r.0| - |r.1| - 2] == '/'
  {
    var toks := Split(name, '/');
    LastTwoOfSplit(name);
    SplitPiecesFree(name, '/');
    (toks[|toks| - 2], toks[|toks| - 1])
  }

  /** Where the last two pieces of a split sit in the path. */
  lemma LastTwoOfSplit(name: string)
    requires '/' in name
    ensures var toks := Split(name, '/');
      && |toks| >= 2
      && var a, b := toks[|toks| - 2], toks[|toks| - 1];
      && |a| + |b| + 1 <= |name|
      && name[|name| - |a| - |b| - 1..] == a + "/" + b
      && (|name| == |a| + |b| + 1 || name[|name| - |a| - |b| - 2] == '/')
  {
    var toks := Split(name, '/');
    SplitEndsInTwo(name);
    var pre := if |toks| == 2 then "" else Join(toks[..|toks| - 2], '/') + "/";
    var a, b := toks[|toks| - 2], toks[|toks| - 1];
    assert name == pre + (a + "/" + b);
    assert |name| == |pre| + |a| + |b| + 1;
    assert name[|pre|..] == a + "/" + b;
    if |toks| > 2 {
      assert pre[|pre| - 1] == '/';
      assert name[|pre| - 1] == pre[|pre| - 1];
    }
  }

  /** Go's `<` on strings: lexicographic, a proper prefix is smaller. */
  predicate LexLess(a: string, b: string)
  {
    if a == [] then b != []
    else if b == [] then false
    else if a[0] != b[0] then a[0] < b[0]
    else LexLess(a[1..], b[1..])
  }

  lemma {:induction false} LexLessIrreflexive(a: string)
    ensures !LexLess(a, a)
  {
    if a != [] { LexLessIrreflexive(a[1..]); }
  }

  lemma {:induction false} LexLessTransitive(a: string, b: string, c: string)
    requires LexLess(a, b) && LexLess(b, c)
    ensures LexLess(a, c)
  {
    if a != [] && b != [] && c != [] && a[0] == b[0] == c[0] {
      LexLessTransitive(a[1..], b[1..], c[1..]);
    }
  }

  lemma {:induction false} LexLessTotal(a: string, b: string)
    requires a != b
    ensures LexLess(a, b) || LexLess(b, a)
  {
    if a != [] && b != [] && a[0] == b[0] {
      assert a == [a[0]] + a[1..] && b == [b[0]] + b[1..];
      LexLessTotal(a[1..], b[1..]);
    }
  }

  lemma LexLessAsymmetric(a: string, b: string)
    requires LexLess(a, b)
    ensures !LexLess(b, a)
  {
    if LexLess(b, a) {
      LexLessTransitive(a, b, a);
      LexLessIrreflexive(a);
    }
  }

  /** `!(b < a)`: the order `sort.Sort` establishes between neighbours. */
  predicate LexLeq(a: string, b: string)
  {
    !LexLess(b, a)
  }

  lemma LexLeqTransitive(a: string, b: string, c: string)
    requires LexLeq(a, b) && LexLeq(b, c)
    ensures LexLeq(a, c)
  {
    if LexLess(c, a) {
      if a == b {
      } else {
        LexLessTotal(a, b);
        LexLessTransitive(c, a, b);
      }
    }
  }

  lemma LexLeqTotal(a: string, b: string)
    ensures LexLeq(a, b) || LexLeq(b, a)
  {
    if a == b {
      LexLessIrreflexive(a);
    } else {
      LexLessTotal(a, b);
      if LexLess(a, b) { LexLessAsymmetric(a, b); }
    }
  }
}
