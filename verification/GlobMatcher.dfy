/**
 * Glob matching of dotted field paths (radar-api/src/utils.rs).
 *
 * The meaning of a pattern is declarative: a path is matched when it can be cut
 * into one run of segments per pattern element, each run fitting its element.
 */
module GlobMatcher {

  // ---------------------------------------------------------------------
  // Meaning
  // ---------------------------------------------------------------------

  // `**` takes any run of segments, `*` any single one, a literal itself.
  predicate Fits(element: string, run: seq<string>) {
    element == "**" || (|run| == 1 && (element == "*" || element == run[0]))
  }

  function Flatten(runs: seq<seq<string>>): seq<string> {
    if runs == [] then [] else runs[0] + Flatten(runs[1..])
  }

  ghost predicate CutsInto(pat: seq<string>, path: seq<string>, runs: seq<seq<string>>) {
    && |runs| == |pat|
    && Flatten(runs) == path
    && forall i :: 0 <= i < |pat| ==> Fits(pat[i], runs[i])
  }

  ghost predicate Matches(pat: seq<string>, path: seq<string>) {
    exists runs :: CutsInto(pat, path, runs)
  }

  lemma {:induction false} FlattenConcat(a: seq<seq<string>>, b: seq<seq<string>>)
    ensures Flatten(a + b) == Flatten(a) + Flatten(b)
  {
    if a == [] {
      assert a + b == b;
    } else {
      FlattenConcat(a[1..], b);
      assert (a + b)[0] == a[0] && (a + b)[1..] == a[1..] + b;
    }
  }

  // Two patterns in a row match exactly the paths that split into a part for each.
  lemma MatchesConcat(p: seq<string>, q: seq<string>, path: seq<string>)
    ensures Matches(p + q, path)
       <==> exists i :: 0 <= i <= |path| && Matches(p, path[..i]) && Matches(q, path[i..])
  {
    if Matches(p + q, path) {
      var runs :| CutsInto(p + q, path, runs);
      var a, b := runs[..|p|], runs[|p|..];
      assert runs == a + b;
      FlattenConcat(a, b);
      var i := |Flatten(a)|;
      assert path[..i] == Flatten(a) && path[i..] == Flatten(b);
      assert forall k :: 0 <= k < |q| ==> (p + q)[|p| + k] == q[k] && runs[|p| + k] == b[k];
      assert CutsInto(p, path[..i], a) && CutsInto(q, path[i..], b);
    }
    if i :| 0 <= i <= |path| && Matches(p, path[..i]) && Matches(q, path[i..]) {
      var a :| CutsInto(p, path[..i], a);
      var b :| CutsInto(q, path[i..], b);
      FlattenConcat(a, b);
      assert path[..i] + path[i..] == path;
      assert CutsInto(p + q, path, a + b);
    }
  }

  lemma MatchesOne(element: string, path: seq<string>)
    ensures Matches([element], path) <==> Fits(element, path)
  {
    assert Flatten([path]) == path + Flatten([]) == path;
    if Fits(element, path) {
      assert CutsInto([element], path, [path]);
    }
    if Matches([element], path) {
      var runs :| CutsInto([element], path, runs);
      assert runs == [runs[0]];
      assert Flatten(runs) == runs[0] + Flatten([]) == runs[0];
    }
  }

  lemma MatchesNothing(path: seq<string>)
    ensures Matches([], path) <==> path == []
  {
    if path == [] {
      assert CutsInto([], path, []);
    }
  }

  // The first element takes a prefix of the path, the others the rest.
  lemma MatchesFirst(pat: seq<string>, path: seq<string>)
    requires pat != []
    ensures Matches(pat, path)
       <==> exists i :: 0 <= i <= |path| && Fits(pat[0], path[..i]) && Matches(pat[1..], path[i..])
  {
    assert pat == [pat[0]] + pat[1..];
    MatchesConcat([pat[0]], pat[1..], path);
    forall i | 0 <= i <= |path|
      ensures Matches([pat[0]], path[..i]) <==> Fits(pat[0], path[..i])
    {
      MatchesOne(pat[0], path[..i]);
    }
  }

  // A repeated `**` means the same as one.
  lemma DoubleStarCollapses(p: seq<string>, q: seq<string>, path: seq<string>)
    ensures Matches(p + ["**", "**"] + q, path) <==> Matches(p + ["**"] + q, path)
  {
    assert ["**", "**"] == ["**"] + ["**"];
    forall run: seq<string>
      ensures Matches(["**", "**"], run) && Matches(["**"], run)
    {
      MatchesConcat(["**"], ["**"], run);
      MatchesOne("**", run);
      MatchesOne("**", run[..0]);
      assert run[0..] == run;
    }
    MatchesConcat(p + ["**", "**"], q, path);
    MatchesConcat(p + ["**"], q, path);
    forall i | 0 <= i <= |path|
      ensures Matches(p + ["**", "**"], path[..i]) <==> Matches(p + ["**"], path[..i])
    {
      MatchesConcat(p, ["**", "**"], path[..i]);
      MatchesConcat(p, ["**"], path[..i]);
    }
  }

  // ---------------------------------------------------------------------
  // The matcher
  // ---------------------------------------------------------------------

  method GlobMatch(pat: seq<string>, path: seq<string>) returns (matched: bool)
    ensures matched == Matches(pat, path)
    decreases |pat|
  {
    if |pat| == 0 {
      MatchesNothing(path);
      return |path| == 0;
    }
    MatchesFirst(pat, path);
    if pat[0] == "**" {
      for i := 0 to |path| + 1
        invariant forall j :: 0 <= j < i ==> !Matches(pat[1..], path[j..])
      {
        var rest := GlobMatch(pat[1..], path[i..]);
        if rest {
          assert Fits(pat[0], path[..i]);
          return true;
        }
      }
      return false;
    }
    if |path| == 0 {
      return false;
    }
    assert forall i :: 0 <= i <= |path| ==> |path[..i]| == i;
    if pat[0] == "*" || pat[0] == path[0] {
      matched := GlobMatch(pat[1..], path[1..]);
      assert Fits(pat[0], path[..1]);
      return;
    }
    return false;
  }

  // ---------------------------------------------------------------------
  // Dotted text
  // ---------------------------------------------------------------------

  // The pieces between the dots; the empty text has one empty piece.
  function Split(s: string): (pieces: seq<string>)
    ensures pieces != []
    ensures forall i :: 0 <= i < |pieces| ==> '.' !in pieces[i]
  {
    if s == "" then [""]
    else
      var rest := Split(s[1..]);
      if s[0] == '.' then [""] + rest else [[s[0]] + rest[0]] + rest[1..]
  }

  function Join(pieces: seq<string>): string
    requires pieces != []
  {
    if |pieces| == 1 then pieces[0] else pieces[0] + "." + Join(pieces[1..])
  }

  lemma {:induction false} JoinSplit(s: string)
    ensures Join(Split(s)) == s
  {
    if s != "" {
      JoinSplit(s[1..]);
      var rest := Split(s[1..]);
      if s[0] == '.' {
        assert Split(s)[1..] == rest;
      } else {
        assert Split(s)[0] == [s[0]] + rest[0] && Split(s)[1..] == rest[1..];
      }
    }
  }

  ghost predicate PathMatches(pattern: string, path: string) {
    pattern == "" || Matches(Split(pattern), Split(path))
  }

  method TestPath(pattern: string, path: string) returns (matched: bool)
    ensures matched == PathMatches(pattern, path)
  {
    if |pattern| == 0 {
      return true;
    }
    matched := GlobMatch(Split(pattern), Split(path));
  }

  predicate Literal(element: string) {
    element != "*" && element != "**"
  }

  // A pattern element sequence without wildcards matches itself only.
  lemma {:induction false} LiteralsMatchThemselves(pat: seq<string>, path: seq<string>)
    requires forall i :: 0 <= i < |pat| ==> Literal(pat[i])
    ensures Matches(pat, path) <==> pat == path
    decreases |pat|
  {
    if pat == [] {
      MatchesNothing(path);
    } else {
      MatchesFirst(pat, path);
      assert forall i :: 0 <= i <= |path| ==> |path[..i]| == i;
      if |path| > 0 {
        LiteralsMatchThemselves(pat[1..], path[1..]);
        assert Fits(pat[0], path[..1]) <==> pat[0] == path[0];
        assert pat == path <==> pat[0] == path[0] && pat[1..] == path[1..] by {
          assert pat == [pat[0]] + pat[1..];
          assert path == [path[0]] + path[1..];
        }
      }
    }
  }

  // Written-out patterns are compared for equality of the text.
  lemma {:induction false} PlainPatternIsEquality(pattern: string, path: string)
    requires forall i :: 0 <= i < |Split(pattern)| ==> Literal(Split(pattern)[i])
    ensures PathMatches(pattern, path) <==> pattern == "" || pattern == path
  {
    LiteralsMatchThemselves(Split(pattern), Split(path));
    JoinSplit(pattern);
    JoinSplit(path);
  }

  // A trailing `**` selects everything at or below a prefix.
  lemma TrailingDoubleStar(prefix: seq<string>, path: seq<string>)
    requires forall i :: 0 <= i < |prefix| ==> Literal(prefix[i])
    ensures Matches(prefix + ["**"], path) <==> prefix <= path
  {
    MatchesConcat(prefix, ["**"], path);
    forall i | 0 <= i <= |path|
      ensures Matches(prefix, path[..i]) <==> prefix == path[..i]
      ensures Matches(["**"], path[i..])
    {
      LiteralsMatchThemselves(prefix, path[..i]);
      MatchesOne("**", path[i..]);
    }
    if prefix <= path {
      assert path[..|prefix|] == prefix;
    }
  }
}
