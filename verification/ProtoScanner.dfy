/**
 * The scanner for protobuf texts (radar-core/src/proto.rs), up to the first
 * definition it comes to. All delimiters are ASCII, so it is modelled on characters.
 */
module ProtoScanner {
  import opened Options

  // ---------------------------------------------------------------------
  // Comments
  // ---------------------------------------------------------------------

  function StripComments(s: string): string
    decreases |s|
  {
    if s == [] then []
    else if s[0] == '/' && |s| > 1 && s[1] == '/' then LineComment(s[2..])
    else if s[0] == '/' && |s| > 1 && s[1] == '*' then BlockComment(s[2..])
    else [s[0]] + StripComments(s[1..])
  }

  function LineComment(s: string): string
    decreases |s|
  {
    if s == [] then []
    else if s[0] == '\n' then ['\n'] + StripComments(s[1..])
    else LineComment(s[1..])
  }

  function BlockComment(s: string): string
    decreases |s|
  {
    if s == [] then []
    else if s[0] == '*' && |s| > 1 && s[1] == '/' then StripComments(s[2..])
    else if s[0] == '\n' then ['\n'] + BlockComment(s[1..])
    else BlockComment(s[1..])
  }

  // ---------------------------------------------------------------------
  // Scanning
  // ---------------------------------------------------------------------

  predicate IsSpace(c: char) {
    c == ' ' || c == '\t' || c == '\n' || c == '\r' || c as int == 12
  }

  function SkipSpace(s: string): (r: string)
    ensures |r| <= |s|
  {
    if s != [] && IsSpace(s[0]) then SkipSpace(s[1..]) else s
  }

  predicate WordAt(s: string, word: string) {
    word <= s && (|s| == |word| || s[|word|] in [' ', '\t', '\n', '\r', '{'])
  }

  predicate IsDefinition(s: string) {
    WordAt(s, "message") || WordAt(s, "enum") || WordAt(s, "service")
  }

  predicate EndsStatement(c: char) {
    c == ';' || c == '\n' || c == '{' || c == '}'
  }

  function SkipStatement(s: string): (r: string)
    ensures |r| <= |s|
    ensures s != [] && !EndsStatement(s[0]) ==> |r| < |s|
    ensures r != [] ==> EndsStatement(r[0])
  {
    if s == [] || EndsStatement(s[0]) then s else SkipStatement(s[1..])
  }

  // Behind the brace that closes `depth` open ones.
  function SkipBlock(s: string, depth: nat): (r: string)
    ensures |r| <= |s| && (s != [] ==> |r| < |s|)
    decreases |s|
  {
    if s == [] then []
    else if s[0] == '{' then SkipBlock(s[1..], depth + 1)
    else if s[0] == '}' then (if depth <= 1 then s[1..] else SkipBlock(s[1..], depth - 1))
    else SkipBlock(s[1..], depth)
  }

  // From the first definition outside all blocks on.
  function FirstDefinition(s: string): Option<string>
    decreases |s|
  {
    var t := SkipSpace(s);
    if t == [] then None
    else if t[0] == '}' then FirstDefinition(t[1..])
    else if IsDefinition(t) then Some(t)
    else
      var u := SkipStatement(t);
      if u == [] then None
      else if u[0] == '{' then FirstDefinition(SkipBlock(u, 0))
      else if u[0] == '}' then FirstDefinition(u)
      else FirstDefinition(u[1..])
  }

  predicate IsIdentChar(c: char) {
    'a' <= c <= 'z' || 'A' <= c <= 'Z' || '0' <= c <= '9' || c == '_' || c == '.'
  }

  function Ident(s: string): (r: string)
    ensures r <= s
  {
    if s != [] && IsIdentChar(s[0]) then [s[0]] + Ident(s[1..]) else []
  }

  // The first definition is a message with a name and a body. The scanner keeps it,
  // whatever follows, and so accepts the text as a schema.
  predicate DefinesMessage(content: string) {
    match FirstDefinition(StripComments(content))
    case None => false
    case Some(t) =>
      WordAt(t, "message") &&
      var name := SkipSpace(t[|"message"|..]);
      var body := SkipSpace(name[|Ident(name)|..]);
      Ident(name) != [] && body != [] && body[0] == '{'
  }

  // ---------------------------------------------------------------------
  // A text that looks like no schema
  // ---------------------------------------------------------------------

  lemma {:induction false} StripPrefix(p: string, rest: string)
    requires '/' !in p
    ensures StripComments(p + rest) == p + StripComments(rest)
  {
    if p == [] {
      assert p + rest == rest;
    } else {
      assert (p + rest)[0] == p[0] && (p + rest)[1..] == p[1..] + rest;
      StripPrefix(p[1..], rest);
    }
  }

  lemma {:induction false} SkipBlockOver(body: string, rest: string, depth: nat)
    requires '{' !in body && '}' !in body
    ensures SkipBlock(body + rest, depth) == SkipBlock(rest, depth)
  {
    if body == [] {
      assert body + rest == rest;
    } else {
      assert (body + rest)[0] == body[0] && (body + rest)[1..] == body[1..] + rest;
      SkipBlockOver(body[1..], rest, depth);
    }
  }

  // A block inside a block is skipped whole.
  lemma {:induction false} BlocksNest(body: string, rest: string, depth: nat)
    requires '{' !in body && '}' !in body && depth >= 1
    ensures SkipBlock(['{'] + (body + (['}'] + rest)), depth) == SkipBlock(rest, depth)
  {
    var inner := body + (['}'] + rest);
    assert (['{'] + inner)[1..] == inner && (['}'] + rest)[1..] == rest;
    SkipBlockOver(body, ['}'] + rest, depth + 1);
  }

  // A comment to the end of the line leaves the line break, one in the middle nothing.
  lemma {:induction false} LineCommentGoes(line: string, rest: string)
    requires '\n' !in line
    ensures StripComments(['/', '/'] + (line + (['\n'] + rest))) == ['\n'] + StripComments(rest)
  {
    assert (['/', '/'] + (line + (['\n'] + rest)))[2..] == line + (['\n'] + rest);
    RestOfLineGoes(line, rest);
  }

  lemma {:induction false} RestOfLineGoes(line: string, rest: string)
    requires '\n' !in line
    ensures LineComment(line + (['\n'] + rest)) == ['\n'] + StripComments(rest)
  {
    if line == [] {
      assert line + (['\n'] + rest) == ['\n'] + rest && (['\n'] + rest)[1..] == rest;
    } else {
      assert (line + (['\n'] + rest))[0] == line[0];
      assert (line + (['\n'] + rest))[1..] == line[1..] + (['\n'] + rest);
      RestOfLineGoes(line[1..], rest);
    }
  }

  lemma {:induction false} BlockCommentGoes(body: string, rest: string)
    requires '*' !in body && '\n' !in body
    ensures StripComments(['/', '*'] + (body + (['*', '/'] + rest))) == StripComments(rest)
  {
    assert (['/', '*'] + (body + (['*', '/'] + rest)))[2..] == body + (['*', '/'] + rest);
    RestOfBlockGoes(body, rest);
  }

  lemma {:induction false} RestOfBlockGoes(body: string, rest: string)
    requires '*' !in body && '\n' !in body
    ensures BlockComment(body + (['*', '/'] + rest)) == StripComments(rest)
  {
    if body == [] {
      assert body + (['*', '/'] + rest) == ['*', '/'] + rest && (['*', '/'] + rest)[2..] == rest;
    } else {
      assert (body + (['*', '/'] + rest))[0] == body[0];
      assert (body + (['*', '/'] + rest))[1..] == body[1..] + (['*', '/'] + rest);
      RestOfBlockGoes(body[1..], rest);
    }
  }

  lemma {:induction false} StatementBeforeBlock(a: char, b: char, u: string)
    requires !IsSpace(a) && !EndsStatement(a) && !EndsStatement(b) && a != 'm' && a != 'e' && a != 's'
    requires u != [] && u[0] == '{'
    ensures FirstDefinition([a, b] + u) == FirstDefinition(SkipBlock(u, 0))
  {
    var s := [a, b] + u;
    assert s[1..] == [b] + u && s[1..][1..] == u;
    assert SkipStatement(s) == SkipStatement(s[1..]) == SkipStatement(u) == u;
  }

  // What stands in front may be any text with one open brace in it.
  lemma {:induction false} MessageBehindBlock(a: char, b: char, body: string, rest: string)
    requires !IsSpace(a) && !EndsStatement(a) && !EndsStatement(b) && a != 'm' && a != 'e' && a != 's'
    requires '{' !in body && '}' !in body
    ensures FirstDefinition([a, b, '{'] + body + "};message M{}" + rest) == Some("message M{}" + rest)
  {
    var t := "message M{}" + rest;
    var u := ['{'] + (body + (['}'] + (";" + t)));
    BlockRegrouped(a, b, body, rest);
    StatementBeforeBlock(a, b, u);
    BlockGoes(body, ";" + t);
    SemicolonGoes(t);
  }

  lemma {:induction false} BlockGoes(body: string, rest: string)
    requires '{' !in body && '}' !in body
    ensures SkipBlock(['{'] + (body + (['}'] + rest)), 0) == rest
  {
    var inner := body + (['}'] + rest);
    assert (['{'] + inner)[1..] == inner && (['}'] + rest)[1..] == rest;
    SkipBlockOver(body, ['}'] + rest, 1);
  }

  lemma BlockRegrouped(a: char, b: char, body: string, rest: string)
    ensures [a, b, '{'] + body + "};message M{}" + rest
         == [a, b] + (['{'] + (body + (['}'] + (";" + ("message M{}" + rest)))))
  {
  }

  lemma {:induction false} SemicolonGoes(t: string)
    requires WordAt(t, "message")
    ensures FirstDefinition(";" + t) == Some(t)
  {
    var s := ";" + t;
    assert s[1..] == t;
    assert SkipSpace(s) == s && SkipSpace(t) == t;
    assert SkipStatement(s) == s;
  }

  lemma NamedMessage(rest: string)
    ensures var t := "message M{}" + rest; var name := SkipSpace(t[|"message"|..]);
            WordAt(t, "message") && Ident(name) == "M" && SkipSpace(name[1..]) == "{}" + rest
  {
    var t := "message M{}" + rest;
    assert t[7..] == " " + ("M{}" + rest);
    assert t[7..][1..] == "M{}" + rest;
    var name := "M{}" + rest;
    assert name[1..] == "{}" + rest;
    assert SkipSpace(t[7..]) == SkipSpace(name) == name;
    assert Ident(name[1..]) == [];
  }

  lemma Accepted(a: char, b: char, body: string, rest: string)
    requires !IsSpace(a) && !EndsStatement(a) && !EndsStatement(b) && a != 'm' && a != 'e' && a != 's'
    requires '{' !in body && '}' !in body && '/' !in body && a != '/' && b != '/'
    ensures DefinesMessage([a, b, '{'] + body + "};message M{}" + rest)
  {
    var p := [a, b, '{'] + body + "};message M{}";
    assert '/' !in "};message M{}";
    StripPrefix(p, rest);
    MessageBehindBlock(a, b, body, StripComments(rest));
    NamedMessage(StripComments(rest));
  }
}
