/**
 * Rewriting of `?` placeholders to `$1, $2, ...` for PostgreSQL
 * (radar-api/src/db.rs).
 */
module PlaceholderRewriter {
  import opened Decimals

  // ---------------------------------------------------------------------
  // The text after a point with `n` placeholders and an open or closed
  // string literal before it
  // ---------------------------------------------------------------------

  function Marker(n: nat): string {
    "$" + Decimal(n)
  }

  function RewriteFrom(sql: string, n: nat, inString: bool): string {
    if sql == [] then []
    else if sql[0] == '\'' then "'" + RewriteFrom(sql[1..], n, !inString)
    else if sql[0] == '?' && !inString then Marker(n + 1) + RewriteFrom(sql[1..], n + 1, inString)
    else [sql[0]] + RewriteFrom(sql[1..], n, inString)
  }

  function Rewritten(sql: string): string {
    RewriteFrom(sql, 0, false)
  }

  // Placeholders outside string literals.
  function Placeholders(sql: string, inString: bool): nat {
    if sql == [] then 0
    else if sql[0] == '\'' then Placeholders(sql[1..], !inString)
    else (if sql[0] == '?' && !inString then 1 else 0) + Placeholders(sql[1..], inString)
  }

  function InStringAfter(sql: string, inString: bool): bool {
    if sql == [] then inString
    else InStringAfter(sql[1..], if sql[0] == '\'' then !inString else inString)
  }

  // What one character is rewritten to.
  function Piece(c: char, n: nat, inString: bool): string {
    if c == '?' && !inString then Marker(n + 1) else [c]
  }

  lemma {:induction false} OneMore(c: char, rest: string, n: nat, q: bool)
    ensures RewriteFrom([c] + rest, n, q)
         == Piece(c, n, q) + RewriteFrom(rest, if c == '?' && !q then n + 1 else n, if c == '\'' then !q else q)
  {
  }

  lemma Regrouped(a: string, b: string, c: string)
    ensures a + (b + c) == (a + b) + c
  {
  }

  method RewritePlaceholders(sql: string) returns (out: string)
    ensures out == Rewritten(sql)
  {
    out := [];
    var n := 0;
    var inString := false;
    for i := 0 to |sql|
      invariant out + RewriteFrom(sql[i..], n, inString) == Rewritten(sql)
    {
      var c := sql[i];
      ghost var before, piece := out, Piece(c, n, inString);
      assert sql[i..] == [c] + sql[i + 1..];
      OneMore(c, sql[i + 1..], n, inString);
      if c == '\'' {
        inString := !inString;
        out := out + [c];
      } else if c == '?' && !inString {
        n := n + 1;
        out := out + "$";
        out := out + Decimal(n);
        Regrouped(before, "$", Decimal(n));
      } else {
        out := out + [c];
      }
      Regrouped(before, piece, RewriteFrom(sql[i + 1..], n, inString));
    }
  }

  // ---------------------------------------------------------------------
  // Numbering in order, everything else untouched
  // ---------------------------------------------------------------------

  lemma {:induction false} PlaceholdersConcat(a: string, b: string, q: bool)
    ensures Placeholders(a + b, q) == Placeholders(a, q) + Placeholders(b, InStringAfter(a, q))
    ensures InStringAfter(a + b, q) == InStringAfter(b, InStringAfter(a, q))
  {
    if a == [] {
      assert a + b == b;
    } else {
      assert (a + b)[0] == a[0] && (a + b)[1..] == a[1..] + b;
      PlaceholdersConcat(a[1..], b, if a[0] == '\'' then !q else q);
    }
  }

  lemma {:induction false} TextConcat(a: string, b: string, n: nat, q: bool)
    ensures RewriteFrom(a + b, n, q)
         == RewriteFrom(a, n, q) + RewriteFrom(b, n + Placeholders(a, q), InStringAfter(a, q))
  {
    if a == [] {
      assert a + b == b;
    } else {
      var c, rest := a[0], a[1..];
      var n', q' := if c == '?' && !q then n + 1 else n, if c == '\'' then !q else q;
      assert a == [c] + rest && a + b == [c] + (rest + b);
      OneMore(c, rest, n, q);
      OneMore(c, rest + b, n, q);
      TextConcat(rest, b, n', q');
      Regrouped(Piece(c, n, q), RewriteFrom(rest, n', q'), RewriteFrom(b, n + Placeholders(a, q), InStringAfter(a, q)));
    }
  }

  lemma RewriteConcat(a: string, b: string, n: nat, q: bool)
    ensures RewriteFrom(a + b, n, q)
         == RewriteFrom(a, n, q) + RewriteFrom(b, n + Placeholders(a, q), InStringAfter(a, q))
    ensures Placeholders(a + b, q) == Placeholders(a, q) + Placeholders(b, InStringAfter(a, q))
    ensures InStringAfter(a + b, q) == InStringAfter(b, InStringAfter(a, q))
  {
    TextConcat(a, b, n, q);
    PlaceholdersConcat(a, b, q);
  }

  // A placeholder becomes the marker that counts the placeholders up to it.
  lemma {:induction false} PlaceholderIsNumbered(a: string, b: string)
    requires !InStringAfter(a, false)
    ensures Rewritten(a + "?" + b)
         == Rewritten(a) + Marker(Placeholders(a, false) + 1) + RewriteFrom(b, Placeholders(a, false) + 1, false)
  {
    RewriteConcat(a + "?", b, 0, false);
    RewriteConcat(a, "?", 0, false);
    assert "?"[1..] == [];
  }

  // Text without placeholders outside literals is left alone, a question mark
  // inside a literal included.
  lemma {:induction false} NothingToRewrite(sql: string, n: nat, q: bool)
    requires Placeholders(sql, q) == 0
    ensures RewriteFrom(sql, n, q) == sql
  {
    if sql != [] {
      NothingToRewrite(sql[1..], n, if sql[0] == '\'' then !q else q);
    }
  }

  lemma {:induction false} QuotedText(literal: string)
    requires Placeholders(literal, true) == 0 && InStringAfter(literal, true)
    ensures Placeholders("'" + literal + "'", false) == 0 && !InStringAfter("'" + literal + "'", false)
  {
    var open := "'" + literal;
    assert open[1..] == literal;
    RewriteConcat(open, "'", 0, false);
    assert "'"[1..] == [];
  }

  // A part without placeholders of its own is copied as it stands, such as a
  // literal with doubled quotes and question marks in it (QuotedText).
  lemma {:induction false} PartIsCopied(a: string, part: string, b: string)
    requires Placeholders(part, InStringAfter(a, false)) == 0
    ensures Rewritten(a + part + b)
         == Rewritten(a) + part + RewriteFrom(b, Placeholders(a, false), InStringAfter(a + part, false))
  {
    RewriteConcat(a + part, b, 0, false);
    RewriteConcat(a, part, 0, false);
    NothingToRewrite(part, Placeholders(a, false), InStringAfter(a, false));
  }

  // ---------------------------------------------------------------------
  // Reading the rewritten text back
  // ---------------------------------------------------------------------

  // Takes the marker with the next number for a placeholder.
  function RestoreFrom(text: string, n: nat, inString: bool): string
    decreases |text|
  {
    if text == [] then []
    else if text[0] == '\'' then "'" + RestoreFrom(text[1..], n, !inString)
    else if !inString && Marker(n + 1) <= text then
      "?" + RestoreFrom(text[|Marker(n + 1)|..], n + 1, inString)
    else [text[0]] + RestoreFrom(text[1..], n, inString)
  }

  // Some `$` outside a literal is directly followed by the number that the next
  // placeholder gets.
  predicate Forged(sql: string, n: nat, q: bool) {
    if sql == [] then false
    else if sql[0] == '\'' then Forged(sql[1..], n, !q)
    else if sql[0] == '?' && !q then Forged(sql[1..], n + 1, q)
    else (sql[0] == '$' && !q && Decimal(n + 1) <= sql[1..]) || Forged(sql[1..], n, q)
  }

  // Digits are copied, and a marker does not begin with one.
  lemma {:induction false} DigitsSurvive(digits: string, sql: string, n: nat, q: bool)
    requires forall i :: 0 <= i < |digits| ==> IsDigit(digits[i])
    ensures digits <= RewriteFrom(sql, n, q) <==> digits <= sql
  {
    if digits != [] && sql != [] {
      var text := RewriteFrom(sql, n, q);
      if sql[0] == digits[0] {
        assert text[1..] == RewriteFrom(sql[1..], n, q);
        DigitsSurvive(digits[1..], sql[1..], n, q);
      }
    }
  }

  lemma {:induction false} RestoreExactly(sql: string, n: nat, q: bool)
    ensures RestoreFrom(RewriteFrom(sql, n, q), n, q) == sql <==> !Forged(sql, n, q)
  {
    if sql != [] {
      var text, rest := RewriteFrom(sql, n, q), sql[1..];
      if sql[0] == '\'' {
        RestoreExactly(rest, n, !q);
        assert text[1..] == RewriteFrom(rest, n, !q);
      } else if sql[0] == '?' && !q {
        RestoreExactly(rest, n + 1, q);
        assert text[|Marker(n + 1)|..] == RewriteFrom(rest, n + 1, q);
      } else {
        RestoreExactly(rest, n, q);
        assert text[1..] == RewriteFrom(rest, n, q);
        DigitsSurvive(Decimal(n + 1), rest, n, q);
      }
    }
  }

  // The original comes back exactly when no `$` of its own poses as a marker.
  lemma {:induction false} RoundTrip(sql: string)
    ensures RestoreFrom(Rewritten(sql), 0, false) == sql <==> !Forged(sql, 0, false)
  {
    RestoreExactly(sql, 0, false);
  }

  predicate DollarFree(sql: string, q: bool) {
    if sql == [] then true
    else if sql[0] == '\'' then DollarFree(sql[1..], !q)
    else (sql[0] != '$' || q) && DollarFree(sql[1..], q)
  }

  lemma {:induction false} DollarFreeMeans(sql: string, q: bool)
    ensures DollarFree(sql, q) <==> forall i :: 0 <= i < |sql| && sql[i] == '$' ==> InStringAfter(sql[..i], q)
  {
    if sql != [] {
      var q' := if sql[0] == '\'' then !q else q;
      DollarFreeMeans(sql[1..], q');
      forall i | 0 < i < |sql| ensures InStringAfter(sql[..i], q) == InStringAfter(sql[1..][..i - 1], q') {
        assert sql[..i][1..] == sql[1..][..i - 1];
      }
      assert forall i :: 0 < i < |sql| ==> sql[i] == sql[1..][i - 1];
      assert forall i :: 0 <= i < |sql| - 1 ==> sql[1..][i] == sql[i + 1];
      assert !InStringAfter(sql[..0], q) <==> !q;
    }
  }

  lemma {:induction false} DollarFreeIsNotForged(sql: string, n: nat, q: bool)
    requires DollarFree(sql, q)
    ensures !Forged(sql, n, q)
  {
    if sql != [] {
      var placeholder := sql[0] == '?' && !q;
      DollarFreeIsNotForged(sql[1..], if placeholder then n + 1 else n, if sql[0] == '\'' then !q else q);
    }
  }

  // No two texts without `$` outside literals are rewritten to the same text.
  lemma {:induction false} RewritingIsInjective(a: string, b: string)
    requires DollarFree(a, false) && DollarFree(b, false)
    requires Rewritten(a) == Rewritten(b)
    ensures a == b
  {
    DollarFreeIsNotForged(a, 0, false);
    DollarFreeIsNotForged(b, 0, false);
    RoundTrip(a);
    RoundTrip(b);
  }

  // With a `$` outside literals two texts can collide.
  lemma DollarsCollide()
    ensures Rewritten("$1") == Rewritten("?") && Forged("$1", 0, false)
  {
  }
}
