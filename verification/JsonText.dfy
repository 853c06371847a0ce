/**
 * Compact JSON text of strings and of arrays of strings, as serde_json writes it
 * (string escaping of section 7 of RFC 8259).
 */
module JsonText {
  import opened Options

  function HexDigit(d: nat): char
    requires d < 16
  {
    "0123456789abcdef"[d]
  }

  function EscapeChar(c: char): (r: string)
    ensures r != []
  {
    if c == '\"' then ['\\', '\"']
    else if c == '\\' then ['\\', '\\']
    else if c as int == 8 then ['\\', 'b']
    else if c as int == 9 then ['\\', 't']
    else if c as int == 10 then ['\\', 'n']
    else if c as int == 12 then ['\\', 'f']
    else if c as int == 13 then ['\\', 'r']
    else if c as int < 32 then ['\\', 'u', '0', '0', HexDigit(c as int / 16), HexDigit(c as int % 16)]
    else [c]
  }

  function Escape(s: string): string {
    if s == [] then [] else EscapeChar(s[0]) + Escape(s[1..])
  }

  function Quoted(s: string): string {
    ['\"'] + Escape(s) + ['\"']
  }

  // The items of an array, separated by commas.
  function Items(items: seq<string>): string {
    if items == [] then []
    else if |items| == 1 then Quoted(items[0])
    else Items(items[..|items| - 1]) + [','] + Quoted(items[|items| - 1])
  }

  function Array(items: seq<string>): string {
    ['['] + Items(items) + [']']
  }

  // ---------------------------------------------------------------------
  // Escaping as a JSON reader undoes it
  // ---------------------------------------------------------------------

  function HexValue(c: char): nat {
    if '0' <= c <= '9' then c as int - '0' as int
    else if 'a' <= c <= 'f' then c as int - 'a' as int + 10
    else 0
  }

  function CodeUnit(s: string): nat
    requires |s| == 4
  {
    HexValue(s[0]) * 4096 + HexValue(s[1]) * 256 + HexValue(s[2]) * 16 + HexValue(s[3])
  }

  // The characters that the escape sequences of section 7 stand for.
  function Unescape(s: string): string {
    if s == [] then []
    else if s[0] != '\\' || |s| == 1 then [s[0]] + Unescape(s[1..])
    else if s[1] == 'u' && |s| >= 6 && CodeUnit(s[2..6]) < 0xD800 then [CodeUnit(s[2..6]) as char] + Unescape(s[6..])
    else
      (match s[1]
       case 'b' => ['\U{0008}']
       case 't' => ['\t']
       case 'n' => ['\n']
       case 'f' => ['\U{000C}']
       case 'r' => ['\r']
       case _ => [s[1]]) + Unescape(s[2..])
  }

  lemma HexDigitValue(d: nat)
    requires d < 16
    ensures HexValue(HexDigit(d)) == d
  {
  }

  lemma {:induction false} UnescapeChar(c: char, rest: string)
    ensures Unescape(EscapeChar(c) + rest) == [c] + Unescape(rest)
  {
    var e := EscapeChar(c);
    var s := e + rest;
    assert s[|e|..] == rest;
    if |e| == 6 {
      HexDigitValue(c as int / 16);
      HexDigitValue(c as int % 16);
      assert s[2..6] == ['0', '0', HexDigit(c as int / 16), HexDigit(c as int % 16)];
    }
  }

  lemma {:induction false} UnescapeEscape(s: string)
    ensures Unescape(Escape(s)) == s
  {
    if s != [] {
      UnescapeChar(s[0], Escape(s[1..]));
      UnescapeEscape(s[1..]);
      assert s == [s[0]] + s[1..];
    }
  }

  // So escaping loses nothing.
  lemma {:induction false} EscapeIsInjective(a: string, b: string)
    requires Escape(a) == Escape(b)
    ensures a == b
  {
    UnescapeEscape(a);
    UnescapeEscape(b);
  }

  // ---------------------------------------------------------------------
  // Reading a quoted string off the end of a text
  // ---------------------------------------------------------------------

  // Backslashes at the end of a text.
  function Slashes(s: string): nat {
    if s == [] || s[|s| - 1] != '\\' then 0 else 1 + Slashes(s[..|s| - 1])
  }

  // A quote that no odd run of backslashes escapes.
  predicate Opens(s: string, k: nat)
    requires k < |s|
  {
    s[k] == '\"' && Slashes(s[..k]) % 2 == 0
  }

  function LastOpening(s: string): Option<nat> {
    if s == [] then None
    else if Opens(s, |s| - 1) then Some(|s| - 1)
    else LastOpening(s[..|s| - 1])
  }

  // What stands before the last quoted string of a text, and its escaped body.
  function CutQuoted(s: string): Option<(string, string)> {
    if s == [] then None
    else
      var open := s[..|s| - 1];
      match LastOpening(open)
      case Some(k) => if k < |open| then Some((open[..k], open[k + 1..])) else None
      case None => None
  }

  lemma OpensInPrefix(s: string, t: string, k: nat)
    requires k < |s| && s <= t
    ensures Opens(s, k) <==> Opens(t, k)
  {
    assert s[..k] == t[..k];
  }

  lemma {:induction false} LastOpeningIs(s: string, k: nat)
    requires k < |s| && Opens(s, k)
    requires forall j :: k < j < |s| ==> !Opens(s, j)
    ensures LastOpening(s) == Some(k)
  {
    if k < |s| - 1 {
      var t := s[..|s| - 1];
      forall j | k <= j < |t| ensures Opens(t, j) <==> Opens(s, j) {
        OpensInPrefix(t, s, j);
      }
      LastOpeningIs(t, k);
    }
  }

  lemma {:induction false} SlashMore(p: string)
    ensures Slashes(p + ['\\']) == Slashes(p) + 1
  {
  }

  // No quote from position `from` on opens a string.
  ghost predicate SafeFrom(s: string, from: nat) {
    forall k :: from <= k < |s| ==> !Opens(s, k)
  }

  lemma {:induction false} QuoteFreeIsSafe(p: string, e: string)
    requires e != [] && e[|e| - 1] != '\\' && '\"' !in e
    ensures Slashes(p + e) == 0 && SafeFrom(p + e, |p|)
  {
  }

  lemma {:induction false} SafeStep(p: string, from: nat, c: char)
    requires from <= |p| && SafeFrom(p, from)
    requires c != '\"' || Slashes(p) % 2 == 1
    ensures SafeFrom(p + [c], from)
  {
    var s := p + [c];
    forall k | from <= k < |s| ensures !Opens(s, k) {
      if k < |p| {
        OpensInPrefix(p, s, k);
      } else {
        assert s[..k] == p;
      }
    }
  }

  lemma {:induction false} FirstSlashIsSafe(p: string)
    ensures Slashes(p + ['\\']) == Slashes(p) + 1 && SafeFrom(p + ['\\'], |p|)
  {
  }

  lemma {:induction false} SecondIsSafe(q: string, from: nat, c: char)
    requires Slashes(q) % 2 == 1 && from <= |q| && SafeFrom(q, from) && (c == '\"' || c == '\\')
    ensures Slashes(q + [c]) % 2 == 0 && SafeFrom(q + [c], from)
  {
    SafeStep(q, from, c);
    if c == '\\' {
      SlashMore(q);
    } else {
      NoSlash(q, c);
    }
  }

  lemma {:induction false} NoSlash(p: string, c: char)
    requires c != '\\'
    ensures Slashes(p + [c]) == 0
  {
  }

  // A quote or a backslash behind a backslash, or text without either at its end.
  ghost predicate Escaping(e: string) {
    || (|e| == 2 && e[0] == '\\' && (e[1] == '\"' || e[1] == '\\'))
    || (e != [] && e[|e| - 1] != '\\' && '\"' !in e)
  }

  lemma EscapedIsEscaping(c: char)
    ensures Escaping(EscapeChar(c))
  {
  }

  lemma {:induction false} EscapingIsSafe(p: string, e: string)
    requires Slashes(p) % 2 == 0 && Escaping(e)
    ensures Slashes(p + e) % 2 == 0 && SafeFrom(p + e, |p|)
  {
    if |e| == 2 && e[0] == '\\' && (e[1] == '\"' || e[1] == '\\') {
      FirstSlashIsSafe(p);
      SecondIsSafe(p + ['\\'], |p|, e[1]);
      assert p + e == (p + ['\\']) + [e[1]];
    } else {
      QuoteFreeIsSafe(p, e);
    }
  }

  // No quote of an escaped character opens a string.
  lemma {:induction false} EscapeCharIsSafe(p: string, c: char)
    requires Slashes(p) % 2 == 0
    ensures Slashes(p + EscapeChar(c)) % 2 == 0 && SafeFrom(p + EscapeChar(c), |p|)
  {
    EscapedIsEscaping(c);
    EscapingIsSafe(p, EscapeChar(c));
  }

  lemma SafeJoined(p: string, q: string, s: string)
    requires |p| <= |q| && q <= s && SafeFrom(q, |p|) && SafeFrom(s, |q|)
    ensures SafeFrom(s, |p|)
  {
    forall k | |p| <= k < |s| ensures !Opens(s, k) {
      if k < |q| {
        OpensInPrefix(q, s, k);
      }
    }
  }

  lemma {:induction false} EscapeIsSafe(p: string, body: string)
    requires Slashes(p) % 2 == 0
    ensures SafeFrom(p + Escape(body), |p|)
    decreases |body|
  {
    if body != [] {
      var q, rest := p + EscapeChar(body[0]), Escape(body[1..]);
      EscapeCharIsSafe(p, body[0]);
      EscapeIsSafe(q, body[1..]);
      assert p + (EscapeChar(body[0]) + rest) == q + rest;
      SafeJoined(p, q, q + rest);
    }
  }

  lemma {:induction false} CutOff(open: string, k: nat)
    requires k < |open| && LastOpening(open) == Some(k)
    ensures CutQuoted(open + ['\"']) == Some((open[..k], open[k + 1..]))
  {
  }

  lemma {:induction false} OpeningAt(p: string, open: string)
    requires Slashes(p) % 2 == 0 && |p| < |open|
    requires open[..|p|] == p && open[|p|] == '\"' && SafeFrom(open, |p| + 1)
    ensures LastOpening(open) == Some(|p|)
  {
    LastOpeningIs(open, |p|);
  }

  lemma Parted(p: string, e: string)
    ensures var open := p + ['\"'] + e;
            |p| < |open| && open[..|p|] == p && open[|p|] == '\"' && open[|p| + 1..] == e
  {
  }

  lemma QuotesRegrouped(p: string, e: string)
    ensures p + (['\"'] + e + ['\"']) == (p + ['\"'] + e) + ['\"']
  {
  }

  lemma {:induction false} CutAt(p: string, e: string, open: string)
    requires Slashes(p) % 2 == 0 && |p| < |open|
    requires open[..|p|] == p && open[|p|] == '\"' && open[|p| + 1..] == e && SafeFrom(open, |p| + 1)
    ensures CutQuoted(open + ['\"']) == Some((p, e))
  {
    OpeningAt(p, open);
    CutOff(open, |p|);
  }

  lemma {:induction false} CutIsExact(p: string, body: string)
    requires Slashes(p) % 2 == 0
    ensures CutQuoted(p + Quoted(body)) == Some((p, Escape(body)))
  {
    var e := Escape(body);
    EscapeIsSafe(p + ['\"'], body);
    Parted(p, e);
    QuotesRegrouped(p, e);
    CutAt(p, e, p + ['\"'] + e);
  }

  lemma {:induction false} PlainHasNoSlashes(p: string)
    requires EndsPlain(p)
    ensures Slashes(p) == 0
  {
  }

  // A text ending in a quoted string determines that string and what precedes it.
  lemma {:induction false} QuotedTailIsUnique(p: string, a: string, q: string, b: string)
    requires Slashes(p) % 2 == 0 && Slashes(q) % 2 == 0
    requires p + Quoted(a) == q + Quoted(b)
    ensures p == q && a == b
  {
    CutIsExact(p, a);
    CutIsExact(q, b);
    EscapeIsInjective(a, b);
  }

  // ---------------------------------------------------------------------
  // Arrays
  // ---------------------------------------------------------------------

  ghost predicate EndsPlain(p: string) {
    p != [] && p[|p| - 1] != '\\'
  }

  // What stands in front of the last item of a non-empty list.
  function BeforeLast(p: string, items: seq<string>): string
    requires items != []
  {
    if |items| == 1 then p else p + Items(items[..|items| - 1]) + [',']
  }

  lemma {:induction false} LastItem(p: string, items: seq<string>)
    requires EndsPlain(p) && items != []
    ensures p + Items(items) == BeforeLast(p, items) + Quoted(items[|items| - 1])
    ensures EndsPlain(BeforeLast(p, items))
  {
    if |items| > 1 {
      LastOfMany(p, items);
    }
  }

  lemma {:induction false} LastOfMany(p: string, items: seq<string>)
    requires |items| > 1
    ensures p + Items(items) == BeforeLast(p, items) + Quoted(items[|items| - 1])
    ensures EndsPlain(BeforeLast(p, items))
  {
    ItemsOfMany(items);
    BeforeLastOfMany(p, items);
    Regrouped(p, Items(items[..|items| - 1]), Quoted(items[|items| - 1]));
  }

  lemma {:induction false} ItemsOfMany(items: seq<string>)
    requires |items| > 1
    ensures Items(items) == Items(items[..|items| - 1]) + [','] + Quoted(items[|items| - 1])
  {
  }

  lemma BeforeLastOfMany(p: string, items: seq<string>)
    requires |items| > 1
    ensures BeforeLast(p, items) == (p + Items(items[..|items| - 1])) + [',']
  {
  }

  lemma Regrouped(p: string, before: string, last: string)
    ensures p + (before + [','] + last) == (p + before + [',']) + last
  {
  }

  lemma {:induction false} LastItemIsUnique(p: string, a: seq<string>, q: string, b: seq<string>)
    requires EndsPlain(p) && EndsPlain(q) && a != [] && b != []
    requires p + Items(a) == q + Items(b)
    ensures a[|a| - 1] == b[|b| - 1] && BeforeLast(p, a) == BeforeLast(q, b)
  {
    LastItem(p, a);
    LastItem(q, b);
    PlainHasNoSlashes(BeforeLast(p, a));
    PlainHasNoSlashes(BeforeLast(q, b));
    QuotedTailIsUnique(BeforeLast(p, a), a[|a| - 1], BeforeLast(q, b), b[|b| - 1]);
  }

  lemma SameBefore(x: string, y: string, c: char)
    requires x + [c] == y + [c]
    ensures x == y
  {
    assert (x + [c])[..|x + [c]| - 1] == x;
    assert (y + [c])[..|y + [c]| - 1] == y;
  }

  lemma ItemsBeforeAreSame(p: string, a: seq<string>, q: string, b: seq<string>)
    requires |a| > 1 && |b| > 1 && BeforeLast(p, a) == BeforeLast(q, b)
    ensures p + Items(a[..|a| - 1]) == q + Items(b[..|b| - 1])
  {
    BeforeLastOfMany(p, a);
    BeforeLastOfMany(q, b);
    SameBefore(p + Items(a[..|a| - 1]), q + Items(b[..|b| - 1]), ',');
  }

  // Lists of one length are told apart behind any text that does not end in a
  // backslash.
  lemma {:induction false} ItemsAreUnique(p: string, a: seq<string>, q: string, b: seq<string>)
    requires EndsPlain(p) && EndsPlain(q) && |a| == |b|
    requires p + Items(a) == q + Items(b)
    ensures p == q && a == b
    decreases |a|
  {
    if a == [] {
      assert p + [] == p && q + [] == q;
    } else {
      LastItemIsUnique(p, a, q, b);
      if |a| > 1 {
        ItemsBeforeAreSame(p, a, q, b);
        ItemsAreUnique(p, a[..|a| - 1], q, b[..|b| - 1]);
      }
      SameByLast(a, b);
    }
  }

  lemma SameByLast<T>(a: seq<T>, b: seq<T>)
    requires |a| == |b| && a != [] && a[..|a| - 1] == b[..|b| - 1] && a[|a| - 1] == b[|b| - 1]
    ensures a == b
  {
  }

  // Behind one and the same text the length is determined too.
  lemma {:induction false} ItemCountIsUnique(p: string, a: seq<string>, b: seq<string>)
    requires EndsPlain(p) && p + Items(a) == p + Items(b)
    ensures |a| == |b|
    decreases |a|
  {
    if a != [] && b != [] {
      LastItemIsUnique(p, a, p, b);
      if |a| > 1 && |b| > 1 {
        ItemsBeforeAreSame(p, a, p, b);
        ItemCountIsUnique(p, a[..|a| - 1], b[..|b| - 1]);
      }
    } else {
      assert |Items(a)| == |Items(b)|;
      if a != [] { LastItem(p, a); }
      if b != [] { LastItem(p, b); }
    }
  }

  lemma ArrayIsInjective(a: seq<string>, b: seq<string>)
    requires Array(a) == Array(b)
    ensures a == b
  {
    assert Array(a)[..|Array(a)| - 1] == ['['] + Items(a);
    assert Array(b)[..|Array(b)| - 1] == ['['] + Items(b);
    ItemCountIsUnique(['['], a, b);
    ItemsAreUnique(['['], a, ['['], b);
  }
}
