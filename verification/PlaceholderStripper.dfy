/**
 * Removal of `{{name}}` placeholders from a request template
 * (radar-api/src/csv_runner.rs). The scan works on the bytes of the template and
 * turns every byte it keeps into the character with that code point.
 */
module PlaceholderStripper {

  newtype byte = b: int | 0 <= b < 256

  const OPEN: byte := 0x7B
  const CLOSE: byte := 0x7D

  predicate OpensAt(s: seq<byte>, i: nat) {
    i + 1 < |s| && s[i] == OPEN && s[i + 1] == OPEN
  }

  predicate ClosesAt(s: seq<byte>, i: nat) {
    i + 1 < |s| && s[i] == CLOSE && s[i + 1] == CLOSE
  }

  // The first position at or after `i` with a closing pair, or else one past the
  // last position where a pair would fit.
  function Closing(s: seq<byte>, i: nat): (j: nat)
    ensures j >= i
    ensures ClosesAt(s, j) || j + 1 >= |s|
    ensures forall k :: i <= k < j ==> !ClosesAt(s, k)
    decreases |s| - i
  {
    if i + 1 < |s| && !ClosesAt(s, i) then Closing(s, i + 1) else i
  }

  // The code points kept from position `i` on.
  function StripFrom(s: seq<byte>, i: nat): seq<byte>
    decreases |s| - i
  {
    if i >= |s| then []
    else if OpensAt(s, i) then StripFrom(s, Closing(s, i + 2) + 2)
    else [s[i]] + StripFrom(s, i + 1)
  }

  function Stripped(s: seq<byte>): seq<byte> {
    StripFrom(s, 0)
  }

  method StripPlaceholders(bytes: seq<byte>) returns (result: seq<byte>)
    ensures result == Stripped(bytes)
  {
    result := [];
    var i := 0;
    while i < |bytes|
      invariant 0 <= i
      invariant result + StripFrom(bytes, i) == Stripped(bytes)
    {
      if i + 1 < |bytes| && bytes[i] == OPEN && bytes[i + 1] == OPEN {
        ghost var start := i;
        i := i + 2;
        while i + 1 < |bytes| && !(bytes[i] == CLOSE && bytes[i + 1] == CLOSE)
          invariant start + 2 <= i
          invariant Closing(bytes, i) == Closing(bytes, start + 2)
        {
          i := i + 1;
        }
        i := i + 2;
      } else {
        assert result + ([bytes[i]] + StripFrom(bytes, i + 1)) == (result + [bytes[i]]) + StripFrom(bytes, i + 1);
        result := result + [bytes[i]];
        i := i + 1;
      }
    }
  }

  // ---------------------------------------------------------------------
  // No opening pair survives
  // ---------------------------------------------------------------------

  ghost predicate PairFree(s: seq<byte>) {
    forall i :: 0 <= i < |s| ==> !OpensAt(s, i)
  }

  lemma {:induction false} StripFromIsPairFree(s: seq<byte>, i: nat)
    ensures PairFree(StripFrom(s, i))
    ensures i < |s| && !OpensAt(s, i) ==> StripFrom(s, i) != [] && StripFrom(s, i)[0] == s[i]
    ensures i < |s| && s[i] != OPEN ==> StripFrom(s, i)[0] != OPEN
    decreases |s| - i
  {
    if i < |s| {
      if OpensAt(s, i) {
        StripFromIsPairFree(s, Closing(s, i + 2) + 2);
      } else {
        var rest := StripFrom(s, i + 1);
        StripFromIsPairFree(s, i + 1);
        forall k | 0 <= k < |[s[i]] + rest| ensures !OpensAt([s[i]] + rest, k) {
          if k > 0 {
            assert !OpensAt(rest, k - 1);
          } else if i + 1 < |s| && s[i] == OPEN {
            assert s[i + 1] != OPEN;
          }
        }
      }
    }
  }

  lemma OutputIsPairFree(s: seq<byte>)
    ensures PairFree(Stripped(s))
  {
    StripFromIsPairFree(s, 0);
  }

  lemma {:induction false} StripFromShrinks(s: seq<byte>, i: nat)
    requires i <= |s|
    ensures |StripFrom(s, i)| <= |s| - i
    ensures (exists k :: i <= k && OpensAt(s, k)) ==> |StripFrom(s, i)| < |s| - i
    ensures (forall k :: i <= k ==> !OpensAt(s, k)) ==> StripFrom(s, i) == s[i..]
    decreases |s| - i
  {
    if i < |s| {
      if OpensAt(s, i) {
        var j := Closing(s, i + 2) + 2;
        if j < |s| {
          StripFromShrinks(s, j);
        }
      } else {
        StripFromShrinks(s, i + 1);
        assert s[i..] == [s[i]] + s[i + 1..];
      }
    }
  }

  // Exactly the texts without an opening pair are left as they are.
  lemma UnchangedExactly(s: seq<byte>)
    ensures Stripped(s) == s <==> PairFree(s)
  {
    StripFromShrinks(s, 0);
    if k :| 0 <= k < |s| && OpensAt(s, k) {
      assert |Stripped(s)| < |s|;
    }
    if PairFree(s) {
      assert forall k: nat :: OpensAt(s, k) ==> k < |s|;
      assert s[0..] == s;
    }
  }

  // ---------------------------------------------------------------------
  // Stripping again
  // ---------------------------------------------------------------------

  // UTF-8 of the characters U+0000 to U+00FF.
  function Utf8(points: seq<byte>): seq<byte> {
    if points == [] then []
    else
      var c := points[0];
      (if c < 0x80 then [c] else [0xC0 + c / 0x40, 0x80 + c % 0x40]) + Utf8(points[1..])
  }

  ghost predicate Ascii(s: seq<byte>) {
    forall i :: 0 <= i < |s| ==> s[i] < 0x80
  }

  lemma {:induction false} Utf8Of(points: seq<byte>)
    ensures |Utf8(points)| >= |points|
    ensures Ascii(points) ==> Utf8(points) == points
    ensures !Ascii(points) ==> |Utf8(points)| > |points|
  {
    if points != [] {
      var rest := points[1..];
      Utf8Of(rest);
      assert points == [points[0]] + rest;
      AsciiOneMore(points[0], rest);
    }
  }

  lemma {:induction false} Utf8IsPairFree(points: seq<byte>)
    requires PairFree(points)
    ensures PairFree(Utf8(points))
    ensures points != [] ==> Utf8(points) != [] && (points[0] != OPEN ==> Utf8(points)[0] != OPEN)
  {
    if points != [] {
      var rest := points[1..];
      assert forall k :: 0 <= k < |rest| && OpensAt(rest, k) ==> OpensAt(points, k + 1);
      Utf8IsPairFree(rest);
      var head := if points[0] < 0x80 then [points[0]] else [0xC0 + points[0] / 0x40, 0x80 + points[0] % 0x40];
      var out := head + Utf8(rest);
      forall k | 0 <= k < |out| ensures !OpensAt(out, k) {
        if k >= |head| {
          assert !OpensAt(Utf8(rest), k - |head|);
        } else if points[0] == OPEN && rest != [] {
          assert !OpensAt(points, 0);
        }
      }
    }
  }

  // Whether position `k` lies in a placeholder that the scan from `i` on removes.
  predicate Removed(s: seq<byte>, i: nat, k: nat)
    decreases |s| - i
  {
    i <= k && i < |s| &&
    if OpensAt(s, i) then k < Closing(s, i + 2) + 2 || Removed(s, Closing(s, i + 2) + 2, k)
    else Removed(s, i + 1, k)
  }

  // Every byte outside the placeholders is ASCII.
  ghost predicate AsciiOutside(s: seq<byte>) {
    forall k :: 0 <= k < |s| && !Removed(s, 0, k) ==> s[k] < 0x80
  }

  lemma {:induction false} KeptIsAscii(s: seq<byte>, i: nat)
    ensures Ascii(StripFrom(s, i)) <==> forall k :: i <= k < |s| && !Removed(s, i, k) ==> s[k] < 0x80
    decreases |s| - i
  {
    if i < |s| {
      var next := if OpensAt(s, i) then Closing(s, i + 2) + 2 else i + 1;
      KeptIsAscii(s, next);
      forall k | i <= k < |s|
        ensures !Removed(s, i, k) <==> (k == i && !OpensAt(s, i)) || (next <= k && !Removed(s, next, k))
      {
        RemovedFrom(s, i, k);
      }
      if !OpensAt(s, i) {
        AsciiOneMore(s[i], StripFrom(s, i + 1));
      }
    }
  }

  lemma RemovedFrom(s: seq<byte>, i: nat, k: nat)
    requires i <= k < |s|
    ensures var next := if OpensAt(s, i) then Closing(s, i + 2) + 2 else i + 1;
            !Removed(s, i, k) <==> (k == i && !OpensAt(s, i)) || (next <= k && !Removed(s, next, k))
  {
  }

  lemma AsciiOneMore(b: byte, rest: seq<byte>)
    ensures Ascii([b] + rest) <==> b < 0x80 && Ascii(rest)
  {
    if Ascii([b] + rest) {
      assert ([b] + rest)[0] == b;
      assert forall i :: 0 <= i < |rest| ==> rest[i] == ([b] + rest)[i + 1];
    }
  }

  // A second pass over the stored text changes nothing exactly when everything
  // outside the placeholders is ASCII; other characters are re-read as the bytes of
  // their encoding.
  lemma StrippingAgain(s: seq<byte>)
    ensures Stripped(Utf8(Stripped(s))) == Stripped(s) <==> AsciiOutside(s)
  {
    var once := Stripped(s);
    OutputIsPairFree(s);
    Utf8Of(once);
    Utf8IsPairFree(once);
    UnchangedExactly(Utf8(once));
    KeptIsAscii(s, 0);
  }

  lemma AsciiStaysStripped(s: seq<byte>)
    requires Ascii(s)
    ensures Ascii(Stripped(s)) && Stripped(Utf8(Stripped(s))) == Stripped(s)
  {
    KeptIsAscii(s, 0);
    StrippingAgain(s);
  }

  // ---------------------------------------------------------------------
  // What is removed
  // ---------------------------------------------------------------------

  lemma {:induction false} StripFromSuffix(a: seq<byte>, b: seq<byte>, i: nat)
    ensures StripFrom(a + b, |a| + i) == StripFrom(b, i)
    decreases |b| - i
  {
    if i < |b| {
      if OpensAt(b, i) {
        ClosingSuffix(a, b, i + 2);
        StripFromSuffix(a, b, Closing(b, i + 2) + 2);
      } else {
        StripFromSuffix(a, b, i + 1);
      }
    }
  }

  lemma {:induction false} ClosingSuffix(a: seq<byte>, b: seq<byte>, i: nat)
    ensures Closing(a + b, |a| + i) == |a| + Closing(b, i)
    decreases |b| - i
  {
    if i + 1 < |b| && !ClosesAt(b, i) {
      ClosingSuffix(a, b, i + 1);
    }
  }

  lemma {:induction false} CopiedUpTo(s: seq<byte>, i: nat, j: nat)
    requires i <= j <= |s| && forall k :: i <= k < j ==> !OpensAt(s, k)
    ensures StripFrom(s, i) == s[i..j] + StripFrom(s, j)
    decreases j - i
  {
    if i < j {
      CopiedUpTo(s, i + 1, j);
    } else {
      assert s[i..j] == [];
    }
  }

  // The first placeholder of a template goes, up to its first closing pair, and
  // the text in front of it stays.
  lemma PlaceholderGoes(before: seq<byte>, name: seq<byte>, after: seq<byte>)
    requires PairFree(before + [OPEN])
    requires forall k :: 0 <= k < |name| ==> !ClosesAt(name + [CLOSE, CLOSE], k)
    ensures Stripped(before + ([OPEN, OPEN] + (name + [CLOSE, CLOSE])) + after) == before + Stripped(after)
  {
    var body := name + [CLOSE, CLOSE];
    var hole := [OPEN, OPEN] + body;
    var s := before + hole + after;
    var n := |before|;
    forall k | 0 <= k < n ensures !OpensAt(s, k) {
      assert !OpensAt(before + [OPEN], k);
    }
    CopiedUpTo(s, 0, n);
    assert s[0..n] == before;
    assert OpensAt(s, n);
    var e := n + 2 + |name|;
    forall k | n + 2 <= k < e ensures !ClosesAt(s, k) {
      assert s[k] == body[k - n - 2] && s[k + 1] == body[k - n - 1];
      assert !ClosesAt(body, k - n - 2);
    }
    assert ClosesAt(s, e);
    assert Closing(s, n + 2) == e;
    assert |before + hole| == e + 2;
    StripFromSuffix(before + hole, after, 0);
  }

  lemma ClosesBehind(front: seq<byte>, rest: seq<byte>, k: nat)
    requires k >= |front|
    ensures ClosesAt(front + rest, k) <==> ClosesAt(rest, k - |front|)
  {
  }

  // A placeholder that is never closed takes the rest of the template with it.
  lemma UnclosedTakesTheRest(before: seq<byte>, rest: seq<byte>)
    requires PairFree(before + [OPEN])
    requires forall k :: 0 <= k < |rest| ==> !ClosesAt(rest, k)
    ensures Stripped(before + ([OPEN, OPEN] + rest)) == before
  {
    var s := before + ([OPEN, OPEN] + rest);
    var n := |before|;
    forall k | 0 <= k < n ensures !OpensAt(s, k) {
      assert !OpensAt(before + [OPEN], k);
    }
    CopiedUpTo(s, 0, n);
    assert s[0..n] == before;
    assert s == (before + [OPEN, OPEN]) + rest;
    forall k | n + 2 <= k ensures !ClosesAt(s, k) {
      ClosesBehind(before + [OPEN, OPEN], rest, k);
    }
  }
}
