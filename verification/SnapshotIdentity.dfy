/**
 * Content-addressed identities of spec snapshots and of submitted reports
 * (radar-api/src/diffs.rs).
 */
module SnapshotIdentity {
  import opened JsonText
  import opened Options
  import opened TextOrder

  // Lower-casing, the hexadecimal SHA-256 digest and the version 5 UUID in the
  // URL namespace, of which only the properties in `Ideal` are used.
  datatype Hashing = Hashing(lower: string -> string, sha256: string -> string, uuid5: string -> string)

  ghost predicate Injective(f: string -> string) {
    forall a, b :: f(a) == f(b) ==> a == b
  }

  ghost predicate Ideal(h: Hashing) {
    && Injective(h.sha256)
    && Injective(h.uuid5)
    && forall s :: h.lower(h.lower(s)) == h.lower(s)
  }

  // ---------------------------------------------------------------------
  // Snapshots
  // ---------------------------------------------------------------------

  function HashedText(serviceId: string, gitRef: string): string {
    serviceId + [':'] + gitRef
  }

  function SpecVersionId(h: Hashing, serviceId: string, gitRef: string): string {
    h.uuid5(HashedText(serviceId, gitRef))
  }

  function IdentityOf(gitRef: string, format: string, digest: string): string {
    Array([gitRef, format, digest])
  }

  function SnapshotVersionId(h: Hashing, serviceId: string, gitRef: string, format: string, content: string): string {
    SpecVersionId(h, serviceId, IdentityOf(gitRef, h.lower(format), h.sha256(content)))
  }

  // The hashed text can be taken apart again in one way only, whatever quotes,
  // backslashes, colons and brackets stand in the labels or the service id.
  lemma HashedTextIsUnique(s1: string, r1: string, f1: string, d1: string,
                           s2: string, r2: string, f2: string, d2: string)
    ensures HashedText(s1, IdentityOf(r1, f1, d1)) == HashedText(s2, IdentityOf(r2, f2, d2))
       <==> s1 == s2 && r1 == r2 && f1 == f2 && d1 == d2
  {
    if HashedText(s1, IdentityOf(r1, f1, d1)) == HashedText(s2, IdentityOf(r2, f2, d2)) {
      var a, b := [r1, f1, d1], [r2, f2, d2];
      var p, q := s1 + [':', '['], s2 + [':', '['];
      Bracketed(s1, Items(a));
      Bracketed(s2, Items(b));
      SameBefore(p + Items(a), q + Items(b), ']');
      ItemsAreUnique(p, a, q, b);
      assert p[..|p| - 2] == s1 && q[..|q| - 2] == s2;
      assert a[0] == b[0] && a[1] == b[1] && a[2] == b[2];
    }
  }

  lemma Bracketed(s: string, items: string)
    ensures HashedText(s, ['['] + items + [']']) == (s + [':', '['] + items) + [']']
  {
  }

  // Two snapshots share an identity exactly when they are the same content of
  // the same format under the same label of the same service.
  lemma SnapshotIdsCollideExactly(h: Hashing, s1: string, r1: string, f1: string, c1: string,
                                  s2: string, r2: string, f2: string, c2: string)
    requires Ideal(h)
    ensures SnapshotVersionId(h, s1, r1, f1, c1) == SnapshotVersionId(h, s2, r2, f2, c2)
       <==> s1 == s2 && r1 == r2 && h.lower(f1) == h.lower(f2) && c1 == c2
  {
    HashedTextIsUnique(s1, r1, h.lower(f1), h.sha256(c1), s2, r2, h.lower(f2), h.sha256(c2));
  }

  // A bare label does not delimit itself: without the array around it, two
  // services share an identity.
  lemma BareLabelsCollide(h: Hashing)
    ensures SpecVersionId(h, "a", "b:c") == SpecVersionId(h, "a:b", "c")
  {
    assert HashedText("a", "b:c") == "a:b:c" == HashedText("a:b", "c");
  }

  // ---------------------------------------------------------------------
  // Reports
  // ---------------------------------------------------------------------

  datatype Change = Change(path: string, kind: string, severity: string, description: Option<string>)

  // The derived serialisation: fields in declaration order.
  function Head(c: Change): string {
    (("{\"path\":" + Quoted(c.path)) + (",\"kind\":" + Quoted(c.kind))) + (",\"severity\":" + Quoted(c.severity))
  }

  function ChangeJson(c: Change): string {
    Head(c) + (",\"description\":" + (if c.description.Some? then Quoted(c.description.value) else "null")) + ['}']
  }

  function Rows(changes: seq<Change>): seq<string> {
    seq(|changes|, i requires 0 <= i < |changes| => ChangeJson(changes[i]))
  }

  // The fingerprint of a report: its serialised rows, sorted, as one array.
  function ReportIdentity(changes: seq<Change>): string {
    Array(Sorted(Rows(changes)))
  }

  lemma TailIsUnique(p: string, x: string, a: string, q: string, y: string, b: string)
    requires EndsPlain(x) && x == y
    requires p + (x + Quoted(a)) == q + (y + Quoted(b))
    ensures p == q && a == b
  {
    assert (p + x) + Quoted(a) == p + (x + Quoted(a));
    assert (q + y) + Quoted(b) == q + (y + Quoted(b));
    PlainHasNoSlashes(p + x);
    PlainHasNoSlashes(q + y);
    QuotedTailIsUnique(p + x, a, q + y, b);
    assert p == (p + x)[..|p + x| - |x|] == q;
  }

  lemma HeadIsInjective(a: Change, b: Change)
    requires Head(a) == Head(b)
    ensures a.path == b.path && a.kind == b.kind && a.severity == b.severity
  {
    var x1, x2, x3 := "{\"path\":", ",\"kind\":", ",\"severity\":";
    var a2, b2 := (x1 + Quoted(a.path)) + (x2 + Quoted(a.kind)), (x1 + Quoted(b.path)) + (x2 + Quoted(b.kind));
    TailIsUnique(a2, x3, a.severity, b2, x3, b.severity);
    TailIsUnique(x1 + Quoted(a.path), x2, a.kind, x1 + Quoted(b.path), x2, b.kind);
    TailIsUnique([], x1, a.path, [], x1, b.path);
  }

  lemma ChangeJsonIsInjective(a: Change, b: Change)
    requires ChangeJson(a) == ChangeJson(b)
    ensures a == b
  {
    var x := ",\"description\":";
    var da := if a.description.Some? then Quoted(a.description.value) else "null";
    var db := if b.description.Some? then Quoted(b.description.value) else "null";
    SameBefore(Head(a) + (x + da), Head(b) + (x + db), '}');
    var s := Head(a) + (x + da);
    assert s[|s| - 1] == da[|da| - 1] == db[|db| - 1];
    if a.description.Some? {
      TailIsUnique(Head(a), x, a.description.value, Head(b), x, b.description.value);
    } else {
      assert Head(a) == s[..|s| - |x + da|] == Head(b);
    }
    HeadIsInjective(a, b);
  }

  lemma CountOfFirst<T>(s: seq<T>, x: T)
    requires s != []
    ensures multiset(s)[x] == multiset(s[1..])[x] + if s[0] == x then 1 else 0
  {
    assert s == [s[0]] + s[1..];
  }

  lemma SameJsonExactly(a: Change, b: Change)
    ensures ChangeJson(a) == ChangeJson(b) <==> a == b
  {
    if ChangeJson(a) == ChangeJson(b) {
      ChangeJsonIsInjective(a, b);
    }
  }

  lemma {:induction false} RowsCount(changes: seq<Change>, c: Change)
    ensures multiset(Rows(changes))[ChangeJson(c)] == multiset(changes)[c]
  {
    if changes != [] {
      var rest, rows := changes[1..], Rows(changes);
      RowsCount(rest, c);
      SameJsonExactly(changes[0], c);
      assert rows[1..] == Rows(rest);
      CountOfFirst(changes, c);
      CountOfFirst(rows, ChangeJson(c));
    }
  }

  lemma RowIsOfChange(changes: seq<Change>, r: string) returns (c: Change)
    requires r in multiset(Rows(changes))
    ensures c in multiset(changes) && ChangeJson(c) == r
  {
    assert r in Rows(changes);
    var i :| 0 <= i < |changes| && Rows(changes)[i] == r;
    c := changes[i];
    assert c in changes;
  }

  lemma RowsOfPermutation(a: seq<Change>, b: seq<Change>)
    requires multiset(a) == multiset(b)
    ensures multiset(Rows(a)) == multiset(Rows(b))
  {
    forall r: string
      ensures multiset(Rows(a))[r] == multiset(Rows(b))[r]
    {
      if r in multiset(Rows(a)) {
        var c := RowIsOfChange(a, r);
        RowsCount(a, c);
        RowsCount(b, c);
      } else if r in multiset(Rows(b)) {
        var c := RowIsOfChange(b, r);
        RowsCount(a, c);
        RowsCount(b, c);
      }
    }
  }

  // Reports have the same fingerprint exactly when they list the same changes,
  // in any order, each as often.
  lemma ReportsCollideExactly(a: seq<Change>, b: seq<Change>)
    ensures ReportIdentity(a) == ReportIdentity(b) <==> multiset(a) == multiset(b)
  {
    SortedForgetsOrder(Rows(a), Rows(b));
    if ReportIdentity(a) == ReportIdentity(b) {
      ArrayIsInjective(Sorted(Rows(a)), Sorted(Rows(b)));
      forall c: Change
        ensures multiset(a)[c] == multiset(b)[c]
      {
        RowsCount(a, c);
        RowsCount(b, c);
      }
    }
    if multiset(a) == multiset(b) {
      RowsOfPermutation(a, b);
    }
  }
}
