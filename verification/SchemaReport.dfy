/**
 * A submitted report whose fingerprint is accepted as a protobuf schema, so that a
 * comparison can be answered with it (radar-api/src/diffs.rs, radar-core/src/proto.rs).
 */
module SchemaReport {
  import opened DiffCache
  import opened JsonText
  import opened Options
  import opened ProtoScanner
  import opened SnapshotIdentity
  import opened TextOrder

  // The path of a change is free text; this one looks like the end of a block and a
  // message to the protobuf scanner.
  const SCHEMA_PATH := "};message M{}"

  lemma {:induction false} EscapeConcat(a: string, b: string)
    ensures Escape(a + b) == Escape(a) + Escape(b)
  {
    if a == [] {
      assert a + b == b;
    } else {
      assert (a + b)[0] == a[0] && (a + b)[1..] == a[1..] + b;
      EscapeConcat(a[1..], b);
    }
  }

  ghost predicate PlainText(s: string) {
    forall i :: 0 <= i < |s| ==> s[i] != '\"' && s[i] != '\\' && s[i] as int >= 32
  }

  lemma {:induction false} EscapePlain(s: string)
    requires PlainText(s)
    ensures Escape(s) == s
  {
    if s != [] {
      EscapePlain(s[1..]);
      assert s == [s[0]] + s[1..];
    }
  }

  lemma {:induction false} EscapeQuote(s: string)
    ensures Escape(['\"'] + s) == ['\\', '\"'] + Escape(s)
  {
    assert (['\"'] + s)[1..] == s;
  }

  // The serialised change, up to the end of the path, as it stands in the array.
  lemma {:induction false} EscapedHead(rest: string)
    ensures Escape("{" + (['\"'] + ("path" + (['\"'] + (":" + (['\"'] + (SCHEMA_PATH + rest)))))))
         == "{" + (['\\', '\"'] + ("path" + (['\\', '\"'] + (":" + (['\\', '\"'] + (SCHEMA_PATH + Escape(rest)))))))
  {
    EscapePlain("{");
    EscapePlain("path");
    EscapePlain(":");
    SchemaPathIsPlain();
    EscapePlain(SCHEMA_PATH);
    EscapeConcat(SCHEMA_PATH, rest);
    EscapeTail(SCHEMA_PATH + rest);
  }

  lemma {:induction false} EscapeTail(tail: string)
    requires Escape("{") == "{" && Escape("path") == "path" && Escape(":") == ":"
    ensures Escape("{" + (['\"'] + ("path" + (['\"'] + (":" + (['\"'] + tail))))))
         == "{" + (['\\', '\"'] + ("path" + (['\\', '\"'] + (":" + (['\\', '\"'] + Escape(tail))))))
  {
    var c := ['\"'] + tail;
    EscapeQuote(tail);
    EscapeConcat(":", c);
    EscapeQuote(":" + c);
    EscapeConcat("path", ['\"'] + (":" + c));
    EscapeQuote("path" + (['\"'] + (":" + c)));
    EscapeConcat("{", ['\"'] + ("path" + (['\"'] + (":" + c))));
  }

  // What stands between the opening brace and the path.
  const PATH_KEY: string := ['\\', '\"'] + "path" + ['\\', '\"'] + ":" + ['\\', '\"']

  lemma SchemaPathIsPlain()
    ensures PlainText(SCHEMA_PATH)
  {
  }

  lemma QuotedPlain(s: string)
    requires PlainText(s)
    ensures Quoted(s) == ['\"'] + (s + ['\"'])
  {
    EscapePlain(s);
  }

  // The serialised change, cut behind the path.
  lemma ChangeJsonStarts(c: Change) returns (rest: string)
    requires c.path == SCHEMA_PATH
    ensures ChangeJson(c) == "{" + (['\"'] + ("path" + (['\"'] + (":" + (['\"'] + (SCHEMA_PATH + rest))))))
  {
    SchemaPathIsPlain();
    QuotedPlain(c.path);
    var x2, x3 := ",\"kind\":" + Quoted(c.kind), ",\"severity\":" + Quoted(c.severity);
    var x4 := ",\"description\":" + (if c.description.Some? then Quoted(c.description.value) else "null");
    rest := ['\"'] + x2 + x3 + x4 + ['}'];
    Regroup(SCHEMA_PATH, x2, x3, x4);
    KeyRegrouped(SCHEMA_PATH + rest);
  }

  lemma Regroup(path: string, x2: string, x3: string, x4: string)
    ensures ((("{\"path\":" + (['\"'] + (path + ['\"']))) + x2) + x3) + x4 + ['}']
         == "{\"path\":" + (['\"'] + (path + (['\"'] + x2 + x3 + x4 + ['}'])))
  {
  }

  lemma KeyRegrouped(tail: string)
    ensures "{\"path\":" + (['\"'] + tail) == "{" + (['\"'] + ("path" + (['\"'] + (":" + (['\"'] + tail)))))
  {
  }

  lemma OneRow(c: Change)
    ensures ReportIdentity([c]) == ['['] + Quoted(ChangeJson(c)) + [']']
  {
    assert Rows([c]) == [ChangeJson(c)];
    var x := ChangeJson(c);
    assert [x][1..] == [];
    assert Sorted([x]) == Insert(x, Sorted([])) == [x];
  }

  lemma FingerprintRegrouped(e: string)
    ensures ['['] + (['\"'] + ("{" + (['\\', '\"'] + ("path"
                    + (['\\', '\"'] + (":" + (['\\', '\"'] + (SCHEMA_PATH + e)))))))
                    + ['\"']) + [']']
         == ['[', '\"', '{'] + PATH_KEY + SCHEMA_PATH + (e + ['\"', ']'])
  {
  }

  // Whatever else the change says, the scanner takes the fingerprint of the report
  // for a schema with a message.
  lemma FingerprintIsSchema(c: Change)
    requires c.path == SCHEMA_PATH
    ensures DefinesMessage(ReportIdentity([c]))
  {
    var e := FingerprintStarts(c);
    SchemaTextIsAccepted(e + ['\"', ']']);
  }

  lemma FingerprintStarts(c: Change) returns (e: string)
    requires c.path == SCHEMA_PATH
    ensures ReportIdentity([c]) == ['[', '\"', '{'] + PATH_KEY + SCHEMA_PATH + (e + ['\"', ']'])
  {
    var rest := ChangeJsonStarts(c);
    e := Escape(rest);
    EscapedHead(rest);
    OneRow(c);
    FingerprintRegrouped(e);
  }

  lemma SchemaTextIsAccepted(rest: string)
    ensures DefinesMessage(['[', '\"', '{'] + PATH_KEY + SCHEMA_PATH + rest)
  {
    Accepted('[', '\"', PATH_KEY, rest);
  }

  // Of two requests for one transition, the second is answered with the first.
  lemma {:induction false} TwoRequests(a: Request, b: Request, id: string)
    requires a.transition == b.transition
    ensures var reqs: Requests := map[0 := a, 1 := b];
            exists steps :: var s := Run(reqs, Start(reqs), steps);
              s.phases == map[0 := Done(id), 1 := Done(id)] && RowsOf(s.db.changes, id) == a.changes
  {
    var reqs: Requests := map[0 := a, 1 := b];
    var steps := OneAfterTheOther(reqs, 0, 1, id);
    assert Run(reqs, Start(reqs), steps).phases == map[0 := Done(id), 1 := Done(id)];
  }

  // Such a report under the format "proto", then a comparison of its fingerprint with
  // itself under the same labels: the comparison is answered with the report's change,
  // though two equal texts have none.
  lemma {:induction false} ComparisonMeetsReport(h: Hashing, engine: Engine, serviceId: string, fromRef: string,
      toRef: string, c: Change, now: int, id: string)
    requires c.path == SCHEMA_PATH && h.lower("proto") == "proto"
    requires forall text :: DefinesMessage(text) ==> engine(Protobuf, text, text) == Some([])
    ensures var report := CreateBody(serviceId, fromRef, toRef, "proto", None, [c], now);
            var text := ReportIdentity([c]);
            var compared := CompareRequest(h, engine, CompareBody(serviceId, fromRef, toRef, "proto", text, text, now));
            && compared.Some? && compared.value.changes == []
            && var reqs: Requests := map[0 := CreateRequest(h, report), 1 := compared.value];
            exists steps :: var s := Run(reqs, Start(reqs), steps);
              s.phases == map[0 := Done(id), 1 := Done(id)] && RowsOf(s.db.changes, id) == [c]
  {
    FingerprintIsSchema(c);
    var report := CreateBody(serviceId, fromRef, toRef, "proto", None, [c], now);
    var d := CompareBody(serviceId, fromRef, toRef, "proto", ReportIdentity([c]), ReportIdentity([c]), now);
    SharedTransition(h, engine, report, d);
    TwoRequests(CreateRequest(h, report), CompareRequest(h, engine, d).value, id);
  }

  lemma SharedTransition(h: Hashing, engine: Engine, a: CreateBody, b: CompareBody)
    requires a.format == b.format == "proto" && h.lower("proto") == "proto" && a.spec == None
    requires a.serviceId == b.serviceId && a.fromRef == b.baseRef && a.toRef == b.headRef
    requires b.base == b.head == ReportIdentity(a.changes) && engine(Protobuf, b.base, b.head) == Some([])
    ensures var compared := CompareRequest(h, engine, b);
            && compared.Some? && compared.value.changes == []
            && CreateRequest(h, a).transition == compared.value.transition
  {
  }
}
