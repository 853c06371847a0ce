/**
 * Relaxing the severity of reported changes by organisation rules
 * (radar-api/src/utils.rs).
 *
 * A change is a JSON object; a field is absent here when the object lacks it or
 * holds something other than text under that name.
 */
module EvolutionRules {
  import opened GlobMatcher
  import opened Options

  datatype Applied = Applied(id: string, name: string, originalSeverity: string)

  datatype Change = Change(
    kind: Option<string>,
    path: Option<string>,
    severity: Option<string>,
    description: Option<string>,
    applied: Option<Applied>)

  datatype Rule = Rule(id: string, name: string, pattern: Option<string>, kind: string, severity: string)

  function SeverityRank(s: string): nat {
    if s == "non_breaking_risky" then 1 else if s == "breaking" then 2 else 0
  }

  predicate IsSeverityDowngrade(current: string, to: string) {
    SeverityRank(to) < SeverityRank(current)
  }

  function Rank(c: Change): nat {
    SeverityRank(c.severity.GetOr(""))
  }

  // ---------------------------------------------------------------------
  // Meaning
  // ---------------------------------------------------------------------

  // Whether a rule is about a change at all.
  ghost predicate Concerns(r: Rule, c: Change) {
    r.kind == c.kind.GetOr("") && PathMatches(r.pattern.GetOr(""), c.path.GetOr(""))
  }

  ghost predicate Lowers(r: Rule, c: Change) {
    Concerns(r, c) && IsSeverityDowngrade(c.severity.GetOr(""), r.severity)
  }

  function Relaxed(c: Change, r: Rule): Change {
    c.(severity := Some(r.severity),
       applied := Some(Applied(r.id, r.name, c.severity.GetOr(""))))
  }

  ghost function Override(c: Change, rules: seq<Rule>): Change {
    if rules == [] then c
    else if Lowers(rules[0], c) then Relaxed(c, rules[0])
    else Override(c, rules[1..])
  }

  ghost function OverrideAll(changes: seq<Change>, rules: seq<Rule>): seq<Change> {
    seq(|changes|, i requires 0 <= i < |changes| => Override(changes[i], rules))
  }

  // The first rule that lowers a change decides; without one nothing happens.
  lemma {:induction false} OverrideAt(c: Change, rules: seq<Rule>, k: nat)
    requires k <= |rules| && forall j :: 0 <= j < k ==> !Lowers(rules[j], c)
    ensures k == |rules| ==> Override(c, rules) == c
    ensures k < |rules| && Lowers(rules[k], c) ==> Override(c, rules) == Relaxed(c, rules[k])
  {
    if k > 0 {
      assert forall j :: 0 <= j < k - 1 ==> rules[1..][j] == rules[j + 1];
      OverrideAt(c, rules[1..], k - 1);
    }
  }

  // ---------------------------------------------------------------------
  // The loop
  // ---------------------------------------------------------------------

  method OverrideOne(change: Change, rules: seq<Rule>) returns (c: Change)
    ensures c == Override(change, rules)
  {
    c := change;
    var kind, path := c.kind.GetOr(""), c.path.GetOr("");
    var current := c.severity.GetOr("");
    var i := 0;
    while i < |rules|
      invariant 0 <= i <= |rules|
      invariant c == change
      invariant forall j :: 0 <= j < i ==> !Lowers(rules[j], change)
    {
      var rule := rules[i];
      var concerned := rule.kind == kind;
      if concerned {
        concerned := TestPath(rule.pattern.GetOr(""), path);
      }
      if concerned && IsSeverityDowngrade(current, rule.severity) {
        c := c.(severity := Some(rule.severity));
        c := c.(applied := Some(Applied(rule.id, rule.name, current)));
        break;
      }
      i := i + 1;
    }
    OverrideAt(change, rules, i);
  }

  method ApplyEvolutionRules(changes: seq<Change>, rules: seq<Rule>) returns (out: seq<Change>)
    ensures out == OverrideAll(changes, rules)
  {
    out := [];
    for i := 0 to |changes|
      invariant out == OverrideAll(changes[..i], rules)
    {
      var c := OverrideOne(changes[i], rules);
      out := out + [c];
      assert changes[..i + 1] == changes[..i] + [changes[i]];
    }
    assert changes[..|changes|] == changes;
  }

  // ---------------------------------------------------------------------
  // What the rules can and cannot do
  // ---------------------------------------------------------------------

  lemma FirstLowering(c: Change, rules: seq<Rule>) returns (k: nat)
    ensures k <= |rules| && forall j :: 0 <= j < k ==> !Lowers(rules[j], c)
    ensures k < |rules| ==> Lowers(rules[k], c)
  {
    k := 0;
    while k < |rules| && !Lowers(rules[k], c)
      invariant k <= |rules| && forall j :: 0 <= j < k ==> !Lowers(rules[j], c)
    {
      k := k + 1;
    }
  }

  // A rule asks for less than the change has, and is about its kind and path.
  ghost predicate AsksForLess(r: Rule, kind: string, path: string, severity: string) {
    && r.kind == kind && (r.pattern.None? || PathMatches(r.pattern.value, path))
    && ((severity == "breaking" && r.severity != "breaking")
        || (severity == "non_breaking_risky" && r.severity !in ["breaking", "non_breaking_risky"]))
  }

  // What comes out for a change: itself if no rule of its kind and path asks for less;
  // else the first such rule's severity, and a note of the rule and the severity before.
  lemma {:induction false} OverrideMeans(c: Change, rules: seq<Rule>)
    ensures var kind, path, severity := c.kind.GetOr(""), c.path.GetOr(""), c.severity.GetOr("");
            || (Override(c, rules) == c && forall r :: r in rules ==> !AsksForLess(r, kind, path, severity))
            || exists k :: 0 <= k < |rules| && AsksForLess(rules[k], kind, path, severity)
                 && (forall j :: 0 <= j < k ==> !AsksForLess(rules[j], kind, path, severity))
                 && Override(c, rules)
                    == Change(c.kind, c.path, Some(rules[k].severity), c.description,
                              Some(Applied(rules[k].id, rules[k].name, severity)))
  {
    var k := FirstLowering(c, rules);
    OverrideAt(c, rules, k);
    forall r ensures Lowers(r, c) <==> AsksForLess(r, c.kind.GetOr(""), c.path.GetOr(""), c.severity.GetOr("")) {
      LowersMeans(r, c);
    }
  }

  lemma LowersMeans(r: Rule, c: Change)
    ensures Lowers(r, c) <==> AsksForLess(r, c.kind.GetOr(""), c.path.GetOr(""), c.severity.GetOr(""))
  {
    var path := c.path.GetOr("");
    assert PathMatches("", path);
  }

  // Severity only ever goes down, and goes down exactly when some rule lowers
  // it; everything but severity and the note about the rule stays.
  lemma {:induction false} OverrideOnlyRelaxes(c: Change, rules: seq<Rule>)
    ensures var r := Override(c, rules);
            && Rank(r) <= Rank(c)
            && (Rank(r) < Rank(c) <==> exists k :: 0 <= k < |rules| && Lowers(rules[k], c))
            && (Rank(r) == Rank(c) ==> r == c)
            && r.(severity := c.severity, applied := c.applied) == c
  {
    var k := FirstLowering(c, rules);
    OverrideAt(c, rules, k);
  }

  // Two applications reach a fixed point, since there are three ranks.
  lemma TwoApplicationsSuffice(changes: seq<Change>, rules: seq<Rule>)
    ensures var twice := OverrideAll(OverrideAll(changes, rules), rules);
            OverrideAll(twice, rules) == twice
  {
    forall i | 0 <= i < |changes|
      ensures var r := Override(Override(changes[i], rules), rules); Override(r, rules) == r
    {
      var c := changes[i];
      OverrideOnlyRelaxes(c, rules);
      OverrideOnlyRelaxes(Override(c, rules), rules);
      OverrideOnlyRelaxes(Override(Override(c, rules), rules), rules);
      SameConcern(c, rules);
      SameConcern(Override(c, rules), rules);
    }
  }

  lemma {:induction false} SameConcern(c: Change, rules: seq<Rule>)
    ensures forall r :: r in rules ==> (Concerns(r, Override(c, rules)) <==> Concerns(r, c))
    ensures Override(c, rules) == c ==> Override(Override(c, rules), rules) == Override(c, rules)
  {
    OverrideOnlyRelaxes(c, rules);
  }

  // With `k` the first rule that lowers a change, if there is one: one application is
  // final exactly when no later rule about the change asks for less than that one.
  lemma {:induction false} OneApplicationSuffices(c: Change, rules: seq<Rule>, k: nat)
    requires k <= |rules| && forall j :: 0 <= j < k ==> !Lowers(rules[j], c)
    requires k < |rules| ==> Lowers(rules[k], c)
    ensures Override(Override(c, rules), rules) == Override(c, rules)
       <==> k == |rules| || forall j :: k < j < |rules| && Concerns(rules[j], c)
                              ==> SeverityRank(rules[j].severity) >= SeverityRank(rules[k].severity)
  {
    var r := Override(c, rules);
    OverrideAt(c, rules, k);
    OverrideOnlyRelaxes(r, rules);
    forall j | 0 <= j < |rules|
      ensures Lowers(rules[j], r) <==> Concerns(rules[j], c) && SeverityRank(rules[j].severity) < Rank(r)
    {
      SameConcern(c, rules);
      assert rules[j] in rules;
    }
  }

  // So a list that relaxes a little before it relaxes a lot needs a second pass.
  lemma OneApplicationMayNotSuffice()
    ensures exists c, rules :: Override(Override(c, rules), rules) != Override(c, rules)
  {
    var c := Change(Some("field_removed"), Some("users.id"), Some("breaking"), None, None);
    var rules := [
      Rule("1", "risky", None, "field_removed", "non_breaking_risky"),
      Rule("2", "safe", None, "field_removed", "safe")];
    assert Lowers(rules[0], c);
    assert Override(c, rules) == Relaxed(c, rules[0]);
    assert Lowers(rules[1], c);
    OneApplicationSuffices(c, rules, 0);
    assert Override(Override(c, rules), rules) != Override(c, rules);
  }
}
