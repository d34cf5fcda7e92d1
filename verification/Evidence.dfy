/** The compliance evidence report (internal/evidence/evidence.go): one verdict
    per rule, built from the ordinary findings. */
module Evidence {
  import opened Seqs
  import opened Order
  import opened Inventory
  import opened Policy

  datatype Status = Pass | Fail | NotApplicable

  datatype Control = Control(ruleID: string, title: string, severity: Severity, status: Status, violations: seq<Finding>)

  datatype Pack = Pack(passed: nat, failed: nat, notApplicable: nat, controls: seq<Control>)

  /** Whether a rule had anything to check on this token. */
  predicate Applicable(inv: Inventory, rule: Rule) {
    if rule.when.TokenScoped() then true
    else if rule.when.class_ == "" then inv.objects != []
    else exists i :: 0 <= i < |inv.objects| && inv.objects[i].class_ == rule.when.class_
  }

  function OfRule(id: string): Finding -> bool { (f: Finding) => f.ruleID == id }

  function ControlFor(inv: Inventory, findings: seq<Finding>): Rule -> Control {
    (rule: Rule) =>
      var mine := Filter(findings, OfRule(rule.id));
      Control(rule.id, rule.title, rule.severity,
              if mine != [] then Fail else if Applicable(inv, rule) then Pass else NotApplicable, mine)
  }

  predicate Passed(c: Control) { c.status.Pass? }
  predicate Failed(c: Control) { c.status.Fail? }
  predicate Skipped(c: Control) { c.status.NotApplicable? }

  /** What Evaluate finds, in its severity order. */
  function FindingsOf(inv: Inventory, cfg: Config, rest: Rest): seq<Finding> {
    Scored(AllFindings(cfg.rules, inv, rest), ScoringOf(cfg)).findings
  }

  function PackOf(inv: Inventory, cfg: Config, rest: Rest): Pack {
    var controls := Map(cfg.rules, ControlFor(inv, FindingsOf(inv, cfg, rest)));
    Pack(CountIf(controls, Passed), CountIf(controls, Failed), CountIf(controls, Skipped), controls)
  }

  // ---- properties ----

  lemma {:induction false} CountsCover(cs: seq<Control>)
    ensures CountIf(cs, Passed) + CountIf(cs, Failed) + CountIf(cs, Skipped) == |cs|
  {
    if cs != [] { CountsCover(cs[..|cs| - 1]); }
  }

  /** Every rule gets exactly one verdict. */
  lemma VerdictsAddUp(inv: Inventory, cfg: Config, rest: Rest)
    ensures var p := PackOf(inv, cfg, rest); p.passed + p.failed + p.notApplicable == |cfg.rules|
  {
    CountsCover(PackOf(inv, cfg, rest).controls);
  }

  /** A rule that found something had something to check. */
  lemma FindingMeansApplicable(inv: Inventory, rule: Rule, rest: Rest)
    requires RuleFindings(rule, inv, rest) != []
    ensures Applicable(inv, rule)
  {
    if !rule.when.TokenScoped() {
      var p := FiresOn(rule, inv.objects, rest);
      FilterLength(inv.objects, p);
      CountIfPositive(inv.objects, p);
      var i :| 0 <= i < |inv.objects| && p(inv.objects[i]);
    }
  }

  lemma {:induction false} FilterNone<T>(s: seq<T>, p: T -> bool)
    requires forall x :: x in s ==> !p(x)
    ensures Filter(s, p) == []
  {
    if s != [] {
      assert forall x :: x in s[..|s| - 1] ==> x in s;
      FilterNone(s[..|s| - 1], p);
    }
  }

  lemma {:induction false} FilterAll<T>(s: seq<T>, p: T -> bool)
    requires forall x :: x in s ==> p(x)
    ensures Filter(s, p) == s
  {
    if s != [] {
      assert forall x :: x in s[..|s| - 1] ==> x in s;
      FilterAll(s[..|s| - 1], p);
    }
  }

  lemma {:induction false} FilterTwice<T>(s: seq<T>, p: T -> bool, q: T -> bool)
    requires forall x :: x in s && q(x) ==> p(x)
    ensures Filter(Filter(s, p), q) == Filter(s, q)
  {
    if s != [] {
      var init, x := s[..|s| - 1], s[|s| - 1];
      assert forall y :: y in init ==> y in s;
      FilterTwice(init, p, q);
      if p(x) { FilterSnoc(Filter(init, p), x, q); }
    }
  }

  lemma RuleFindingsCarryRule(rule: Rule, inv: Inventory, rest: Rest)
    ensures forall f :: f in RuleFindings(rule, inv, rest) ==> f.ruleID == rule.id && f.severity == rule.severity
  {
    forall f | f in RuleFindings(rule, inv, rest) ensures f.ruleID == rule.id && f.severity == rule.severity {
      if !rule.when.TokenScoped() {
        MapMembers(Filter(inv.objects, FiresOn(rule, inv.objects, rest)), FindingFor(rule), f);
      }
    }
  }

  /** With unique IDs, the findings that carry a rule's ID are the rule's own. */
  lemma {:induction false} OwnFindings(rules: seq<Rule>, inv: Inventory, rest: Rest, k: nat)
    requires UniqueIds(rules) && k < |rules|
    ensures Filter(AllFindings(rules, inv, rest), OfRule(rules[k].id)) == RuleFindings(rules[k], inv, rest)
  {
    var init, last := rules[..|rules| - 1], rules[|rules| - 1];
    var p := OfRule(rules[k].id);
    FilterAppend(AllFindings(init, inv, rest), RuleFindings(last, inv, rest), p);
    RuleFindingsCarryRule(last, inv, rest);
    if k == |rules| - 1 {
      OthersDoNotCarry(init, inv, rest, last.id);
      FilterAll(RuleFindings(last, inv, rest), p);
      assert [] + RuleFindings(last, inv, rest) == RuleFindings(last, inv, rest);
    } else {
      OwnFindings(init, inv, rest, k);
      FilterNone(RuleFindings(last, inv, rest), p);
    }
  }

  lemma {:induction false} OthersDoNotCarry(rules: seq<Rule>, inv: Inventory, rest: Rest, id: string)
    requires forall i :: 0 <= i < |rules| ==> rules[i].id != id
    ensures Filter(AllFindings(rules, inv, rest), OfRule(id)) == []
  {
    if rules != [] {
      var init, last := rules[..|rules| - 1], rules[|rules| - 1];
      OthersDoNotCarry(init, inv, rest, id);
      FilterAppend(AllFindings(init, inv, rest), RuleFindings(last, inv, rest), OfRule(id));
      RuleFindingsCarryRule(last, inv, rest);
      FilterNone(RuleFindings(last, inv, rest), OfRule(id));
    }
  }

  lemma {:induction false} FindingComesFromRule(rules: seq<Rule>, inv: Inventory, rest: Rest, f: Finding)
    requires f in AllFindings(rules, inv, rest)
    ensures exists k :: 0 <= k < |rules| && f in RuleFindings(rules[k], inv, rest)
  {
    var init, last := rules[..|rules| - 1], rules[|rules| - 1];
    if f in RuleFindings(last, inv, rest) {
    } else {
      FindingComesFromRule(init, inv, rest, f);
      var k :| 0 <= k < |init| && f in RuleFindings(init[k], inv, rest);
      assert f in RuleFindings(rules[k], inv, rest);
    }
  }

  lemma SeverityOfRule(rules: seq<Rule>, inv: Inventory, rest: Rest, k: nat, f: Finding)
    requires UniqueIds(rules) && k < |rules| && f in AllFindings(rules, inv, rest) && f.ruleID == rules[k].id
    ensures f.severity == rules[k].severity
  {
    FindingComesFromRule(rules, inv, rest, f);
    var i :| 0 <= i < |rules| && f in RuleFindings(rules[i], inv, rest);
    RuleFindingsCarryRule(rules[i], inv, rest);
    assert i == k;
  }

  /** A stable sort does not reorder the findings of one rule. */
  lemma SortKeepsRule(all: seq<Finding>, sorted: seq<Finding>, y: Finding, id: string)
    requires Filter(sorted, TiedTo(y, SeverityLe)) == Filter(all, TiedTo(y, SeverityLe))
    requires forall f :: f in sorted <==> f in all
    requires forall f :: f in all && f.ruleID == id ==> f.severity == y.severity
    ensures Filter(sorted, OfRule(id)) == Filter(all, OfRule(id))
  {
    forall f | f in sorted && OfRule(id)(f) ensures TiedTo(y, SeverityLe)(f) {
      assert f in all && SeverityLe(y, f) && SeverityLe(f, y);
    }
    forall f | f in all && OfRule(id)(f) ensures TiedTo(y, SeverityLe)(f) {
      assert SeverityLe(y, f) && SeverityLe(f, y);
    }
    FilterTwice(sorted, TiedTo(y, SeverityLe), OfRule(id));
    FilterTwice(all, TiedTo(y, SeverityLe), OfRule(id));
  }

  /** The violations attached to a control are exactly its rule's findings, in
      the order of the objects: sorting by severity does not reorder them. */
  lemma ViolationsAreRuleFindings(inv: Inventory, cfg: Config, rest: Rest, k: nat)
    requires UniqueIds(cfg.rules) && k < |cfg.rules|
    ensures PackOf(inv, cfg, rest).controls[k].violations == RuleFindings(cfg.rules[k], inv, rest)
  {
    var all, rule := AllFindings(cfg.rules, inv, rest), cfg.rules[k];
    var y := Finding(rule.id, rule.title, rule.severity, "");
    ScoredMeaning(all, ScoringOf(cfg), y);
    SortPermutes(all, SeverityLe);
    forall f | f in all && f.ruleID == rule.id ensures f.severity == y.severity {
      SeverityOfRule(cfg.rules, inv, rest, k, f);
    }
    SortKeepsRule(all, FindingsOf(inv, cfg, rest), y, rule.id);
    OwnFindings(cfg.rules, inv, rest, k);
  }

  function Violations(cs: seq<Control>): seq<Finding> {
    if cs == [] then [] else Violations(cs[..|cs| - 1]) + cs[|cs| - 1].violations
  }

  lemma {:induction false} ViolationCount(rules: seq<Rule>, inv: Inventory, findings: seq<Finding>, x: Finding)
    requires UniqueIds(rules)
    ensures multiset(Violations(Map(rules, ControlFor(inv, findings))))[x]
         == if HasId(rules, x.ruleID) then multiset(findings)[x] else 0
  {
    if rules != [] {
      var init, last := rules[..|rules| - 1], rules[|rules| - 1];
      ViolationCount(init, inv, findings, x);
      assert rules == init + [last];
      MapSnoc(init, last, ControlFor(inv, findings));
      HasIdSnoc(init, last, x.ruleID);
      FilterMultiset(findings, OfRule(last.id), x);
      assert last.id == x.ruleID ==> !HasId(init, x.ruleID);
      var cs := Map(init, ControlFor(inv, findings));
      assert (cs + [ControlFor(inv, findings)(last)])[..|cs|] == cs;
    }
  }

  /** With unique rule IDs the violations of all controls are a rearrangement of
      the findings: none is attached twice and none is lost. */
  lemma ViolationsPartition(inv: Inventory, cfg: Config, rest: Rest)
    requires UniqueIds(cfg.rules)
    ensures multiset(Violations(PackOf(inv, cfg, rest).controls)) == multiset(FindingsOf(inv, cfg, rest))
  {
    var findings := FindingsOf(inv, cfg, rest);
    var attached := Violations(PackOf(inv, cfg, rest).controls);
    SortPermutes(AllFindings(cfg.rules, inv, rest), SeverityLe);
    forall x ensures multiset(attached)[x] == multiset(findings)[x] {
      ViolationCount(cfg.rules, inv, findings, x);
      if x in findings {
        FindingComesFromRule(cfg.rules, inv, rest, x);
        var k :| 0 <= k < |cfg.rules| && x in RuleFindings(cfg.rules[k], inv, rest);
        RuleFindingsCarryRule(cfg.rules[k], inv, rest);
        assert HasId(cfg.rules, x.ruleID);
      }
    }
  }

  /** The order in which the verdict cases are tried is immaterial: asking for
      applicability first gives the same verdict. */
  lemma CaseOrderIsImmaterial(inv: Inventory, cfg: Config, rest: Rest, k: nat)
    requires UniqueIds(cfg.rules) && k < |cfg.rules|
    ensures PackOf(inv, cfg, rest).controls[k].status
         == if !Applicable(inv, cfg.rules[k]) then NotApplicable
            else if RuleFindings(cfg.rules[k], inv, rest) == [] then Pass else Fail
  {
    ViolationsAreRuleFindings(inv, cfg, rest, k);
    if RuleFindings(cfg.rules[k], inv, rest) != [] { FindingMeansApplicable(inv, cfg.rules[k], rest); }
  }

  // ---- the program ----

  method IsApplicable(inv: Inventory, rule: Rule) returns (r: bool)
    ensures r <==> Applicable(inv, rule)
  {
    if |rule.when.mechanismAnyOf| > 0 || |rule.when.mechanismMissing| > 0 { return true; }
    if rule.when.class_ == "" { return |inv.objects| > 0; }
    for i := 0 to |inv.objects|
      invariant forall j :: 0 <= j < i ==> inv.objects[j].class_ != rule.when.class_
    {
      if inv.objects[i].class_ == rule.when.class_ { return true; }
    }
    return false;
  }

  method GroupByRule(findings: seq<Finding>) returns (byRule: map<string, seq<Finding>>)
    ensures forall id :: (if id in byRule then byRule[id] else []) == Filter(findings, OfRule(id))
  {
    byRule := map[];
    for i := 0 to |findings|
      invariant forall id :: (if id in byRule then byRule[id] else []) == Filter(findings[..i], OfRule(id))
    {
      var f := findings[i];
      assert findings[..i + 1] == findings[..i] + [f];
      forall id ensures Filter(findings[..i + 1], OfRule(id))
        == if f.ruleID == id then Filter(findings[..i], OfRule(id)) + [f] else Filter(findings[..i], OfRule(id))
      {
        FilterSnoc(findings[..i], f, OfRule(id));
      }
      byRule := byRule[f.ruleID := (if f.ruleID in byRule then byRule[f.ruleID] else []) + [f]];
    }
    assert findings[..|findings|] == findings;
  }

  /** The loop over the rules that builds the controls and counts verdicts. */
  method BuildControls(inv: Inventory, rules: seq<Rule>, findings: seq<Finding>) returns (pack: Pack)
    ensures pack.controls == Map(rules, ControlFor(inv, findings))
    ensures pack.passed == CountIf(pack.controls, Passed) && pack.failed == CountIf(pack.controls, Failed)
    ensures pack.notApplicable == CountIf(pack.controls, Skipped)
  {
    var byRule := GroupByRule(findings);
    var passed: nat, failed: nat, notApplicable: nat := 0, 0, 0;
    var controls: seq<Control> := [];
    for i := 0 to |rules|
      invariant controls == Map(rules[..i], ControlFor(inv, findings))
      invariant passed == CountIf(controls, Passed)
      invariant failed == CountIf(controls, Failed)
      invariant notApplicable == CountIf(controls, Skipped)
    {
      var rule := rules[i];
      assert rules[..i + 1] == rules[..i] + [rule];
      MapSnoc(rules[..i], rule, ControlFor(inv, findings));
      var mine := if rule.id in byRule then byRule[rule.id] else [];
      var applies := IsApplicable(inv, rule);
      var status := NotApplicable;
      if |mine| > 0 {
        status, failed := Fail, failed + 1;
      } else if applies {
        status, passed := Pass, passed + 1;
      } else {
        notApplicable := notApplicable + 1;
      }
      var control := Control(rule.id, rule.title, rule.severity, status, mine);
      CountIfAppend(controls, control, Passed);
      CountIfAppend(controls, control, Failed);
      CountIfAppend(controls, control, Skipped);
      controls := controls + [control];
    }
    assert rules[..|rules|] == rules;
    pack := Pack(passed, failed, notApplicable, controls);
  }

  /** Evaluates one pack and gives every rule its verdict. */
  method BuildPack(inv: Inventory, cfg: Config, rest: Rest) returns (pack: Pack)
    ensures pack == PackOf(inv, cfg, rest)
  {
    var res := Evaluate(inv, cfg, rest);
    assert res.findings == FindingsOf(inv, cfg, rest);
    pack := BuildControls(inv, cfg.rules, res.findings);
  }
}
