/** The outcome of an evaluation in the words of the rules and the inventory
    (internal/policy): which findings there are, how they are ordered, what they
    cost, and what the evidence report makes of them. */
module PolicyMeaning {
  import opened Seqs
  import opened Order
  import opened Inventory
  import opened Policy
  import Evidence
  import Doctor

  // ---- order ----

  /** Something of severity s may stand in front of something of severity t: no
      less severe one ever does. A severity outside the table stands with the
      critical ones. */
  predicate MayPrecede(s: Severity, t: Severity) {
    && (t.Critical? ==> s.Critical? || s.Unknown?)
    && (t.Unknown? ==> s.Critical? || s.Unknown?)
    && (t.High? ==> s.Critical? || s.High? || s.Unknown?)
    && (t.Medium? ==> !s.Low? && !s.Info?)
    && (t.Low? ==> !s.Info?)
  }

  function Of(s: Severity): Finding -> bool { (f: Finding) => f.severity == s }

  function IssueOf(s: Severity): Doctor.Issue -> bool { (x: Doctor.Issue) => x.severity == s }

  lemma RankMeaning(s: Severity, t: Severity)
    ensures Rank(s) <= Rank(t) <==> MayPrecede(s, t)
  {
  }

  lemma FindingsInOrder(out: seq<Finding>)
    requires Sorted(out, SeverityLe)
    ensures forall i, j :: 0 <= i < j < |out| ==> MayPrecede(out[i].severity, out[j].severity)
  {
    hide Rank, MayPrecede;
    forall i, j | 0 <= i < j < |out| ensures MayPrecede(out[i].severity, out[j].severity) {
      assert SeverityLe(out[i], out[j]);
      RankMeaning(out[i].severity, out[j].severity);
    }
  }

  lemma Tied(f: Finding, s: Severity)
    requires f.severity == s
    ensures TiedTo(Finding("", "", s, ""), SeverityLe)(f)
  {
    var y := Finding("", "", s, "");
    assert SeverityLe(y, f) && SeverityLe(f, y);
  }

  lemma OneSeverity(fs: seq<Finding>, s: Severity)
    ensures Filter(Filter(fs, TiedTo(Finding("", "", s, ""), SeverityLe)), Of(s))
         == Filter(fs, Of(s))
  {
    hide Seqs.Filter, Rank;
    var p, y := Of(s), Finding("", "", s, "");
    forall f | f in fs && p(f) ensures TiedTo(y, SeverityLe)(f) { Tied(f, s); }
    Evidence.FilterTwice(fs, TiedTo(y, SeverityLe), p);
  }

  /** In the findings of an evaluation, and after merging further ones, no finding
      stands behind a less severe one, and those of one severity keep the order
      they were found in. */
  lemma MostSevereFirst(fs: seq<Finding>, sc: Scoring, s: Severity)
    ensures var out := Scored(fs, sc).findings;
            && (forall i, j :: 0 <= i < j < |out| ==> MayPrecede(out[i].severity, out[j].severity))
            && Filter(out, Of(s)) == Filter(fs, Of(s))
            && multiset(out) == multiset(fs)
  {
    hide Seqs.Filter, Sort, Sorted, Rank, MayPrecede, TotalPenalty;
    ScoredMeaning(fs, sc, Finding("", "", s, ""));
    FindingsInOrder(Scored(fs, sc).findings);
    OneSeverity(fs, s);
    OneSeverity(Scored(fs, sc).findings, s);
  }

  lemma MergedIsOrdered(o: Outcome, extra: seq<Finding>, sc: Scoring)
    requires extra != []
    ensures var out := Merged(o, extra, sc).findings;
            && (forall i, j :: 0 <= i < j < |out| ==> MayPrecede(out[i].severity, out[j].severity))
            && multiset(out) == multiset(o.findings + extra)
  {
    MostSevereFirst(o.findings + extra, sc, Info);
  }

  lemma IssuesInOrder(out: seq<Doctor.Issue>)
    requires Sorted(out, Doctor.IssueLe)
    ensures forall i, j :: 0 <= i < j < |out| ==> MayPrecede(out[i].severity, out[j].severity)
  {
    hide Rank, MayPrecede;
    forall i, j | 0 <= i < j < |out| ensures MayPrecede(out[i].severity, out[j].severity) {
      assert Doctor.IssueLe(out[i], out[j]);
      RankMeaning(out[i].severity, out[j].severity);
    }
  }

  lemma TiedIssue(x: Doctor.Issue, s: Severity)
    requires x.severity == s
    ensures TiedTo(Doctor.Issue(s, "", ""), Doctor.IssueLe)(x)
  {
    var y := Doctor.Issue(s, "", "");
    assert Doctor.IssueLe(y, x) && Doctor.IssueLe(x, y);
  }

  lemma IssuesOfSeverity(issues: seq<Doctor.Issue>, s: Severity)
    ensures Filter(Filter(issues, TiedTo(Doctor.Issue(s, "", ""), Doctor.IssueLe)), IssueOf(s))
         == Filter(issues, IssueOf(s))
  {
    hide Seqs.Filter, Rank;
    var p, y := IssueOf(s), Doctor.Issue(s, "", "");
    forall x | x in issues && p(x) ensures TiedTo(y, Doctor.IssueLe)(x) { TiedIssue(x, s); }
    Evidence.FilterTwice(issues, TiedTo(y, Doctor.IssueLe), p);
  }

  /** The same for the issues of the doctor. */
  lemma IssuesMostSevereFirst(issues: seq<Doctor.Issue>, s: Severity)
    ensures var out := Sort(issues, Doctor.IssueLe);
            && (forall i, j :: 0 <= i < j < |out| ==> MayPrecede(out[i].severity, out[j].severity))
            && Filter(out, IssueOf(s)) == Filter(issues, IssueOf(s))
            && multiset(out) == multiset(issues)
  {
    hide Seqs.Filter, Sort, Sorted, Rank, MayPrecede;
    Doctor.SortedIssues(issues, Doctor.Issue(s, "", ""));
    IssuesInOrder(Sort(issues, Doctor.IssueLe));
    IssuesOfSeverity(issues, s);
    IssuesOfSeverity(Sort(issues, Doctor.IssueLe), s);
  }

  // ---- score ----

  lemma {:induction false} PenaltyMeaning(fs: seq<Finding>, sc: Scoring)
    ensures TotalPenalty(fs, sc)
         == sc.critical * CountIf(fs, Of(Critical)) + sc.high * CountIf(fs, Of(High))
          + sc.medium * CountIf(fs, Of(Medium)) + sc.low * CountIf(fs, Of(Low))
  {
    hide Seqs.CountIf;
    if fs == [] {
      NothingCosts(sc);
    } else {
      var init, last := fs[..|fs| - 1], fs[|fs| - 1];
      PenaltyMeaning(init, sc);
      assert fs == init + [last];
      CountIfAppend(init, last, Of(Critical));
      CountIfAppend(init, last, Of(High));
      CountIfAppend(init, last, Of(Medium));
      CountIfAppend(init, last, Of(Low));
      PenaltyStep(sc, last.severity, CountIf(init, Of(Critical)), CountIf(init, Of(High)),
                  CountIf(init, Of(Medium)), CountIf(init, Of(Low)));
    }
  }

  lemma NothingCosts(sc: Scoring)
    ensures TotalPenalty([], sc) == 0 && CountIf([], Of(Critical)) == 0 && CountIf([], Of(High)) == 0
         && CountIf([], Of(Medium)) == 0 && CountIf([], Of(Low)) == 0
  {
  }

  lemma PenaltyStep(sc: Scoring, s: Severity, c: nat, h: nat, m: nat, l: nat)
    ensures sc.critical * (c + (if s == Critical then 1 else 0)) + sc.high * (h + (if s == High then 1 else 0))
          + sc.medium * (m + (if s == Medium then 1 else 0)) + sc.low * (l + (if s == Low then 1 else 0))
         == sc.critical * c + sc.high * h + sc.medium * m + sc.low * l + Penalty(sc, s)
  {
  }

  /** The score is 100 less the penalty of each finding, and not below zero;
      without a scoring section a critical finding costs 25, a high one 10, a
      medium one 5, a low one 2, and any other nothing. */
  lemma ScoreMeaning(fs: seq<Finding>, cfg: Config)
    ensures var sc := if cfg.scoring == None then Scoring(25, 10, 5, 2) else cfg.scoring.value;
            var left := 100 - sc.critical * CountIf(fs, Of(Critical)) - sc.high * CountIf(fs, Of(High))
                        - sc.medium * CountIf(fs, Of(Medium)) - sc.low * CountIf(fs, Of(Low));
            && ScoringOf(cfg) == sc
            && Scored(fs, sc).score == if left < 0 then 0 else left
  {
    var sc := ScoringOf(cfg);
    ScoredMeaning(fs, sc, Finding("", "", Info, ""));
    PenaltyMeaning(fs, sc);
  }

  // ---- what is found ----

  /** A private key without certificate or public key under its ID, or a
      certificate without private key; without an ID either is alone. */
  predicate Lonely(objs: seq<Object>, o: Object) {
    || (o.class_ == "private-key"
        && (o.id == "" || forall p :: p in objs && p.id == o.id ==> p.class_ != "certificate" && p.class_ != "public-key"))
    || (o.class_ == "certificate"
        && (o.id == "" || forall p :: p in objs && p.id == o.id ==> p.class_ != "private-key"))
  }

  /** p is a private or public key under the ID whose public key is known. */
  predicate KnownKey(p: Object, id: string) {
    (p.class_ == "private-key" || p.class_ == "public-key") && p.id == id && p.fingerprint != ""
  }

  /** A certificate under an ID with known keys, none of which it certifies. */
  predicate Foreign(objs: seq<Object>, o: Object) {
    && o.class_ == "certificate" && o.id != "" && o.cert != None && o.cert.value.fingerprint != ""
    && (exists p :: p in objs && KnownKey(p, o.id))
    && (forall p :: p in objs && KnownKey(p, o.id) ==> p.fingerprint != o.cert.value.fingerprint)
  }

  /** Another object of its class carries object i's label. */
  predicate Namesake(objs: seq<Object>, i: nat)
    requires i < |objs|
  {
    objs[i].name != "" && exists j :: 0 <= j < |objs| && j != i && objs[j].class_ == objs[i].class_ && objs[j].name == objs[i].name
  }

  predicate Wanted(wanted: Option<bool>, actual: bool) { wanted == None || wanted == Some(actual) }

  predicate Matches(rule: Rule, objs: seq<Object>, rest: Rest, i: nat)
    requires i < |objs|
  {
    && (rule.when.class_ == "" || objs[i].class_ == rule.when.class_)
    && Wanted(rule.when.certKeyMismatch, Foreign(objs, objs[i]))
    && Wanted(rule.when.duplicateLabel, Namesake(objs, i))
    && Wanted(rule.when.orphan, Lonely(objs, objs[i]))
    && rest(rule, objs[i])
  }

  lemma OrphanMeaning(objs: seq<Object>, o: Object)
    ensures Orphan(objs, o) <==> Lonely(objs, o)
  {
    forall c ensures Owns(objs, o.id, c) <==> exists p :: p in objs && p.id == o.id && p.class_ == c {
      if Owns(objs, o.id, c) {
        var i :| 0 <= i < |objs| && objs[i].id == o.id && objs[i].class_ == c;
        assert objs[i] in objs;
      }
    }
  }

  lemma MismatchMeaning(objs: seq<Object>, o: Object)
    ensures KeyMismatch(objs, o) <==> Foreign(objs, o)
  {
    forall p ensures KnownKey(p, o.id) <==> Vouches(p, o.id) {
    }
    if KeyMismatch(objs, o) {
      var i :| 0 <= i < |objs| && Vouches(objs[i], o.id);
      assert objs[i] in objs;
    }
    if Foreign(objs, o) {
      var p :| p in objs && KnownKey(p, o.id);
      var i :| 0 <= i < |objs| && objs[i] == p;
      assert Vouches(objs[i], o.id);
    }
  }

  lemma MatchMeaning(rule: Rule, objs: seq<Object>, rest: Rest, i: nat)
    requires i < |objs|
    ensures Fires(rule, objs, rest, objs[i]) <==> Matches(rule, objs, rest, i)
  {
    hide Orphan, Lonely, KeyMismatch, Foreign;
    OrphanMeaning(objs, objs[i]);
    MismatchMeaning(objs, objs[i]);
    DuplicateMeansAnother(objs, i);
  }

  /** What a rule on the token's mechanisms asks for: one of the first list, or
      else none of the second. */
  predicate TokenBreaks(rule: Rule, mechs: seq<string>) {
    if rule.when.mechanismAnyOf != [] then exists m :: m in rule.when.mechanismAnyOf && m in mechs
    else forall m :: m in rule.when.mechanismMissing ==> m !in mechs
  }

  /** The rule raises the finding. */
  predicate Raises(rule: Rule, inv: Inventory, rest: Rest, f: Finding) {
    && f.ruleID == rule.id && f.title == rule.title && f.severity == rule.severity
    && if rule.when.mechanismAnyOf != [] || rule.when.mechanismMissing != [] then f.ref == "" && TokenBreaks(rule, inv.mechanisms)
       else exists i :: 0 <= i < |inv.objects| && f.ref == ObjectRef(inv.objects[i]) && Matches(rule, inv.objects, rest, i)
  }

  lemma RaisedByRule(rule: Rule, inv: Inventory, rest: Rest, f: Finding)
    ensures f in RuleFindings(rule, inv, rest) <==> Raises(rule, inv, rest, f)
  {
    hide Fires, Matches, ObjectRef;
    if !rule.when.TokenScoped() {
      var objs, p := inv.objects, FiresOn(rule, inv.objects, rest);
      FilterMembers(objs, p);
      MapMembers(Filter(objs, p), FindingFor(rule), f);
      if o :| o in Filter(objs, p) && FindingFor(rule)(o) == f {
        var i :| 0 <= i < |objs| && objs[i] == o;
        MatchMeaning(rule, objs, rest, i);
      }
      if Raises(rule, inv, rest, f) {
        var i :| 0 <= i < |objs| && f.ref == ObjectRef(objs[i]) && Matches(rule, objs, rest, i);
        MatchMeaning(rule, objs, rest, i);
        assert objs[i] in Filter(objs, p) && FindingFor(rule)(objs[i]) == f;
      }
    }
  }

  lemma {:induction false} AllRaised(rules: seq<Rule>, inv: Inventory, rest: Rest, f: Finding)
    ensures f in AllFindings(rules, inv, rest) <==> exists rule :: rule in rules && Raises(rule, inv, rest, f)
  {
    hide Raises, RuleFindings;
    if rules != [] {
      var init, last := rules[..|rules| - 1], rules[|rules| - 1];
      AllRaised(init, inv, rest, f);
      RaisedByRule(last, inv, rest, f);
      assert rules == init + [last];
      if rule :| rule in rules && Raises(rule, inv, rest, f) { assert rule in init || rule == last; }
      assert last in rules;
    }
  }

  /** The findings of an evaluation are exactly those some rule raises. */
  lemma FindingsMeaning(inv: Inventory, cfg: Config, rest: Rest, f: Finding)
    ensures f in Scored(AllFindings(cfg.rules, inv, rest), ScoringOf(cfg)).findings
       <==> exists rule :: rule in cfg.rules && Raises(rule, inv, rest, f)
  {
    hide Raises;
    SortPermutes(AllFindings(cfg.rules, inv, rest), SeverityLe);
    AllRaised(cfg.rules, inv, rest, f);
  }

  /** How many objects of the first n match. */
  function MatchCount(rule: Rule, objs: seq<Object>, rest: Rest, n: nat): nat
    requires n <= |objs|
  {
    if n == 0 then 0 else MatchCount(rule, objs, rest, n - 1) + if Matches(rule, objs, rest, n - 1) then 1 else 0
  }

  lemma {:induction false} MatchesCounted(rule: Rule, objs: seq<Object>, rest: Rest, n: nat)
    requires n <= |objs|
    ensures |Filter(objs[..n], FiresOn(rule, objs, rest))| == MatchCount(rule, objs, rest, n)
  {
    hide Matches, Fires;
    if n > 0 {
      MatchesCounted(rule, objs, rest, n - 1);
      assert objs[..n] == objs[..n - 1] + [objs[n - 1]];
      FilterSnoc(objs[..n - 1], objs[n - 1], FiresOn(rule, objs, rest));
      MatchMeaning(rule, objs, rest, n - 1);
    }
  }

  /** With unique IDs a rule has as many findings as there are objects it matches,
      or one if it is about the token. */
  lemma FindingsPerRule(inv: Inventory, cfg: Config, rest: Rest, k: nat)
    requires UniqueIds(cfg.rules) && k < |cfg.rules|
    ensures var rule := cfg.rules[k];
            CountIf(Scored(AllFindings(cfg.rules, inv, rest), ScoringOf(cfg)).findings, (f: Finding) => f.ruleID == rule.id)
            == if rule.when.mechanismAnyOf != [] || rule.when.mechanismMissing != []
               then (if TokenBreaks(rule, inv.mechanisms) then 1 else 0)
               else MatchCount(rule, inv.objects, rest, |inv.objects|)
  {
    hide Seqs.CountIf, Matches, Fires, ObjectRef, Sort;
    var rule, all := cfg.rules[k], AllFindings(cfg.rules, inv, rest);
    var p := (f: Finding) => f.ruleID == rule.id;
    Evidence.OwnFindings(cfg.rules, inv, rest, k);
    SortPermutes(all, SeverityLe);
    CountIfPermutation(Sort(all, SeverityLe), all, p);
    CountIfCongruent(all, p, Evidence.OfRule(rule.id));
    FilterLength(all, Evidence.OfRule(rule.id));
    MatchesCounted(rule, inv.objects, rest, |inv.objects|);
    assert inv.objects[..|inv.objects|] == inv.objects;
  }

  // ---- evidence ----

  /** The rule had nothing to check: it is about objects, and there is none of
      its class, or none at all if it names no class. */
  predicate NothingToCheck(rule: Rule, inv: Inventory) {
    && rule.when.mechanismAnyOf == [] && rule.when.mechanismMissing == []
    && forall o :: o in inv.objects ==> rule.when.class_ != "" && o.class_ != rule.when.class_
  }

  lemma ApplicableMeaning(rule: Rule, inv: Inventory)
    ensures Evidence.Applicable(inv, rule) <==> !NothingToCheck(rule, inv)
  {
    if !rule.when.TokenScoped() {
      if rule.when.class_ == "" {
        assert inv.objects != [] ==> inv.objects[0] in inv.objects;
      } else if Evidence.Applicable(inv, rule) {
        var i :| 0 <= i < |inv.objects| && inv.objects[i].class_ == rule.when.class_;
        assert inv.objects[i] in inv.objects;
      }
    }
  }

  /** With unique IDs, control k speaks of rule k; it failed exactly if the rule
      raises some finding, was not applicable exactly if there was nothing to
      check, and passed otherwise. The three numbers count the controls. */
  lemma ControlMeaning(inv: Inventory, cfg: Config, rest: Rest, k: nat)
    requires UniqueIds(cfg.rules) && k < |cfg.rules|
    ensures var p, rule := Evidence.PackOf(inv, cfg, rest), cfg.rules[k];
            && |p.controls| == |cfg.rules|
            && p.controls[k].ruleID == rule.id && p.controls[k].title == rule.title && p.controls[k].severity == rule.severity
            && (p.controls[k].status.Fail? <==> exists f :: Raises(rule, inv, rest, f))
            && (p.controls[k].status.NotApplicable? <==> NothingToCheck(rule, inv))
            && p.passed == CountIf(p.controls, (c: Evidence.Control) => c.status.Pass?)
            && p.failed == CountIf(p.controls, (c: Evidence.Control) => c.status.Fail?)
            && p.notApplicable == CountIf(p.controls, (c: Evidence.Control) => c.status.NotApplicable?)
  {
    hide Raises, RuleFindings, Evidence.Applicable, NothingToCheck, Seqs.CountIf, Evidence.FindingsOf;
    var rule, p := cfg.rules[k], Evidence.PackOf(inv, cfg, rest);
    Evidence.CaseOrderIsImmaterial(inv, cfg, rest, k);
    ApplicableMeaning(rule, inv);
    var own := RuleFindings(rule, inv, rest);
    if own != [] {
      assert own[0] in own;
      RaisedByRule(rule, inv, rest, own[0]);
      Evidence.FindingMeansApplicable(inv, rule, rest);
    }
    if f :| Raises(rule, inv, rest, f) { RaisedByRule(rule, inv, rest, f); }
    CountIfCongruent(p.controls, Evidence.Passed, (c: Evidence.Control) => c.status.Pass?);
    CountIfCongruent(p.controls, Evidence.Failed, (c: Evidence.Control) => c.status.Fail?);
    CountIfCongruent(p.controls, Evidence.Skipped, (c: Evidence.Control) => c.status.NotApplicable?);
  }
}
