/** The posture engine of internal/policy: derived indexes, rule evaluation,
    severity order and score. `Rest` stands for the match conditions that look
    at one object alone (key sizes, attributes, certificate fields). */
module Policy {
  import opened Seqs
  import opened Order
  import opened Inventory

  datatype Severity = Critical | High | Medium | Low | Info | Unknown(text: string)

  /** Sort rank; a severity outside the table ranks with the most severe. */
  function Rank(s: Severity): nat {
    match s
    case Critical => 0
    case High => 1
    case Medium => 2
    case Low => 3
    case Info => 4
    case Unknown(_) => 0
  }

  datatype Scoring = Scoring(critical: int, high: int, medium: int, low: int)

  const DEFAULT_SCORING := Scoring(25, 10, 5, 2)

  function Penalty(sc: Scoring, s: Severity): int {
    match s
    case Critical => sc.critical
    case High => sc.high
    case Medium => sc.medium
    case Low => sc.low
    case _ => 0
  }

  datatype Condition = Condition(
    class_: string, certKeyMismatch: Option<bool>, duplicateLabel: Option<bool>, orphan: Option<bool>,
    mechanismAnyOf: seq<string>, mechanismMissing: seq<string>)
  {
    predicate TokenScoped() { mechanismAnyOf != [] || mechanismMissing != [] }
  }

  datatype Rule = Rule(id: string, title: string, severity: Severity, when: Condition)

  datatype Config = Config(rules: seq<Rule>, scoring: Option<Scoring>)

  datatype Finding = Finding(ruleID: string, title: string, severity: Severity, ref: string)

  /** Conditions on one object that need no index. */
  type Rest = (Rule, Object) -> bool

  // ---- what the indexes stand for, by direct quantification ----

  predicate IsKeyObject(o: Object) { o.class_ == PRIVATE_KEY || o.class_ == PUBLIC_KEY }

  /** Some object of the class carries the CKA_ID. */
  predicate Owns(objs: seq<Object>, id: string, c: string) {
    exists i :: 0 <= i < |objs| && objs[i].id == id && objs[i].class_ == c
  }

  /** A private key without certificate or public key, or a certificate without
      private key, under its CKA_ID; without a CKA_ID it has no counterpart. */
  predicate Orphan(objs: seq<Object>, o: Object) {
    if o.class_ == PRIVATE_KEY then o.id == "" || (!Owns(objs, o.id, CERTIFICATE) && !Owns(objs, o.id, PUBLIC_KEY))
    else if o.class_ == CERTIFICATE then o.id == "" || !Owns(objs, o.id, PRIVATE_KEY)
    else false
  }

  function SameLabel(o: Object): Object -> bool { (p: Object) => p.class_ == o.class_ && p.name == o.name }

  predicate DuplicateLabel(objs: seq<Object>, o: Object) {
    o.name != "" && CountIf(objs, SameLabel(o)) > 1
  }

  /** p is a key object that could vouch for the certificate's public key. */
  predicate Vouches(p: Object, id: string) { IsKeyObject(p) && p.id == id && p.fingerprint != "" }

  /** The certificate shares its CKA_ID with keys of known fingerprint, and its
      own public key is none of them. */
  predicate KeyMismatch(objs: seq<Object>, o: Object) {
    && o.class_ == CERTIFICATE && o.id != "" && o.cert.Some? && o.cert.value.fingerprint != ""
    && (exists i :: 0 <= i < |objs| && Vouches(objs[i], o.id))
    && (forall i :: 0 <= i < |objs| && Vouches(objs[i], o.id) ==> objs[i].fingerprint != o.cert.value.fingerprint)
  }

  /** Besides s[i] itself something else satisfies p. */
  lemma AnotherOne<T>(s: seq<T>, i: nat, p: T -> bool)
    requires i < |s| && p(s[i])
    ensures CountIf(s, p) > 1 <==> exists j :: 0 <= j < |s| && j != i && p(s[j])
  {
    var a, b := s[..i], s[i + 1..];
    assert s == a + [s[i]] + b;
    FilterMiddle(a, s[i], b, p);
    FilterLength(s, p);
    FilterLength(a, p);
    FilterLength(b, p);
    CountIfPositive(a, p);
    CountIfPositive(b, p);
    assert forall j :: 0 <= j < |b| ==> b[j] == s[i + 1 + j];
  }

  /** A duplicate is another object of the same class with the same label. */
  lemma DuplicateMeansAnother(objs: seq<Object>, i: nat)
    requires i < |objs|
    ensures DuplicateLabel(objs, objs[i])
       <==> objs[i].name != "" && exists j :: 0 <= j < |objs| && j != i && SameLabel(objs[i])(objs[j])
  {
    AnotherOne(objs, i, SameLabel(objs[i]));
  }

  // ---- the indexes ----

  datatype Facts = Facts(
    labels: map<string, map<string, nat>>,
    owners: map<string, set<string>>,
    fingerprints: map<string, seq<string>>)

  function LabelCount(f: Facts, c: string, l: string): nat {
    if c in f.labels && l in f.labels[c] then f.labels[c][l] else 0
  }

  function OwnersOf(f: Facts, id: string): set<string> { if id in f.owners then f.owners[id] else {} }

  function FingerprintsOf(m: map<string, seq<string>>, id: string): seq<string> { if id in m then m[id] else [] }

  function Labelled(c: string, l: string): Object -> bool { (p: Object) => p.class_ == c && p.name == l }

  function VouchesFor(id: string): Object -> bool { (p: Object) => Vouches(p, id) }

  function FingerprintOf(o: Object): string { o.fingerprint }

  /** The fingerprints of the key objects under an ID, in object order. */
  function KeyFingerprints(objs: seq<Object>, id: string): seq<string> {
    Map(Filter(objs, VouchesFor(id)), FingerprintOf)
  }

  ghost predicate FactsOf(f: Facts, objs: seq<Object>) {
    && (forall c, l :: l != "" ==> LabelCount(f, c, l) == CountIf(objs, Labelled(c, l)))
    && (forall id, c :: id != "" ==> (c in OwnersOf(f, id) <==> Owns(objs, id, c)))
    && (forall id :: id != "" ==> FingerprintsOf(f.fingerprints, id) == KeyFingerprints(objs, id))
  }

  lemma OwnsSnoc(objs: seq<Object>, o: Object, id: string, c: string)
    ensures Owns(objs + [o], id, c) <==> Owns(objs, id, c) || (o.id == id && o.class_ == c)
  {
    var all := objs + [o];
    if Owns(objs, id, c) {
      var i :| 0 <= i < |objs| && objs[i].id == id && objs[i].class_ == c;
      assert all[i] == objs[i];
    }
    if o.id == id && o.class_ == c { assert all[|objs|] == o; }
  }

  lemma FingerprintsSnoc(objs: seq<Object>, o: Object, id: string)
    ensures KeyFingerprints(objs + [o], id)
         == if Vouches(o, id) then KeyFingerprints(objs, id) + [o.fingerprint] else KeyFingerprints(objs, id)
  {
    FilterSnoc(objs, o, VouchesFor(id));
    MapSnoc(Filter(objs, VouchesFor(id)), o, FingerprintOf);
  }

  lemma LabelsStep(f: Facts, objs: seq<Object>, o: Object, f': Facts)
    requires FactsOf(f, objs)
    requires forall c, l :: LabelCount(f', c, l)
               == LabelCount(f, c, l) + (if o.name != "" && c == o.class_ && l == o.name then 1 else 0)
    requires forall id :: OwnersOf(f', id) == if id == o.id && id != "" then OwnersOf(f, id) + {o.class_} else OwnersOf(f, id)
    requires forall id :: FingerprintsOf(f'.fingerprints, id)
               == if id != "" && Vouches(o, id) then FingerprintsOf(f.fingerprints, id) + [o.fingerprint]
                  else FingerprintsOf(f.fingerprints, id)
    ensures FactsOf(f', objs + [o])
  {
    forall c, l | l != "" ensures LabelCount(f', c, l) == CountIf(objs + [o], Labelled(c, l)) {
      CountIfAppend(objs, o, Labelled(c, l));
    }
    forall id, c | id != "" ensures c in OwnersOf(f', id) <==> Owns(objs + [o], id, c) {
      OwnsSnoc(objs, o, id, c);
    }
    forall id | id != "" ensures FingerprintsOf(f'.fingerprints, id) == KeyFingerprints(objs + [o], id) {
      FingerprintsSnoc(objs, o, id);
    }
  }

  method AddFact(f: Facts, o: Object, ghost objs: seq<Object>) returns (f': Facts)
    requires FactsOf(f, objs)
    ensures FactsOf(f', objs + [o])
  {
    hide FactsOf;
    var labels, owners, fingerprints := f.labels, f.owners, f.fingerprints;
    if o.name != "" {
      var byLabel := if o.class_ in labels then labels[o.class_] else map[];
      labels := labels[o.class_ := byLabel[o.name := (if o.name in byLabel then byLabel[o.name] else 0) + 1]];
    }
    if o.id != "" {
      owners := owners[o.id := (if o.id in owners then owners[o.id] else {}) + {o.class_}];
      if o.fingerprint != "" && IsKeyObject(o) {
        fingerprints := fingerprints[o.id := (if o.id in fingerprints then fingerprints[o.id] else []) + [o.fingerprint]];
      }
    }
    f' := Facts(labels, owners, fingerprints);
    LabelsStep(f, objs, o, f');
  }

  lemma NoFacts()
    ensures FactsOf(Facts(map[], map[], map[]), [])
  {
  }

  /** One pass over the objects that fills the three indexes. */
  method BuildFacts(objs: seq<Object>) returns (f: Facts)
    ensures FactsOf(f, objs)
  {
    hide FactsOf;
    NoFacts();
    f := Facts(map[], map[], map[]);
    for i := 0 to |objs|
      invariant FactsOf(f, objs[..i])
    {
      assert objs[..i + 1] == objs[..i] + [objs[i]];
      f := AddFact(f, objs[i], objs[..i]);
    }
    assert objs[..|objs|] == objs;
  }

  // ---- the predicates the rules use ----

  predicate IsDuplicateLabel(f: Facts, o: Object) { o.name != "" && LabelCount(f, o.class_, o.name) > 1 }

  predicate IsOrphan(f: Facts, o: Object) {
    if o.class_ == PRIVATE_KEY then
      o.id == "" || (CERTIFICATE !in OwnersOf(f, o.id) && PUBLIC_KEY !in OwnersOf(f, o.id))
    else if o.class_ == CERTIFICATE then
      o.id == "" || PRIVATE_KEY !in OwnersOf(f, o.id)
    else false
  }

  predicate CertKeyMismatch(f: Facts, o: Object) {
    && o.class_ == CERTIFICATE && o.id != "" && o.cert.Some? && o.cert.value.fingerprint != ""
    && FingerprintsOf(f.fingerprints, o.id) != []
    && o.cert.value.fingerprint !in FingerprintsOf(f.fingerprints, o.id)
  }

  lemma FingerprintListMeaning(objs: seq<Object>, id: string, fp: string)
    ensures KeyFingerprints(objs, id) != [] <==> exists i :: 0 <= i < |objs| && Vouches(objs[i], id)
    ensures fp in KeyFingerprints(objs, id) <==> exists i :: 0 <= i < |objs| && Vouches(objs[i], id) && objs[i].fingerprint == fp
  {
    FilterLength(objs, VouchesFor(id));
    CountIfPositive(objs, VouchesFor(id));
    FilterMembers(objs, VouchesFor(id));
    MapMembers(Filter(objs, VouchesFor(id)), FingerprintOf, fp);
    if o :| o in Filter(objs, VouchesFor(id)) && FingerprintOf(o) == fp {
      var i :| 0 <= i < |objs| && objs[i] == o;
      assert Vouches(objs[i], id);
    }
    if i :| 0 <= i < |objs| && Vouches(objs[i], id) && objs[i].fingerprint == fp {
      assert objs[i] in Filter(objs, VouchesFor(id));
    }
  }

  /** The indexed answers are the quantified ones, for every object. */
  lemma IndexesAgree(f: Facts, objs: seq<Object>, o: Object)
    requires FactsOf(f, objs)
    ensures IsDuplicateLabel(f, o) <==> DuplicateLabel(objs, o)
    ensures IsOrphan(f, o) <==> Orphan(objs, o)
    ensures CertKeyMismatch(f, o) <==> KeyMismatch(objs, o)
  {
    CountIfCongruent(objs, SameLabel(o), Labelled(o.class_, o.name));
    if o.cert.Some? { FingerprintListMeaning(objs, o.id, o.cert.value.fingerprint); }
  }

  // ---- evaluation ----

  predicate Agrees(wanted: Option<bool>, actual: bool) { wanted.None? || wanted.value == actual }

  /** Whether an object rule fires on an object of the inventory. */
  predicate Fires(rule: Rule, objs: seq<Object>, rest: Rest, o: Object) {
    && (rule.when.class_ != "" ==> o.class_ == rule.when.class_)
    && Agrees(rule.when.certKeyMismatch, KeyMismatch(objs, o))
    && Agrees(rule.when.duplicateLabel, DuplicateLabel(objs, o))
    && Agrees(rule.when.orphan, Orphan(objs, o))
    && rest(rule, o)
  }

  /** any_of fires on one available mechanism; missing fires when there is none.
      A rule that lists both is judged by any_of alone. */
  predicate TokenRuleFires(c: Condition, mechs: seq<string>) {
    if c.mechanismAnyOf != [] then exists n :: n in c.mechanismAnyOf && n in mechs
    else forall n :: n in c.mechanismMissing ==> n !in mechs
  }

  function FiresOn(rule: Rule, objs: seq<Object>, rest: Rest): Object -> bool {
    (o: Object) => Fires(rule, objs, rest, o)
  }

  function FindingFor(rule: Rule): Object -> Finding {
    (o: Object) => Finding(rule.id, rule.title, rule.severity, ObjectRef(o))
  }

  function RuleFindings(rule: Rule, inv: Inventory, rest: Rest): seq<Finding> {
    if rule.when.TokenScoped() then
      if TokenRuleFires(rule.when, inv.mechanisms) then [Finding(rule.id, rule.title, rule.severity, "")] else []
    else
      Map(Filter(inv.objects, FiresOn(rule, inv.objects, rest)), FindingFor(rule))
  }

  function AllFindings(rules: seq<Rule>, inv: Inventory, rest: Rest): seq<Finding> {
    if rules == [] then []
    else AllFindings(rules[..|rules| - 1], inv, rest) + RuleFindings(rules[|rules| - 1], inv, rest)
  }

  predicate SeverityLe(a: Finding, b: Finding) { Rank(a.severity) <= Rank(b.severity) }

  lemma SeverityOrder()
    ensures TotalPreorder(SeverityLe)
  {
  }

  function TotalPenalty(fs: seq<Finding>, sc: Scoring): int {
    if fs == [] then 0 else TotalPenalty(fs[..|fs| - 1], sc) + Penalty(sc, fs[|fs| - 1].severity)
  }

  function ScoreOf(fs: seq<Finding>, sc: Scoring): int {
    var s := 100 - TotalPenalty(fs, sc);
    if s < 0 then 0 else s
  }

  function ScoringOf(cfg: Config): Scoring { if cfg.scoring.Some? then cfg.scoring.value else DEFAULT_SCORING }

  lemma TotalPenaltySnoc(fs: seq<Finding>, x: Finding, sc: Scoring)
    ensures TotalPenalty(fs + [x], sc) == TotalPenalty(fs, sc) + Penalty(sc, x.severity)
  {
    assert (fs + [x])[..|fs|] == fs;
  }

  lemma {:induction false} PenaltyRemove(a: seq<Finding>, x: Finding, b: seq<Finding>, sc: Scoring)
    ensures TotalPenalty(a + [x] + b, sc) == TotalPenalty(a + b, sc) + Penalty(sc, x.severity)
  {
    if b == [] {
      assert a + [x] + b == a + [x] && a + b == a;
      TotalPenaltySnoc(a, x, sc);
    } else {
      var init, y := b[..|b| - 1], b[|b| - 1];
      PenaltyRemove(a, x, init, sc);
      assert a + [x] + b == (a + [x] + init) + [y] && a + b == (a + init) + [y];
      TotalPenaltySnoc(a + [x] + init, y, sc);
      TotalPenaltySnoc(a + init, y, sc);
    }
  }

  /** The score looks at which findings there are, not at their order. */
  lemma {:induction false} PenaltyPermutes(a: seq<Finding>, b: seq<Finding>, sc: Scoring)
    requires multiset(a) == multiset(b)
    ensures TotalPenalty(a, sc) == TotalPenalty(b, sc)
  {
    PermutationLength(a, b);
    if a != [] {
      var i := RemoveOne(a, b);
      PenaltyPermutes(a[..|a| - 1], b[..i] + b[i + 1..], sc);
      PenaltyRemove(b[..i], b[i], b[i + 1..], sc);
      assert b == b[..i] + [b[i]] + b[i + 1..];
    }
  }

  /** The outcome of a scan as a value. */
  datatype Outcome = Outcome(findings: seq<Finding>, score: int)

  function Scored(fs: seq<Finding>, sc: Scoring): Outcome {
    Outcome(Sort(fs, SeverityLe), ScoreOf(Sort(fs, SeverityLe), sc))
  }

  /** What merging extra findings does; nothing at all for an empty batch. */
  function Merged(o: Outcome, extra: seq<Finding>, sc: Scoring): Outcome {
    if extra == [] then o else Scored(o.findings + extra, sc)
  }

  function MergedAll(o: Outcome, batches: seq<seq<Finding>>, sc: Scoring): Outcome {
    if batches == [] then o else Merged(MergedAll(o, batches[..|batches| - 1], sc), batches[|batches| - 1], sc)
  }

  function Flatten(batches: seq<seq<Finding>>): seq<Finding> {
    if batches == [] then [] else Flatten(batches[..|batches| - 1]) + batches[|batches| - 1]
  }

  lemma MergeOnce(fs: seq<Finding>, extra: seq<Finding>, sc: Scoring)
    ensures Merged(Scored(fs, sc), extra, sc) == Scored(fs + extra, sc)
  {
    SeverityOrder();
    SortBatches(fs, extra, SeverityLe);
    if extra == [] { assert fs + extra == fs; }
  }

  /** Any split into successive batches gives the outcome of one evaluation of
      the whole concatenation. */
  lemma {:induction false} BatchesDoNotMatter(fs: seq<Finding>, batches: seq<seq<Finding>>, sc: Scoring)
    ensures MergedAll(Scored(fs, sc), batches, sc) == Scored(fs + Flatten(batches), sc)
  {
    if batches == [] {
      assert fs + Flatten(batches) == fs;
    } else {
      var init, last := batches[..|batches| - 1], batches[|batches| - 1];
      BatchesDoNotMatter(fs, init, sc);
      FlattenSnoc(fs, batches);
      LastBatch(fs + Flatten(init), MergedAll(Scored(fs, sc), init, sc), last, sc);
    }
  }

  lemma FlattenSnoc(fs: seq<Finding>, batches: seq<seq<Finding>>)
    requires batches != []
    ensures fs + Flatten(batches) == fs + Flatten(batches[..|batches| - 1]) + batches[|batches| - 1]
  {
    Associates(fs, Flatten(batches[..|batches| - 1]), batches[|batches| - 1]);
  }

  lemma Associates<T>(a: seq<T>, b: seq<T>, c: seq<T>)
    ensures a + (b + c) == a + b + c
  {
  }

  lemma LastBatch(fs: seq<Finding>, o: Outcome, extra: seq<Finding>, sc: Scoring)
    requires o == Scored(fs, sc)
    ensures Merged(o, extra, sc) == Scored(fs + extra, sc)
  {
    MergeOnce(fs, extra, sc);
  }

  /** A scored outcome: nothing lost, most severe first, ties in their original
      order, and the score the clamped total. */
  lemma ScoredMeaning(fs: seq<Finding>, sc: Scoring, y: Finding)
    ensures multiset(Scored(fs, sc).findings) == multiset(fs)
    ensures Sorted(Scored(fs, sc).findings, SeverityLe)
    ensures Filter(Scored(fs, sc).findings, TiedTo(y, SeverityLe)) == Filter(fs, TiedTo(y, SeverityLe))
    ensures Scored(fs, sc).score == if TotalPenalty(fs, sc) > 100 then 0 else 100 - TotalPenalty(fs, sc)
  {
    SeverityOrder();
    SortPermutes(fs, SeverityLe);
    SortSorts(fs, SeverityLe);
    SortStable(fs, SeverityLe, y);
    PenaltyPermutes(Sort(fs, SeverityLe), fs, sc);
  }

  // ---- the program ----

  method Score(fs: seq<Finding>, sc: Scoring) returns (score: int)
    ensures score == ScoreOf(fs, sc)
  {
    score := 100;
    for i := 0 to |fs|
      invariant score == 100 - TotalPenalty(fs[..i], sc)
    {
      assert fs[..i + 1] == fs[..i] + [fs[i]];
      TotalPenaltySnoc(fs[..i], fs[i], sc);
      score := score - Penalty(sc, fs[i].severity);
    }
    assert fs[..|fs|] == fs;
    if score < 0 { score := 0; }
  }

  class Result {
    var findings: seq<Finding>
    var score: int
    var scoring: Scoring

    function View(): Outcome
      reads this
    {
      Outcome(findings, score)
    }

    constructor (fs: seq<Finding>, score: int, sc: Scoring)
      ensures View() == Outcome(fs, score) && scoring == sc
    {
      findings, this.score, scoring := fs, score, sc;
    }

    /** Merge, re-sort, recompute with the same penalties. */
    method AddFindings(extra: seq<Finding>)
      modifies this`findings, this`score
      ensures View() == Merged(old(View()), extra, scoring)
    {
      if |extra| == 0 { return; }
      findings := Sort(findings + extra, SeverityLe);
      score := Score(findings, scoring);
    }
  }

  method EvalMechanismRule(mechs: seq<string>, rule: Rule) returns (fires: bool)
    requires rule.when.TokenScoped()
    ensures fires <==> TokenRuleFires(rule.when, mechs)
  {
    var available: set<string> := {};
    for i := 0 to |mechs|
      invariant forall n :: n in available <==> n in mechs[..i]
    {
      assert mechs[..i + 1] == mechs[..i] + [mechs[i]];
      available := available + {mechs[i]};
    }
    assert mechs[..|mechs|] == mechs;
    var anyOf, missing := rule.when.mechanismAnyOf, rule.when.mechanismMissing;
    if |anyOf| > 0 {
      var hits: seq<string> := [];
      for i := 0 to |anyOf|
        invariant hits != [] <==> exists j :: 0 <= j < i && anyOf[j] in mechs
      {
        if anyOf[i] in available { hits := hits + [anyOf[i]]; }
      }
      return |hits| > 0;
    }
    for i := 0 to |missing|
      invariant forall j :: 0 <= j < i ==> missing[j] !in mechs
    {
      if missing[i] in available { return false; }
    }
    return true;
  }

  method MatchObject(rule: Rule, o: Object, f: Facts, ghost objs: seq<Object>, rest: Rest) returns (matched: bool)
    requires FactsOf(f, objs)
    ensures matched <==> Fires(rule, objs, rest, o)
  {
    IndexesAgree(f, objs, o);
    if rule.when.class_ != "" && o.class_ != rule.when.class_ { return false; }
    if !rest(rule, o) { return false; }
    if rule.when.certKeyMismatch.Some? && CertKeyMismatch(f, o) != rule.when.certKeyMismatch.value { return false; }
    if rule.when.duplicateLabel.Some? && IsDuplicateLabel(f, o) != rule.when.duplicateLabel.value { return false; }
    if rule.when.orphan.Some? && IsOrphan(f, o) != rule.when.orphan.value { return false; }
    return true;
  }

  method EvalObjectRule(objs: seq<Object>, rule: Rule, f: Facts, rest: Rest) returns (found: seq<Finding>)
    requires FactsOf(f, objs)
    ensures found == Map(Filter(objs, FiresOn(rule, objs, rest)), FindingFor(rule))
  {
    hide FactsOf, Fires, ObjectRef;
    ghost var p := FiresOn(rule, objs, rest);
    found := [];
    for j := 0 to |objs|
      invariant found == Map(Filter(objs[..j], p), FindingFor(rule))
    {
      var o := objs[j];
      assert objs[..j + 1] == objs[..j] + [o];
      FilterSnoc(objs[..j], o, p);
      var matched := MatchObject(rule, o, f, objs, rest);
      if matched {
        MapSnoc(Filter(objs[..j], p), o, FindingFor(rule));
        found := found + [Finding(rule.id, rule.title, rule.severity, ObjectRef(o))];
      }
    }
    assert objs[..|objs|] == objs;
  }

  /** The findings of all rules, rule by rule. */
  method RunRules(inv: Inventory, rules: seq<Rule>, f: Facts, rest: Rest) returns (found: seq<Finding>)
    requires FactsOf(f, inv.objects)
    ensures found == AllFindings(rules, inv, rest)
  {
    hide FactsOf, FiresOn, TokenRuleFires;
    found := [];
    for i := 0 to |rules|
      invariant found == AllFindings(rules[..i], inv, rest)
    {
      var rule := rules[i];
      assert rules[..i + 1][..i] == rules[..i];
      if rule.when.TokenScoped() {
        var fires := EvalMechanismRule(inv.mechanisms, rule);
        if fires { found := found + [Finding(rule.id, rule.title, rule.severity, "")]; }
      } else {
        var more := EvalObjectRule(inv.objects, rule, f, rest);
        found := found + more;
      }
    }
    assert rules[..|rules|] == rules;
  }

  /** Runs every rule over the inventory, sorts by severity and scores. */
  method Evaluate(inv: Inventory, cfg: Config, rest: Rest) returns (res: Result)
    ensures fresh(res) && res.scoring == ScoringOf(cfg)
    ensures res.View() == Scored(AllFindings(cfg.rules, inv, rest), ScoringOf(cfg))
  {
    hide FactsOf, AllFindings, Sort;
    var f := BuildFacts(inv.objects);
    var found := RunRules(inv, cfg.rules, f, rest);
    var findings := Sort(found, SeverityLe);
    var score := Score(findings, ScoringOf(cfg));
    res := new Result(findings, score, ScoringOf(cfg));
  }

  // ---- merging packs ----

  predicate UniqueIds(rules: seq<Rule>) {
    forall i, j :: 0 <= i < j < |rules| ==> rules[i].id != rules[j].id
  }

  predicate HasId(rules: seq<Rule>, id: string) { exists i :: 0 <= i < |rules| && rules[i].id == id }

  lemma HasIdSnoc(rules: seq<Rule>, x: Rule, id: string)
    ensures HasId(rules + [x], id) <==> HasId(rules, id) || x.id == id
  {
    var all := rules + [x];
    if HasId(rules, id) {
      var i :| 0 <= i < |rules| && rules[i].id == id;
      assert all[i].id == id;
    }
    if x.id == id { assert all[|rules|].id == id; }
  }

  function RulesOf(cfgs: seq<Config>): seq<Rule> {
    if cfgs == [] then [] else RulesOf(cfgs[..|cfgs| - 1]) + cfgs[|cfgs| - 1].rules
  }

  function FirstScoring(cfgs: seq<Config>): Option<Scoring> {
    if cfgs == [] then None
    else
      var earlier := FirstScoring(cfgs[..|cfgs| - 1]);
      if earlier.Some? then earlier else cfgs[|cfgs| - 1].scoring
  }

  lemma PrefixNotUnique(rules: seq<Rule>, more: seq<Rule>)
    requires !UniqueIds(rules)
    ensures !UniqueIds(rules + more)
  {
    var i, j :| 0 <= i < j < |rules| && rules[i].id == rules[j].id;
    assert (rules + more)[i].id == (rules + more)[j].id;
  }

  lemma RulesOfSplit(cfgs: seq<Config>, n: nat) returns (more: seq<Rule>)
    requires n <= |cfgs|
    ensures RulesOf(cfgs) == RulesOf(cfgs[..n]) + more
  {
    if n == |cfgs| {
      assert cfgs[..n] == cfgs;
      more := [];
    } else {
      var init := cfgs[..|cfgs| - 1];
      assert init[..n] == cfgs[..n];
      more := RulesOfSplit(init, n);
      more := more + cfgs[|cfgs| - 1].rules;
    }
  }

  lemma RepeatedId(cfgs: seq<Config>, n: nat, before: seq<Rule>, i: nat)
    requires n < |cfgs| && i < |cfgs[n].rules| && before == RulesOf(cfgs[..n])
    requires HasId(before + cfgs[n].rules[..i], cfgs[n].rules[i].id)
    ensures !UniqueIds(RulesOf(cfgs))
  {
    var rules, x, rest := before + cfgs[n].rules[..i], cfgs[n].rules[i], cfgs[n].rules[i + 1..];
    assert !UniqueIds(rules + [x]) by {
      var j :| 0 <= j < |rules| && rules[j].id == x.id;
      assert (rules + [x])[j].id == (rules + [x])[|rules|].id;
    }
    PrefixNotUnique(rules + [x], rest);
    assert cfgs[..n + 1][..n] == cfgs[..n];
    assert cfgs[n].rules == cfgs[n].rules[..i] + [x] + rest;
    assert RulesOf(cfgs[..n + 1]) == rules + [x] + rest;
    var more := RulesOfSplit(cfgs, n + 1);
    PrefixNotUnique(RulesOf(cfgs[..n + 1]), more);
  }

  /** Merging succeeds exactly when the packs hold at least one rule and no rule
      ID occurs twice among them; it then keeps every rule in order, and the
      first scoring section given. */
  method Merge(cfgs: seq<Config>) returns (r: Option<Config>)
    ensures r.Some? <==> RulesOf(cfgs) != [] && UniqueIds(RulesOf(cfgs))
    ensures r.Some? ==> r.value == Config(RulesOf(cfgs), FirstScoring(cfgs))
  {
    var rules: seq<Rule>, scoring: Option<Scoring> := [], None;
    var seen: set<string> := {};
    for n := 0 to |cfgs|
      invariant rules == RulesOf(cfgs[..n]) && scoring == FirstScoring(cfgs[..n])
      invariant UniqueIds(rules) && forall id :: id in seen <==> HasId(rules, id)
    {
      var cfg := cfgs[n];
      ghost var before := rules;
      assert cfgs[..n + 1][..n] == cfgs[..n];
      for i := 0 to |cfg.rules|
        invariant rules == before + cfg.rules[..i]
        invariant UniqueIds(rules) && forall id :: id in seen <==> HasId(rules, id)
      {
        var x := cfg.rules[i];
        assert before + cfg.rules[..i + 1] == rules + [x];
        if x.id in seen {
          RepeatedId(cfgs, n, before, i);
          return None;
        }
        forall id ensures HasId(rules + [x], id) <==> HasId(rules, id) || x.id == id { HasIdSnoc(rules, x, id); }
        rules, seen := rules + [x], seen + {x.id};
      }
      assert cfg.rules[..|cfg.rules|] == cfg.rules;
      if scoring.None? && cfg.scoring.Some? { scoring := cfg.scoring; }
    }
    assert cfgs[..|cfgs|] == cfgs;
    if |rules| == 0 { return None; }
    return Some(Config(rules, scoring));
  }
}
