/** Posture regression between two scans (internal/regression/regression.go). */
module Regression {
  import opened Seqs
  import opened Order
  import opened Policy

  const DEFAULT_DROP := 10

  datatype SevereFinding = SevereFinding(ruleID: string, title: string, severity: Severity)

  datatype Report = Report(scoreDelta: int, scoreDropped: bool, newSevere: seq<SevereFinding>)

  predicate Severe(f: Finding) { f.severity.Critical? || f.severity.High? }

  /** The rule IDs with a critical or high finding. */
  ghost function SevereIds(fs: seq<Finding>): set<string> { set f | f in fs && Severe(f) :: f.ruleID }

  /** Rule IDs that became severe; those already severe before are not new. */
  ghost function NewSevereIds(before: seq<Finding>, after: seq<Finding>): set<string> {
    SevereIds(after) - SevereIds(before)
  }

  function Threshold(drop: int): int { if drop <= 0 then DEFAULT_DROP else drop }

  ghost predicate Worsened(oldScore: int, newScore: int, before: seq<Finding>, after: seq<Finding>, drop: int) {
    oldScore - newScore >= Threshold(drop) || NewSevereIds(before, after) != {}
  }

  function SevereOf(id: string): Finding -> bool { (f: Finding) => Severe(f) && f.ruleID == id }

  function IdOf(s: SevereFinding): string { s.ruleID }

  /** s quotes the first severe finding of its rule. */
  ghost predicate Quotes(s: SevereFinding, after: seq<Finding>) {
    var mine := Filter(after, SevereOf(s.ruleID));
    mine != [] && s == SevereFinding(s.ruleID, mine[0].title, mine[0].severity)
  }

  /** The new severe findings: one entry for each new rule ID, in ID order. */
  ghost predicate ListsNewSevere(l: seq<SevereFinding>, before: seq<Finding>, after: seq<Finding>) {
    && Enumerates(Map(l, IdOf), NewSevereIds(before, after), StringLe)
    && (forall s :: s in l ==> Quotes(s, after))
  }

  /** The quotation of a rule's first severe finding. */
  function Quote(after: seq<Finding>): string -> SevereFinding {
    (id: string) =>
      var mine := Filter(after, SevereOf(id));
      if mine == [] then SevereFinding(id, "", Info) else SevereFinding(id, mine[0].title, mine[0].severity)
  }

  ghost function NewSevere(before: seq<Finding>, after: seq<Finding>): seq<SevereFinding> {
    Map(AscendingStrings(NewSevereIds(before, after)), Quote(after))
  }

  /** The comparison as a function: what Detect returns. */
  ghost function Detected(oldScore: int, newScore: int, before: seq<Finding>, after: seq<Finding>, drop: int): Option<Report> {
    if Worsened(oldScore, newScore, before, after, drop) then
      Some(Report(newScore - oldScore, oldScore - newScore >= Threshold(drop), NewSevere(before, after)))
    else None
  }

  lemma SevereHasQuote(after: seq<Finding>, id: string)
    requires id in SevereIds(after)
    ensures Filter(after, SevereOf(id)) != []
  {
    FilterLength(after, SevereOf(id));
    CountIfPositive(after, SevereOf(id));
    var f :| f in after && Severe(f) && f.ruleID == id;
    var i :| 0 <= i < |after| && after[i] == f;
    assert SevereOf(id)(after[i]);
  }

  /** The entries that meet the description are the quotations, in ID order. */
  lemma ListedAreQuoted(l: seq<SevereFinding>, before: seq<Finding>, after: seq<Finding>)
    requires ListsNewSevere(l, before, after)
    ensures l == NewSevere(before, after)
  {
    AscendingStringsUnique(Map(l, IdOf), NewSevereIds(before, after));
    forall i | 0 <= i < |l| ensures l[i] == NewSevere(before, after)[i] {
      assert l[i] in l && IdOf(l[i]) == Map(l, IdOf)[i];
    }
  }

  lemma QuoteIsQuoted(after: seq<Finding>, id: string)
    requires id in SevereIds(after)
    ensures Quotes(Quote(after)(id), after) && IdOf(Quote(after)(id)) == id
  {
    SevereHasQuote(after, id);
  }

  /** Conversely the quotations list exactly the rules that became severe. */
  lemma QuotedAreListed(before: seq<Finding>, after: seq<Finding>)
    ensures ListsNewSevere(NewSevere(before, after), before, after)
  {
    var ids := AscendingStrings(NewSevereIds(before, after));
    var l := NewSevere(before, after);
    EnumeratesMembers(ids, NewSevereIds(before, after), StringLe);
    forall i | 0 <= i < |ids| ensures IdOf(l[i]) == ids[i] && Quotes(l[i], after) {
      assert ids[i] in ids;
      QuoteIsQuoted(after, ids[i]);
    }
    assert Map(l, IdOf) == ids;
  }

  predicate ById(a: SevereFinding, b: SevereFinding) { StringLe(a.ruleID, b.ruleID) }

  lemma SevereSnoc(fs: seq<Finding>, f: Finding)
    ensures SevereIds(fs + [f]) == SevereIds(fs) + (if Severe(f) then {f.ruleID} else {})
  {
    assert f in fs + [f];
  }

  method SevereIdSet(fs: seq<Finding>) returns (ids: set<string>)
    ensures ids == SevereIds(fs)
  {
    ids := {};
    for i := 0 to |fs|
      invariant ids == SevereIds(fs[..i])
    {
      assert fs[..i + 1] == fs[..i] + [fs[i]];
      SevereSnoc(fs[..i], fs[i]);
      if Severe(fs[i]) { ids := ids + {fs[i].ruleID}; }
    }
    assert fs[..|fs|] == fs;
  }

  /** One unsorted entry for each new rule ID met so far. */
  ghost predicate Collected(l: seq<SevereFinding>, known: set<string>, seen: set<string>, after: seq<Finding>) {
    && seen == SevereIds(after) - known
    && multiset(Map(l, IdOf)) == multiset(seen)
    && (forall s :: s in l ==> Quotes(s, after))
  }

  lemma QuotesSnoc(s: SevereFinding, fs: seq<Finding>, f: Finding)
    requires Quotes(s, fs)
    ensures Quotes(s, fs + [f])
  {
    FilterSnoc(fs, f, SevereOf(s.ruleID));
  }

  lemma FirstOfRule(fs: seq<Finding>, f: Finding)
    requires Severe(f) && f.ruleID !in SevereIds(fs)
    ensures Quotes(SevereFinding(f.ruleID, f.title, f.severity), fs + [f])
  {
    FilterSnoc(fs, f, SevereOf(f.ruleID));
    FilterLength(fs, SevereOf(f.ruleID));
    CountIfPositive(fs, SevereOf(f.ruleID));
    assert forall i :: 0 <= i < |fs| && Severe(fs[i]) ==> fs[i].ruleID in SevereIds(fs);
  }

  /** One finding: listed if its rule is severe, not known, and not met yet. */
  method MeetFinding(l: seq<SevereFinding>, met: set<string>, known: set<string>, f: Finding, ghost fs: seq<Finding>)
    returns (l': seq<SevereFinding>, met': set<string>)
    requires Collected(l, known, met, fs)
    ensures Collected(l', known, met', fs + [f])
  {
    hide Quotes, SevereIds;
    l', met' := l, met;
    SevereSnoc(fs, f);
    forall s | s in l ensures Quotes(s, fs + [f]) { QuotesSnoc(s, fs, f); }
    if Severe(f) && f.ruleID !in known && f.ruleID !in met {
      FirstOfRule(fs, f);
      MapSnoc(l, SevereFinding(f.ruleID, f.title, f.severity), IdOf);
      l', met' := l + [SevereFinding(f.ruleID, f.title, f.severity)], met + {f.ruleID};
    }
  }

  lemma NothingMet(known: set<string>)
    ensures Collected([], known, {}, [])
  {
  }

  method CollectNewSevere(known: set<string>, after: seq<Finding>) returns (l: seq<SevereFinding>, ghost seen: set<string>)
    ensures Collected(l, known, seen, after)
  {
    hide Collected;
    l := [];
    var met: set<string> := {};
    NothingMet(known);
    for i := 0 to |after|
      invariant Collected(l, known, met, after[..i])
    {
      assert after[..i + 1] == after[..i] + [after[i]];
      l, met := MeetFinding(l, met, known, after[i], after[..i]);
    }
    assert after[..|after|] == after;
    seen := met;
  }

  lemma SortCollected(l: seq<SevereFinding>, before: seq<Finding>, after: seq<Finding>)
    requires Collected(l, SevereIds(before), NewSevereIds(before, after), after)
    ensures ListsNewSevere(Sort(l, ById), before, after)
    ensures Sort(l, ById) == [] <==> NewSevereIds(before, after) == {}
  {
    var sorted := Sort(l, ById);
    StringOrder();
    assert TotalPreorder(ById);
    SortSorts(l, ById);
    SortPermutes(l, ById);
    MapPermutation(sorted, l, IdOf);
    assert Sorted(Map(sorted, IdOf), StringLe);
    EnumeratesMembers(Map(sorted, IdOf), NewSevereIds(before, after), StringLe);
  }

  lemma CollectedIsDetected(oldScore: int, newScore: int, l: seq<SevereFinding>, before: seq<Finding>, after: seq<Finding>, drop: int)
    requires Collected(l, SevereIds(before), NewSevereIds(before, after), after)
    ensures var dropped := oldScore - newScore >= Threshold(drop);
            Detected(oldScore, newScore, before, after, drop)
            == if !dropped && Sort(l, ById) == [] then None
               else Some(Report(newScore - oldScore, dropped, Sort(l, ById)))
  {
    SortCollected(l, before, after);
    ListedAreQuoted(Sort(l, ById), before, after);
  }

  /** A regression is reported exactly when the score dropped by the threshold or
      a rule became severe that was not severe before. */
  method Detect(oldScore: int, newScore: int, before: seq<Finding>, after: seq<Finding>, drop: int)
    returns (r: Option<Report>)
    ensures r == Detected(oldScore, newScore, before, after, drop)
  {
    var threshold := if drop <= 0 then DEFAULT_DROP else drop;
    var dropped := oldScore - newScore >= threshold;
    var oldSevere := SevereIdSet(before);
    var found, seen := CollectNewSevere(oldSevere, after);
    CollectedIsDetected(oldScore, newScore, found, before, after, drop);
    var newSevere := Sort(found, ById);
    if !dropped && |newSevere| == 0 { return None; }
    return Some(Report(newScore - oldScore, dropped, newSevere));
  }
}
