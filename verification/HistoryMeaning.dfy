/** What the server keeps and reports of a scan, in the words of its findings and
    certificates: regressions (internal/regression), stored rows
    (internal/server/history.go) and the monitor's entries (internal/certmon). */
module HistoryMeaning {
  import opened Seqs
  import opened Order
  import opened Inventory
  import P = Policy
  import PM = PolicyMeaning
  import R = Regression
  import C = Certmon
  import Snapshot
  import Evidence
  import opened Store
  import opened History
  import opened HistoryRuns

  // ---- regressions ----

  predicate IsSevere(f: P.Finding) { f.severity == P.Critical || f.severity == P.High }

  /** The rule has a critical or high finding now and had none before. */
  predicate NewlySevere(before: seq<P.Finding>, after: seq<P.Finding>, id: string) {
    && (exists f :: f in after && f.ruleID == id && IsSevere(f))
    && (forall g :: g in before && g.ruleID == id ==> !IsSevere(g))
  }

  /** Finding i is the first severe one of its rule. */
  predicate FirstSevere(after: seq<P.Finding>, i: nat) {
    && i < |after| && IsSevere(after[i])
    && forall j :: 0 <= j < i && after[j].ruleID == after[i].ruleID ==> !IsSevere(after[j])
  }

  ghost predicate ListedAt(before: seq<P.Finding>, after: seq<P.Finding>, i: nat, s: R.SevereFinding) {
    && FirstSevere(after, i) && NewlySevere(before, after, after[i].ruleID)
    && s == R.SevereFinding(after[i].ruleID, after[i].title, after[i].severity)
  }

  lemma NewlySevereIds(before: seq<P.Finding>, after: seq<P.Finding>, id: string)
    ensures id in R.NewSevereIds(before, after) <==> NewlySevere(before, after, id)
  {
    if NewlySevere(before, after, id) {
      var f :| f in after && f.ruleID == id && IsSevere(f);
      assert R.Severe(f);
    }
    forall g | g in before && g.ruleID == id ensures R.Severe(g) <==> IsSevere(g) {
    }
  }

  lemma {:induction false} FirstOfFilter(fs: seq<P.Finding>, id: string)
    requires Filter(fs, R.SevereOf(id)) != []
    ensures exists i: nat :: FirstSevere(fs, i) && fs[i].ruleID == id && Filter(fs, R.SevereOf(id))[0] == fs[i]
  {
    var init, n := fs[..|fs| - 1], |fs| - 1;
    if Filter(init, R.SevereOf(id)) != [] {
      FirstOfFilter(init, id);
      var i: nat :| FirstSevere(init, i) && init[i].ruleID == id && Filter(init, R.SevereOf(id))[0] == init[i];
      assert FirstSevere(fs, i) && fs[i] == init[i];
    } else {
      NoneSevere(init, id);
      assert forall j :: 0 <= j < n ==> init[j] == fs[j];
      assert FirstSevere(fs, n);
    }
  }

  lemma {:induction false} NoneSevere(fs: seq<P.Finding>, id: string)
    requires Filter(fs, R.SevereOf(id)) == []
    ensures forall j :: 0 <= j < |fs| && fs[j].ruleID == id ==> !IsSevere(fs[j])
  {
    if fs != [] { NoneSevere(fs[..|fs| - 1], id); }
  }

  lemma FirstIsUnique(fs: seq<P.Finding>, i: nat, j: nat)
    requires FirstSevere(fs, i) && FirstSevere(fs, j) && fs[i].ruleID == fs[j].ruleID
    ensures i == j
  {
  }

  lemma QuotedMeaning(before: seq<P.Finding>, after: seq<P.Finding>, s: R.SevereFinding)
    ensures s in R.NewSevere(before, after) <==> exists i: nat :: ListedAt(before, after, i, s)
  {
    hide NewlySevere, FirstSevere, ListedAt, Before;
    var ids := AscendingStrings(R.NewSevereIds(before, after));
    AscendingStringsMeaning(R.NewSevereIds(before, after));
    MapMembers(ids, R.Quote(after), s);
    if id :| id in ids && R.Quote(after)(id) == s { QuotedIsListed(before, after, id); }
    if i: nat :| ListedAt(before, after, i, s) {
      ListedIsQuoted(before, after, i, s);
    }
  }

  lemma QuotedIsListed(before: seq<P.Finding>, after: seq<P.Finding>, id: string)
    requires id in R.NewSevereIds(before, after)
    ensures exists i: nat :: ListedAt(before, after, i, R.Quote(after)(id))
  {
    hide NewlySevere;
    NewlySevereIds(before, after, id);
    R.SevereHasQuote(after, id);
    FirstOfFilter(after, id);
    var i: nat :| FirstSevere(after, i) && after[i].ruleID == id && Filter(after, R.SevereOf(id))[0] == after[i];
    assert ListedAt(before, after, i, R.Quote(after)(id));
  }

  lemma ListedIsQuoted(before: seq<P.Finding>, after: seq<P.Finding>, i: nat, s: R.SevereFinding)
    requires ListedAt(before, after, i, s)
    ensures s in R.NewSevere(before, after)
  {
    var id := after[i].ruleID;
    NewlySevereIds(before, after, id);
    R.SevereHasQuote(after, id);
    FirstOfFilter(after, id);
    var j: nat :| FirstSevere(after, j) && after[j].ruleID == id && Filter(after, R.SevereOf(id))[0] == after[j];
    FirstIsUnique(after, i, j);
    var ids := AscendingStrings(R.NewSevereIds(before, after));
    AscendingStringsMeaning(R.NewSevereIds(before, after));
    MapMembers(ids, R.Quote(after), s);
    assert R.Quote(after)(id) == s;
  }

  /** A regression is reported exactly if the score fell by the threshold, 10 if
      none is set, or a rule became critical or high; it carries the change of
      the score, whether that alone would have done, and the first severe finding
      of each such rule, in strictly ascending order of their IDs. */
  lemma RegressionMeaning(oldScore: int, newScore: int, before: seq<P.Finding>, after: seq<P.Finding>, drop: int)
    ensures var r := R.Detected(oldScore, newScore, before, after, drop);
            var fell := oldScore - newScore >= if drop <= 0 then 10 else drop;
            && (r.Some? <==> fell || exists id :: NewlySevere(before, after, id))
            && (r.Some? ==>
                  && r.value.scoreDelta == newScore - oldScore && r.value.scoreDropped == fell
                  && (forall s :: s in r.value.newSevere <==> exists i: nat :: ListedAt(before, after, i, s))
                  && (forall i, j :: 0 <= i < j < |r.value.newSevere| ==>
                        Before(r.value.newSevere[i].ruleID, r.value.newSevere[j].ruleID)))
  {
    hide NewlySevere, ListedAt, R.NewSevereIds, R.NewSevere, Before;
    forall id ensures id in R.NewSevereIds(before, after) <==> NewlySevere(before, after, id) { NewlySevereIds(before, after, id); }
    forall s ensures s in R.NewSevere(before, after) <==> exists i: nat :: ListedAt(before, after, i, s) {
      QuotedMeaning(before, after, s);
    }
    QuotedInOrder(before, after);
  }

  lemma QuotedInOrder(before: seq<P.Finding>, after: seq<P.Finding>)
    ensures var l := R.NewSevere(before, after);
            forall i, j :: 0 <= i < j < |l| ==> Before(l[i].ruleID, l[j].ruleID)
  {
    hide R.NewSevereIds, Before, Seqs.Filter;
    AscendingStringsMeaning(R.NewSevereIds(before, after));
  }

  // ---- stored scans ----

  /** A report is stored exactly if it has a token with a serial number. */
  lemma StoredMeaning(x: Input)
    ensures Takes(x) <==> x.report.inventory != None && x.report.inventory.value.token != None
                          && x.report.inventory.value.token.value.serial != ""
  {
  }

  /** Row k of the scans is the k-th accepted report: taken when its inventory
      was, with its score and the numbers of its critical, high, medium and low
      findings, under the HSM of its serial number and source. */
  lemma ScanRowMeaning(ins: seq<Input>, k: nat)
    requires k < |Run(ins).scans|
    ensures k < |Scans(ins)|
    ensures var row, x, hsms := Run(ins).scans[k], Scans(ins)[k], Run(ins).hsms;
            && x.report.inventory != None && x.report.inventory.value.token != None
            && row.id == k + 1 && row.report == x.report && row.score == x.report.score
            && row.takenAt == x.report.inventory.value.scannedAt
            && row.critical == CountIf(x.report.findings, PM.Of(P.Critical)) && row.high == CountIf(x.report.findings, PM.Of(P.High))
            && row.medium == CountIf(x.report.findings, PM.Of(P.Medium)) && row.low == CountIf(x.report.findings, PM.Of(P.Low))
            && 1 <= row.hsmID <= |hsms| && hsms[row.hsmID - 1].id == row.hsmID
            && hsms[row.hsmID - 1].serial == x.report.inventory.value.token.value.serial != ""
            && hsms[row.hsmID - 1].source == x.source
  {
    hide Run, Scans;
    RunKeepsInv(ins);
    var fs := Scans(ins)[k].report.findings;
    assert RowFits(Run(ins).hsms, Run(ins).scans[k], Scans(ins)[k], k);
    CountIfCongruent(fs, IsSeverity(P.Critical), PM.Of(P.Critical));
    CountIfCongruent(fs, IsSeverity(P.High), PM.Of(P.High));
    CountIfCongruent(fs, IsSeverity(P.Medium), PM.Of(P.Medium));
    CountIfCongruent(fs, IsSeverity(P.Low), PM.Of(P.Low));
  }

  // ---- stored events ----

  lemma LinkedEvents<E, T(!new)>(es: seq<E>, link: E -> Link<T>, acc: seq<Input>, what: (Input, Input) -> Option<T>, i: nat)
    requires AllTaken(acc) && Map(es, link) == Links(acc, what) && i < |es|
    ensures Records(acc, what, link(es[i]))
  {
    hide Links, Records;
    assert Map(es, link)[i] in Links(acc, what);
    LinksMeaning(acc, what, link(es[i]));
  }

  /** A drift event holds the difference from the compared scan's inventory to
      this scan's, and its size, under this scan's HSM. */
  lemma DriftEventMeaning(ins: seq<Input>, i: nat)
    requires i < |Run(ins).drifts|
    ensures var e, acc := Run(ins).drifts[i], Scans(ins);
            && e.id == i + 1 && Compared(acc, e.oldScanID, e.newScanID)
            && e.diff == Snapshot.DiffOf(acc[e.oldScanID - 1].report.inventory.value, acc[e.newScanID - 1].report.inventory.value)
            && e.changes == |e.diff.tokenChanges| + |e.diff.mechanismsAdded| + |e.diff.mechanismsRemoved|
                            + |e.diff.objectsAdded| + |e.diff.objectsRemoved| + |e.diff.objectChanges| != 0
            && |Run(ins).scans| == |acc| && e.hsmID == Run(ins).scans[e.newScanID - 1].hsmID
  {
    hide Run, Scans, Snapshot.DiffOf, Links;
    RunKeepsInv(ins);
    LinkedEvents(Run(ins).drifts, DriftLink, Scans(ins), DriftBetween, i);
  }

  /** A regression event holds the comparison with the compared scan under the
      default threshold, under this scan's HSM. */
  lemma RegressionEventMeaning(ins: seq<Input>, i: nat)
    requires i < |Run(ins).regressions|
    ensures var e, acc := Run(ins).regressions[i], Scans(ins);
            && e.id == i + 1 && Compared(acc, e.oldScanID, e.newScanID)
            && (var a, b := acc[e.oldScanID - 1].report, acc[e.newScanID - 1].report;
                && R.Detected(a.score, b.score, a.findings, b.findings, 0) == Some(e.detail)
                && e.scoreDelta == b.score - a.score)
            && |Run(ins).scans| == |acc| && e.hsmID == Run(ins).scans[e.newScanID - 1].hsmID
  {
    hide Run, Scans, R.Worsened, R.NewSevere, Links;
    RunKeepsInv(ins);
    LinkedEvents(Run(ins).regressions, RegressionLink, Scans(ins), RegressionBetween, i);
  }

  // ---- the monitor's entries ----

  /** Nanoseconds in a day. */
  const DAY_NS := 24 * 60 * 60 * 1_000_000_000

  function When(c: bool, w: C.Warning): seq<C.Warning> { if c then [w] else [] }

  /** The whole days between now and then, towards zero. */
  predicate WholeDays(days: int, left: int) {
    if left >= 0 then days * DAY_NS <= left < (days + 1) * DAY_NS else (days - 1) * DAY_NS < left <= days * DAY_NS
  }

  /** e is the entry of a certificate object. */
  predicate Describes(objs: seq<Object>, now: int, warnDays: int, o: Object, e: C.Entry) {
    o.class_ == "certificate" && o.cert != None &&
    var c := o.cert.value;
    && e.name == o.name && e.id == o.id && e.subject == c.subject && e.notAfter == c.notAfter
    && (e.status == C.Expired <==> c.notAfter <= now)
    && (e.status == C.Expiring <==> now < c.notAfter <= now + warnDays * DAY_NS)
    && WholeDays(e.daysLeft, c.notAfter - now)
    && e.warnings == When(c.selfSigned && !c.isCA, C.SelfSigned)
                   + When(now < c.notBefore, C.NotYetValid)
                   + When(c.publicKeyAlgorithm == "RSA" && 0 < c.publicKeyBits < 2048, C.WeakRSA(c.publicKeyBits))
                   + When(c.isCA && !c.keyCertSign, C.CAWithoutKeyCertSign)
                   + When(PM.Foreign(objs, o), C.MismatchedKey)
                   + When(c.chainUnverified, C.ChainUnverified)
  }

  lemma DaysMeaning(left: int)
    ensures forall d :: WholeDays(d, left) <==> d == C.TruncDiv(left, C.DAY)
  {
    assert C.DAY == DAY_NS;
    var d := C.TruncDiv(left, C.DAY);
    assert WholeDays(d, left);
    forall x | WholeDays(x, left) ensures x == d { OneQuotient(x, d, left); }
  }

  lemma OneQuotient(x: int, y: int, left: int)
    requires WholeDays(x, left) && WholeDays(y, left)
    ensures x == y
  {
    if left >= 0 {
      assert (x - y) * DAY_NS < DAY_NS && (y - x) * DAY_NS < DAY_NS;
    } else {
      assert (x - y) * DAY_NS < DAY_NS && (y - x) * DAY_NS < DAY_NS;
    }
  }

  lemma WarnedIsWhen(w: seq<C.Warning>, c: bool, x: C.Warning)
    ensures C.Warned(w, c, x) == w + When(c, x)
  {
  }

  lemma WarningsConcatenate(objs: seq<Object>, o: Object, c: Cert, now: int)
    ensures C.WarningsOf(objs, o, c, now)
         == When(c.selfSigned && !c.isCA, C.SelfSigned)
          + When(now < c.notBefore, C.NotYetValid)
          + When(c.publicKeyAlgorithm == "RSA" && 0 < c.publicKeyBits < 2048, C.WeakRSA(c.publicKeyBits))
          + When(c.isCA && !c.keyCertSign, C.CAWithoutKeyCertSign)
          + When(PM.Foreign(objs, o), C.MismatchedKey)
          + When(c.chainUnverified, C.ChainUnverified)
  {
    hide C.Warned, When, P.KeyMismatch, PM.Foreign;
    PM.MismatchMeaning(objs, o);
    forall w, b, x ensures C.Warned(w, b, x) == w + When(b, x) { WarnedIsWhen(w, b, x); }
    assert [] + When(c.selfSigned && !c.isCA, C.SelfSigned) == When(c.selfSigned && !c.isCA, C.SelfSigned);
  }

  lemma EntryDescribes(objs: seq<Object>, now: int, warnDays: int, o: Object, e: C.Entry)
    requires C.IsCertificate(o)
    ensures Describes(objs, now, warnDays, o, e) <==> e == C.EntryOf(objs, now, warnDays)(o)
  {
    hide C.WarningsOf, C.TruncDiv, WholeDays;
    assert C.DAY == DAY_NS;
    DaysMeaning(o.cert.value.notAfter - now);
    WarningsConcatenate(objs, o, o.cert.value, now);
  }

  function ExpiringAt(t: int): C.Entry -> bool { (e: C.Entry) => e.notAfter == t }

  /** The monitor lists one entry for each certificate object, by expiry, and
      certificates that expire together in the order of the inventory. */
  lemma MonitorMeaning(inv: Inventory, now: int, warnDays: int, e: C.Entry, t: int)
    ensures var es := C.Entries(inv, now, warnDays);
            && (e in es <==> exists o :: o in inv.objects && Describes(inv.objects, now, warnDays, o, e))
            && |es| == CountIf(inv.objects, (o: Object) => o.class_ == "certificate" && o.cert != None)
            && (forall i, j :: 0 <= i < j < |es| ==> es[i].notAfter <= es[j].notAfter)
            && Filter(es, ExpiringAt(t))
               == Filter(Map(Filter(inv.objects, C.IsCertificate), C.EntryOf(inv.objects, now, warnDays)), ExpiringAt(t))
  {
    hide Describes, C.EntryOf, Seqs.CountIf, Seqs.Filter, Sort;
    MonitorEntries(inv, now, warnDays, e);
    MonitorOrder(inv, now, warnDays, t);
    MonitorLength(inv, now, warnDays);
  }

  lemma MonitorEntries(inv: Inventory, now: int, warnDays: int, e: C.Entry)
    ensures e in C.Entries(inv, now, warnDays)
       <==> exists o :: o in inv.objects && Describes(inv.objects, now, warnDays, o, e)
  {
    hide C.EntryOf, Describes, Sort;
    var objs, certs := inv.objects, Filter(inv.objects, C.IsCertificate);
    var entry := C.EntryOf(objs, now, warnDays);
    SortPermutes(Map(certs, entry), C.ExpiryLe);
    MapMembers(certs, entry, e);
    FilterMembers(objs, C.IsCertificate);
    if o :| o in certs && entry(o) == e { EntryDescribes(objs, now, warnDays, o, e); }
    if o :| o in objs && Describes(objs, now, warnDays, o, e) {
      assert C.IsCertificate(o) by { DescribesCertificate(objs, now, warnDays, o, e); }
      EntryDescribes(objs, now, warnDays, o, e);
    }
  }

  lemma DescribesCertificate(objs: seq<Object>, now: int, warnDays: int, o: Object, e: C.Entry)
    requires Describes(objs, now, warnDays, o, e)
    ensures C.IsCertificate(o)
  {
  }

  lemma MonitorOrder(inv: Inventory, now: int, warnDays: int, t: int)
    ensures var es := C.Entries(inv, now, warnDays);
            && (forall i, j :: 0 <= i < j < |es| ==> es[i].notAfter <= es[j].notAfter)
            && Filter(es, ExpiringAt(t))
               == Filter(Map(Filter(inv.objects, C.IsCertificate), C.EntryOf(inv.objects, now, warnDays)), ExpiringAt(t))
  {
    hide C.EntryOf, Seqs.Filter;
    var list := Map(Filter(inv.objects, C.IsCertificate), C.EntryOf(inv.objects, now, warnDays));
    var es, y := Sort(list, C.ExpiryLe), C.Entry("", "", "", t, C.OK, 0, []);
    assert TotalPreorder(C.ExpiryLe);
    SortSorts(list, C.ExpiryLe);
    SortStable(list, C.ExpiryLe, y);
    forall i, j | 0 <= i < j < |es| ensures es[i].notAfter <= es[j].notAfter { assert C.ExpiryLe(es[i], es[j]); }
    forall e ensures TiedTo(y, C.ExpiryLe)(e) == ExpiringAt(t)(e) { TiedByExpiry(e, y); }
    Evidence.FilterTwice(es, TiedTo(y, C.ExpiryLe), ExpiringAt(t));
    Evidence.FilterTwice(list, TiedTo(y, C.ExpiryLe), ExpiringAt(t));
  }

  lemma TiedByExpiry(e: C.Entry, y: C.Entry)
    ensures TiedTo(y, C.ExpiryLe)(e) == ExpiringAt(y.notAfter)(e)
  {
    assert C.ExpiryLe(y, e) && C.ExpiryLe(e, y) <==> e.notAfter == y.notAfter;
  }

  lemma MonitorLength(inv: Inventory, now: int, warnDays: int)
    ensures |C.Entries(inv, now, warnDays)| == CountIf(inv.objects, (o: Object) => o.class_ == "certificate" && o.cert != None)
  {
    hide C.EntryOf;
    SortPermutes(Map(Filter(inv.objects, C.IsCertificate), C.EntryOf(inv.objects, now, warnDays)), C.ExpiryLe);
    FilterLength(inv.objects, C.IsCertificate);
    CountIfCongruent(inv.objects, C.IsCertificate, (o: Object) => o.class_ == "certificate" && o.cert != None);
  }
}
