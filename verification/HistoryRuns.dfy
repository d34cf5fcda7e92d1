/** The event history over whole runs: which scans the stored drift and
    regression events link. */
module HistoryRuns {
  import opened Seqs
  import I = Inventory
  import opened Store
  import opened History
  import Snapshot
  import Regression

  /** One call of persistScan: the report, where it came from, and the clock. */
  datatype Input = Input(report: Report, source: string, now: int)

  predicate Takes(i: Input) { Accepted(i.report) }

  const EMPTY := Log([], [], [], [])

  ghost function Run(ins: seq<Input>): Log {
    if ins == [] then EMPTY
    else
      var i := ins[|ins| - 1];
      Persisted(Run(ins[..|ins| - 1]), i.report, i.source, i.now)
  }

  function Serial(i: Input): string
    requires Takes(i)
  {
    i.report.inventory.value.token.value.serial
  }

  function TakenAt(i: Input): int
    requires Takes(i)
  {
    i.report.inventory.value.scannedAt
  }

  /** Both scans are of one HSM: same serial number, same source. */
  predicate SameHsm(a: Input, b: Input)
    requires Takes(a) && Takes(b)
  {
    Serial(a) == Serial(b) && a.source == b.source
  }

  predicate AllTaken(acc: seq<Input>) { forall k :: 0 <= k < |acc| ==> Takes(acc[k]) }

  // ---- which scan a scan is compared with ----

  /** The newest scan of x's HSM, later scans winning ties. */
  function NewestLike(acc: seq<Input>, x: Input): (r: Option<nat>)
    requires AllTaken(acc) && Takes(x)
    ensures r.Some? ==> r.value < |acc| && SameHsm(acc[r.value], x)
    ensures r.Some? ==> forall j :: 0 <= j < |acc| && SameHsm(acc[j], x) ==>
              TakenAt(acc[j]) <= TakenAt(acc[r.value]) && (TakenAt(acc[j]) == TakenAt(acc[r.value]) ==> j <= r.value)
    ensures r.None? ==> forall j :: 0 <= j < |acc| ==> !SameHsm(acc[j], x)
  {
    if acc == [] then None
    else
      var n := |acc| - 1;
      var earlier := NewestLike(acc[..n], x);
      assert forall j :: 0 <= j < n ==> acc[..n][j] == acc[j];
      if SameHsm(acc[n], x) && (earlier.None? || TakenAt(acc[earlier.value]) <= TakenAt(acc[n])) then Some(n)
      else earlier
  }

  /** Scans o and n of one HSM with no other scan of it between them. */
  predicate Adjacent(acc: seq<Input>, o: int, n: int)
    requires AllTaken(acc)
  {
    0 <= o < n < |acc| && SameHsm(acc[o], acc[n]) && forall j :: o < j < n ==> !SameHsm(acc[j], acc[n])
  }

  /** A scan is compared with its predecessor exactly when no still earlier scan
      of the HSM carries a later time. */
  lemma ComparedWithPredecessor(acc: seq<Input>, o: int, n: int)
    requires AllTaken(acc) && Adjacent(acc, o, n)
    ensures NewestLike(acc[..n], acc[n]) == Some(o)
       <==> forall j :: 0 <= j < o && SameHsm(acc[j], acc[n]) ==> TakenAt(acc[j]) <= TakenAt(acc[o])
  {
    var r := NewestLike(acc[..n], acc[n]);
    assert forall j :: 0 <= j < n ==> acc[..n][j] == acc[j];
    assert SameHsm(acc[..n][o], acc[n]);
    assert r.Some? && r.value <= o;
  }

  /** Up to scan n, the times of its own HSM's scans never go back. */
  predicate TimesOrdered(acc: seq<Input>, n: nat)
    requires AllTaken(acc) && n < |acc|
  {
    forall i, j :: 0 <= i < j < n && SameHsm(acc[i], acc[n]) && SameHsm(acc[j], acc[n]) ==> TakenAt(acc[i]) <= TakenAt(acc[j])
  }

  /** Then the comparison partner is the predecessor. */
  lemma NewestIsPredecessor(acc: seq<Input>, o: int, n: int)
    requires AllTaken(acc) && 0 <= n < |acc| && 0 <= o && TimesOrdered(acc, n)
    ensures NewestLike(acc[..n], acc[n]) == Some(o) <==> Adjacent(acc, o, n)
  {
    if Adjacent(acc, o, n) { ComparedWithPredecessor(acc, o, n); }
    if NewestLike(acc[..n], acc[n]) == Some(o) {
      forall j | o < j < n ensures !SameHsm(acc[j], acc[n]) {
        assert acc[..n][j] == acc[j] && acc[..n][o] == acc[o];
      }
    }
  }

  // ---- the links a stream of scans should leave ----

  /** Scan IDs of a compared pair, and what the comparison said. */
  datatype Link<T> = Link(oldScan: nat, newScan: nat, what: T)

  function OneLink<T>(oldScan: nat, newScan: nat, what: Option<T>): seq<Link<T>> {
    if what.None? then [] else [Link(oldScan, newScan, what.value)]
  }

  ghost function LinkTo<T(!new)>(before: seq<Input>, x: Input, what: (Input, Input) -> Option<T>): seq<Link<T>>
    requires AllTaken(before) && Takes(x)
  {
    match NewestLike(before, x)
    case None => []
    case Some(k) => OneLink(k + 1, |before| + 1, what(before[k], x))
  }

  lemma LinkToKnown<T(!new)>(before: seq<Input>, x: Input, k: nat, what: (Input, Input) -> Option<T>)
    requires AllTaken(before) && Takes(x) && NewestLike(before, x) == Some(k)
    ensures LinkTo(before, x, what) == OneLink(k + 1, |before| + 1, what(before[k], x))
  {
  }

  ghost function Links<T(!new)>(acc: seq<Input>, what: (Input, Input) -> Option<T>): seq<Link<T>>
    requires AllTaken(acc)
  {
    if acc == [] then []
    else
      var n := |acc| - 1;
      Links(acc[..n], what) + LinkTo(acc[..n], acc[n], what)
  }

  /** l records a comparison of scan l.newScan with the newest one before it. */
  ghost predicate Records<T(!new)>(acc: seq<Input>, what: (Input, Input) -> Option<T>, l: Link<T>)
    requires AllTaken(acc)
  {
    && 1 <= l.oldScan < l.newScan <= |acc|
    && NewestLike(acc[..l.newScan - 1], acc[l.newScan - 1]) == Some(l.oldScan - 1)
    && what(acc[l.oldScan - 1], acc[l.newScan - 1]) == Some(l.what)
  }

  lemma LinkToMeaning<T(!new)>(acc: seq<Input>, what: (Input, Input) -> Option<T>, l: Link<T>)
    requires AllTaken(acc) && acc != []
    ensures l in LinkTo(acc[..|acc| - 1], acc[|acc| - 1], what) <==> l.newScan == |acc| && Records(acc, what, l)
  {
  }

  lemma RecordsEarlier<T(!new)>(acc: seq<Input>, what: (Input, Input) -> Option<T>, l: Link<T>)
    requires AllTaken(acc) && acc != []
    ensures Records(acc[..|acc| - 1], what, l) <==> l.newScan < |acc| && Records(acc, what, l)
  {
    if 1 <= l.newScan < |acc| {
      PrefixOfPrefix(acc, |acc| - 1, l.newScan - 1);
    }
  }

  lemma {:induction false} LinksMeaning<T(!new)>(acc: seq<Input>, what: (Input, Input) -> Option<T>, l: Link<T>)
    requires AllTaken(acc)
    ensures l in Links(acc, what) <==> Records(acc, what, l)
  {
    if acc != [] {
      LinksMeaning(acc[..|acc| - 1], what, l);
      LinkToMeaning(acc, what, l);
      RecordsEarlier(acc, what, l);
    }
  }

  /** Each scan is the new end of at most one link, in scan order. */
  lemma {:induction false} LinksAscend<T(!new)>(acc: seq<Input>, what: (Input, Input) -> Option<T>, i: nat, j: nat)
    requires AllTaken(acc) && i < j < |Links(acc, what)|
    ensures Links(acc, what)[i].newScan < Links(acc, what)[j].newScan
  {
    var n := |acc| - 1;
    var earlier := Links(acc[..n], what);
    if j < |earlier| {
      LinksAscend(acc[..n], what, i, j);
    } else {
      LinksMeaning(acc[..n], what, earlier[i]);
    }
  }

  ghost function DriftBetween(a: Input, b: Input): Option<Snapshot.Diff> {
    if !Takes(a) || !Takes(b) then None
    else
      var d := Snapshot.DiffOf(a.report.inventory.value, b.report.inventory.value);
      if d.Empty() then None else Some(d)
  }

  ghost function RegressionBetween(a: Input, b: Input): Option<Regression.Report> {
    if !Takes(a) || !Takes(b) then None
    else Regression.Detected(a.report.score, b.report.score, a.report.findings, b.report.findings, 0)
  }

  // ---- the run leaves exactly those ----

  function DriftLink(e: DriftEvent): Link<Snapshot.Diff> { Link(e.oldScanID, e.newScanID, e.diff) }

  function RegressionLink(e: RegressionEvent): Link<Regression.Report> { Link(e.oldScanID, e.newScanID, e.detail) }

  /** Scan row k stores report k under the HSM with its serial and source. */
  ghost predicate RowFits(hsms: seq<HSM>, row: ScanRecord, x: Input, k: nat) {
    && Takes(x) && 1 <= row.hsmID <= |hsms| && row == NewRow(x.report, row.hsmID, k + 1)
    && hsms[row.hsmID - 1].serial == Serial(x) && hsms[row.hsmID - 1].source == x.source
  }

  ghost predicate Fits(log: Log, acc: seq<Input>) {
    && HsmRows(log.hsms)
    && |log.scans| == |acc|
    && forall k :: 0 <= k < |acc| ==> RowFits(log.hsms, log.scans[k], acc[k], k)
  }

  /** An upsert refreshes the one row of the HSM, or adds it as the next row; IDs
      and first sightings stay. */
  lemma UpsertKeeps(hsms: seq<HSM>, serial: string, source: string, token: I.TokenInfo, now: int)
    requires HsmRows(hsms)
    ensures var after := Upserted(hsms, serial, source, token, now);
            var n := HsmIndex(hsms, serial, source);
            HsmRows(after) && n < |after| && |hsms| <= |after|
            && after[n].serial == serial && after[n].source == source && after[n].token == token && after[n].lastSeen == now
            && (forall i :: 0 <= i < |hsms| ==> after[i].serial == hsms[i].serial && after[i].source == hsms[i].source)
            && (forall i :: 0 <= i < |hsms| ==> after[i].firstSeen == hsms[i].firstSeen && (i != n ==> after[i] == hsms[i]))
  {
  }

  /** The store's `latest scan of this HSM` is the newest scan with that key. */
  lemma {:induction false} LatestIsNewestLike(hsms: seq<HSM>, scans: seq<ScanRecord>, acc: seq<Input>, x: Input, hsmID: nat)
    requires Takes(x) && |scans| == |acc| && HsmRows(hsms) && 1 <= hsmID <= |hsms|
    requires hsms[hsmID - 1].serial == Serial(x) && hsms[hsmID - 1].source == x.source
    requires forall k :: 0 <= k < |acc| ==> RowFits(hsms, scans[k], acc[k], k)
    ensures AllTaken(acc) && LatestIndex(scans, hsmID) == NewestLike(acc, x)
  {
    if acc != [] {
      var n := |acc| - 1;
      LatestIsNewestLike(hsms, scans[..n], acc[..n], x, hsmID);
      assert RowFits(hsms, scans[n], acc[n], n);
      assert SameHsm(acc[n], x) <==> scans[n].hsmID == hsmID;
    }
  }

  /** The row read back is the one of the scan x is compared with. */
  predicate Partner(prev: Option<ScanRecord>, acc: seq<Input>, x: Input)
    requires AllTaken(acc) && Takes(x)
  {
    match NewestLike(acc, x)
    case None => prev.None?
    case Some(k) => prev.Some? && prev.value.id == k + 1 && prev.value.report == acc[k].report
                    && prev.value.score == acc[k].report.score
  }

  lemma PartnerFits(log: Log, acc: seq<Input>, x: Input, hsmID: nat)
    requires Takes(x) && Fits(log, acc) && AllTaken(acc)
    requires LatestIndex(log.scans, hsmID) == NewestLike(acc, x)
    ensures Partner(PrevScan(log.scans, hsmID), acc, x)
  {
    var at := NewestLike(acc, x);
    if at.Some? { assert RowFits(log.hsms, log.scans[at.value], acc[at.value], at.value); }
  }

  lemma DriftEventsMeaning(prev: ScanRecord, newID: nat, hsmID: nat, a: Input, x: Input, next: nat)
    requires Takes(a) && Takes(x) && prev.report == a.report && prev.score == a.report.score
    ensures Map(DriftEvents(Some(prev), newID, hsmID, x.report, next), DriftLink)
         == OneLink(prev.id, newID, DriftBetween(a, x))
  {
  }

  lemma DriftStep(prev: Option<ScanRecord>, acc: seq<Input>, x: Input, hsmID: nat, next: nat)
    requires AllTaken(acc) && Takes(x) && Partner(prev, acc, x)
    ensures Map(DriftEvents(prev, |acc| + 1, hsmID, x.report, next), DriftLink) == LinkTo(acc, x, DriftBetween)
  {
    hide Snapshot.DiffOf;
    var at := NewestLike(acc, x);
    if at.Some? {
      DriftEventsMeaning(prev.value, |acc| + 1, hsmID, acc[at.value], x, next);
      LinkToKnown(acc, x, at.value, DriftBetween);
    }
  }

  lemma RegressionEventsMeaning(prev: ScanRecord, newID: nat, hsmID: nat, a: Input, x: Input, next: nat)
    requires Takes(a) && Takes(x) && prev.report == a.report && prev.score == a.report.score
    ensures Map(RegressionEvents(Some(prev), newID, hsmID, x.report, next), RegressionLink)
         == OneLink(prev.id, newID, RegressionBetween(a, x))
  {
  }

  lemma RegressionStep(prev: Option<ScanRecord>, acc: seq<Input>, x: Input, hsmID: nat, next: nat)
    requires AllTaken(acc) && Takes(x) && Partner(prev, acc, x)
    ensures Map(RegressionEvents(prev, |acc| + 1, hsmID, x.report, next), RegressionLink) == LinkTo(acc, x, RegressionBetween)
  {
    hide Regression.Detected;
    var at := NewestLike(acc, x);
    if at.Some? {
      RegressionEventsMeaning(prev.value, |acc| + 1, hsmID, acc[at.value], x, next);
      LinkToKnown(acc, x, at.value, RegressionBetween);
    }
  }

  /** The columns of an event agree with what it links. */
  ghost predicate EventsFit(log: Log) {
    && (forall i :: 0 <= i < |log.drifts| ==> DriftFits(log.scans, log.drifts[i], i))
    && (forall i :: 0 <= i < |log.regressions| ==> RegressionFits(log.scans, log.regressions[i], i))
  }

  ghost predicate DriftFits(scans: seq<ScanRecord>, e: DriftEvent, i: nat) {
    e.id == i + 1 && 1 <= e.newScanID <= |scans| && e.hsmID == scans[e.newScanID - 1].hsmID && e.changes == e.diff.Count()
  }

  ghost predicate RegressionFits(scans: seq<ScanRecord>, e: RegressionEvent, i: nat) {
    && e.id == i + 1 && 1 <= e.newScanID <= |scans| && e.hsmID == scans[e.newScanID - 1].hsmID
    && e.scoreDelta == e.detail.scoreDelta
  }

  /** Everything the run keeps between scans. */
  ghost predicate Inv(log: Log, acc: seq<Input>) {
    && AllTaken(acc) && Fits(log, acc) && EventsFit(log)
    && Map(log.drifts, DriftLink) == Links(acc, DriftBetween)
    && Map(log.regressions, RegressionLink) == Links(acc, RegressionBetween)
  }

  lemma FitsStep(log: Log, acc: seq<Input>, x: Input)
    requires Takes(x) && Fits(log, acc)
    ensures Fits(Persisted(log, x.report, x.source, x.now), acc + [x])
  {
    hide History.DriftEvents, History.RegressionEvents;
    var token := x.report.inventory.value.token.value;
    var hsms := Upserted(log.hsms, token.serial, x.source, token, x.now);
    var hsmID := HsmIndex(log.hsms, token.serial, x.source) + 1;
    UpsertKeeps(log.hsms, token.serial, x.source, token, x.now);
    var scans := log.scans + [NewRow(x.report, hsmID, |acc| + 1)];
    forall k | 0 <= k < |acc| + 1 ensures RowFits(hsms, scans[k], (acc + [x])[k], k) {
      if k < |acc| { assert RowFits(log.hsms, log.scans[k], acc[k], k); }
    }
  }

  lemma DriftEventsFit(scans: seq<ScanRecord>, prev: Option<ScanRecord>, hsmID: nat, rep: Report, next: nat)
    requires next >= 1 && scans != [] && scans[|scans| - 1].hsmID == hsmID
    ensures var es := DriftEvents(prev, |scans|, hsmID, rep, next);
            es == [] || (|es| == 1 && DriftFits(scans, es[0], next - 1))
  {
    hide Snapshot.DiffOf;
  }

  lemma RegressionEventsFit(scans: seq<ScanRecord>, prev: Option<ScanRecord>, hsmID: nat, rep: Report, next: nat)
    requires next >= 1 && scans != [] && scans[|scans| - 1].hsmID == hsmID
    ensures var es := RegressionEvents(prev, |scans|, hsmID, rep, next);
            es == [] || (|es| == 1 && RegressionFits(scans, es[0], next - 1))
  {
    hide Regression.Detected;
  }

  lemma DriftsFitStep(scans: seq<ScanRecord>, row: ScanRecord, es: seq<DriftEvent>, more: seq<DriftEvent>)
    requires forall i :: 0 <= i < |es| ==> DriftFits(scans, es[i], i)
    requires more == [] || (|more| == 1 && DriftFits(scans + [row], more[0], |es|))
    ensures forall i :: 0 <= i < |es + more| ==> DriftFits(scans + [row], (es + more)[i], i)
  {
    forall i | 0 <= i < |es + more| ensures DriftFits(scans + [row], (es + more)[i], i) {
      if i < |es| { assert DriftFits(scans, es[i], i); } else { assert (es + more)[i] == more[0]; }
    }
  }

  lemma RegressionsFitStep(scans: seq<ScanRecord>, row: ScanRecord, es: seq<RegressionEvent>, more: seq<RegressionEvent>)
    requires forall i :: 0 <= i < |es| ==> RegressionFits(scans, es[i], i)
    requires more == [] || (|more| == 1 && RegressionFits(scans + [row], more[0], |es|))
    ensures forall i :: 0 <= i < |es + more| ==> RegressionFits(scans + [row], (es + more)[i], i)
  {
    forall i | 0 <= i < |es + more| ensures RegressionFits(scans + [row], (es + more)[i], i) {
      if i < |es| { assert RegressionFits(scans, es[i], i); } else { assert (es + more)[i] == more[0]; }
    }
  }

  lemma EventsStep(log: Log, hsmID: nat, rep: Report)
    requires EventsFit(log) && Accepted(rep)
    ensures EventsFit(Appended(log, hsmID, rep))
  {
    hide History.DriftEvents, History.RegressionEvents;
    var prev, row := PrevScan(log.scans, hsmID), NewRow(rep, hsmID, |log.scans| + 1);
    var newID, d, r := |log.scans| + 1, |log.drifts| + 1, |log.regressions| + 1;
    DriftEventsFit(log.scans + [row], prev, hsmID, rep, d);
    DriftsFitStep(log.scans, row, log.drifts, DriftEvents(prev, newID, hsmID, rep, d));
    RegressionEventsFit(log.scans + [row], prev, hsmID, rep, r);
    RegressionsFitStep(log.scans, row, log.regressions, RegressionEvents(prev, newID, hsmID, rep, r));
  }

  lemma {:induction false} LinksSnoc<T(!new)>(acc: seq<Input>, x: Input, what: (Input, Input) -> Option<T>)
    requires AllTaken(acc) && Takes(x)
    ensures Links(acc + [x], what) == Links(acc, what) + LinkTo(acc, x, what)
  {
    assert (acc + [x])[..|acc|] == acc;
  }

  lemma DriftsStep(log: Log, acc: seq<Input>, x: Input, hsmID: nat)
    requires Takes(x) && Fits(log, acc) && AllTaken(acc)
    requires LatestIndex(log.scans, hsmID) == NewestLike(acc, x)
    requires Map(log.drifts, DriftLink) == Links(acc, DriftBetween)
    ensures Map(Appended(log, hsmID, x.report).drifts, DriftLink) == Links(acc + [x], DriftBetween)
  {
    hide Links, LinkTo;
    hide History.DriftEvents, History.RegressionEvents;
    PartnerFits(log, acc, x, hsmID);
    DriftStep(PrevScan(log.scans, hsmID), acc, x, hsmID, |log.drifts| + 1);
    LinksSnoc(acc, x, DriftBetween);
    MapAppend(log.drifts, DriftEvents(PrevScan(log.scans, hsmID), |acc| + 1, hsmID, x.report, |log.drifts| + 1), DriftLink);
  }

  lemma RegressionsStep(log: Log, acc: seq<Input>, x: Input, hsmID: nat)
    requires Takes(x) && Fits(log, acc) && AllTaken(acc)
    requires LatestIndex(log.scans, hsmID) == NewestLike(acc, x)
    requires Map(log.regressions, RegressionLink) == Links(acc, RegressionBetween)
    ensures Map(Appended(log, hsmID, x.report).regressions, RegressionLink) == Links(acc + [x], RegressionBetween)
  {
    hide Links, LinkTo;
    hide History.DriftEvents, History.RegressionEvents;
    PartnerFits(log, acc, x, hsmID);
    RegressionStep(PrevScan(log.scans, hsmID), acc, x, hsmID, |log.regressions| + 1);
    LinksSnoc(acc, x, RegressionBetween);
    MapAppend(log.regressions,
              RegressionEvents(PrevScan(log.scans, hsmID), |acc| + 1, hsmID, x.report, |log.regressions| + 1),
              RegressionLink);
  }

  /** The HSM table as this scan leaves it. */
  function AfterUpsert(log: Log, x: Input): Log
    requires Takes(x)
  {
    log.(hsms := Upserted(log.hsms, Serial(x), x.source, x.report.inventory.value.token.value, x.now))
  }

  lemma UpsertFits(log: Log, acc: seq<Input>, x: Input)
    requires Takes(x) && Fits(log, acc)
    ensures Fits(AfterUpsert(log, x), acc)
  {
    var after := AfterUpsert(log, x);
    UpsertKeeps(log.hsms, Serial(x), x.source, x.report.inventory.value.token.value, x.now);
    forall k | 0 <= k < |acc| ensures RowFits(after.hsms, log.scans[k], acc[k], k) {
      assert RowFits(log.hsms, log.scans[k], acc[k], k);
    }
  }

  /** What this scan appends to, and under which HSM. */
  lemma Upserting(log: Log, acc: seq<Input>, x: Input) returns (hsmID: nat)
    requires Takes(x) && Fits(log, acc)
    ensures hsmID == HsmIndex(log.hsms, Serial(x), x.source) + 1
    ensures AllTaken(acc) && Fits(AfterUpsert(log, x), acc)
    ensures LatestIndex(log.scans, hsmID) == NewestLike(acc, x)
  {
    hsmID := HsmIndex(log.hsms, Serial(x), x.source) + 1;
    UpsertKeeps(log.hsms, Serial(x), x.source, x.report.inventory.value.token.value, x.now);
    UpsertFits(log, acc, x);
    LatestIsNewestLike(AfterUpsert(log, x).hsms, log.scans, acc, x, hsmID);
  }

  lemma InvParts(log: Log, acc: seq<Input>)
    requires AllTaken(acc) && Fits(log, acc) && EventsFit(log)
    requires Map(log.drifts, DriftLink) == Links(acc, DriftBetween)
    requires Map(log.regressions, RegressionLink) == Links(acc, RegressionBetween)
    ensures Inv(log, acc)
  {
  }

  lemma InvStep(log: Log, acc: seq<Input>, x: Input, after: Log)
    requires Takes(x) && Inv(log, acc) && after == Persisted(log, x.report, x.source, x.now)
    ensures Inv(after, acc + [x])
  {
    hide History.DriftEvents, History.RegressionEvents;
    var hsmID := Upserting(log, acc, x);
    FitsStep(log, acc, x);
    EventsStep(AfterUpsert(log, x), hsmID, x.report);
    DriftsStep(AfterUpsert(log, x), acc, x, hsmID);
    RegressionsStep(AfterUpsert(log, x), acc, x, hsmID);
    assert after == Appended(AfterUpsert(log, x), hsmID, x.report);
    InvParts(after, acc + [x]);
  }

  /** The scans a run stores are the accepted reports, in order. */
  function Scans(ins: seq<Input>): (acc: seq<Input>)
    ensures AllTaken(acc)
  {
    FilterMembers(ins, Takes);
    Filter(ins, Takes)
  }

  lemma InvInitially()
    ensures Inv(EMPTY, [])
  {
  }

  lemma {:induction false} RunKeepsInv(ins: seq<Input>)
    ensures Inv(Run(ins), Scans(ins))
  {
    hide History.Appended, Inv;
    if ins == [] {
      InvInitially();
    } else {
      var init, x := ins[..|ins| - 1], ins[|ins| - 1];
      RunKeepsInv(init);
      assert ins == init + [x];
      FilterSnoc(init, x, Takes);
      if Takes(x) { InvStep(Run(init), Scans(init), x, Run(ins)); }
    }
  }

  ghost predicate HasDrift(log: Log, o: nat, n: nat) {
    exists e :: e in log.drifts && e.oldScanID == o && e.newScanID == n
  }

  ghost predicate HasRegression(log: Log, o: nat, n: nat) {
    exists e :: e in log.regressions && e.oldScanID == o && e.newScanID == n
  }

  /** Scan n was compared with scan o. */
  predicate Compared(acc: seq<Input>, o: nat, n: nat)
    requires AllTaken(acc)
  {
    1 <= o < n <= |acc| && NewestLike(acc[..n - 1], acc[n - 1]) == Some(o - 1)
  }

  ghost predicate Drifted(a: Input, b: Input)
    requires Takes(a) && Takes(b)
  {
    !Snapshot.TrackedAgree(a.report.inventory.value, b.report.inventory.value)
  }

  ghost predicate Regressed(a: Input, b: Input) {
    Regression.Worsened(a.report.score, b.report.score, a.report.findings, b.report.findings, 0)
  }

  lemma DriftsAreLinks(ins: seq<Input>, o: nat, n: nat)
    ensures HasDrift(Run(ins), o, n) <==> exists d :: Link(o, n, d) in Links(Scans(ins), DriftBetween)
  {
    var log := Run(ins);
    RunKeepsInv(ins);
    if HasDrift(log, o, n) {
      var e :| e in log.drifts && e.oldScanID == o && e.newScanID == n;
      MapMembers(log.drifts, DriftLink, Link(o, n, e.diff));
      assert DriftLink(e) == Link(o, n, e.diff);
    }
    if d :| Link(o, n, d) in Links(Scans(ins), DriftBetween) {
      MapMembers(log.drifts, DriftLink, Link(o, n, d));
    }
  }

  lemma RegressionsAreLinks(ins: seq<Input>, o: nat, n: nat)
    ensures HasRegression(Run(ins), o, n) <==> exists r :: Link(o, n, r) in Links(Scans(ins), RegressionBetween)
  {
    hide RegressionBetween;
    var log := Run(ins);
    RunKeepsInv(ins);
    if HasRegression(log, o, n) {
      var e :| e in log.regressions && e.oldScanID == o && e.newScanID == n;
      MapMembers(log.regressions, RegressionLink, Link(o, n, e.detail));
      assert RegressionLink(e) == Link(o, n, e.detail);
    }
    if r :| Link(o, n, r) in Links(Scans(ins), RegressionBetween) {
      MapMembers(log.regressions, RegressionLink, Link(o, n, r));
    }
  }

  lemma LinkExists<T(!new)>(acc: seq<Input>, what: (Input, Input) -> Option<T>, o: nat, n: nat)
    requires AllTaken(acc)
    ensures (exists w :: Link(o, n, w) in Links(acc, what))
       <==> Compared(acc, o, n) && what(acc[o - 1], acc[n - 1]).Some?
  {
    hide Links;
    if w :| Link(o, n, w) in Links(acc, what) {
      LinksMeaning(acc, what, Link(o, n, w));
    }
    if Compared(acc, o, n) && what(acc[o - 1], acc[n - 1]).Some? {
      LinksMeaning(acc, what, Link(o, n, what(acc[o - 1], acc[n - 1]).value));
    }
  }

  lemma DriftedMeaning(a: Input, b: Input)
    requires Takes(a) && Takes(b)
    ensures DriftBetween(a, b).Some? <==> Drifted(a, b)
  {
    hide Snapshot.DiffOf, Snapshot.TrackedAgree;
    Snapshot.EmptyExactly(a.report.inventory.value, b.report.inventory.value);
  }

  /** Drift events link exactly the compared scans that differ in something
      drift detection tracks. */
  lemma DriftHistory(ins: seq<Input>, o: nat, n: nat)
    ensures HasDrift(Run(ins), o, n)
       <==> Compared(Scans(ins), o, n) && Drifted(Scans(ins)[o - 1], Scans(ins)[n - 1])
  {
    hide DriftBetween, Drifted;
    DriftsAreLinks(ins, o, n);
    LinkExists(Scans(ins), DriftBetween, o, n);
    if Compared(Scans(ins), o, n) { DriftedMeaning(Scans(ins)[o - 1], Scans(ins)[n - 1]); }
  }

  lemma RegressedMeaning(a: Input, b: Input)
    requires Takes(a) && Takes(b)
    ensures RegressionBetween(a, b).Some? <==> Regressed(a, b)
  {
    hide Regression.Worsened;
  }

  /** Regression events link exactly the compared scans between which the posture
      worsened. */
  lemma RegressionHistory(ins: seq<Input>, o: nat, n: nat)
    ensures HasRegression(Run(ins), o, n)
       <==> Compared(Scans(ins), o, n) && Regressed(Scans(ins)[o - 1], Scans(ins)[n - 1])
  {
    hide RegressionBetween, Regressed;
    RegressionsAreLinks(ins, o, n);
    LinkExists(Scans(ins), RegressionBetween, o, n);
    if Compared(Scans(ins), o, n) { RegressedMeaning(Scans(ins)[o - 1], Scans(ins)[n - 1]); }
  }

  lemma ComparedIsAdjacent(acc: seq<Input>, o: nat, n: nat)
    requires AllTaken(acc) && o >= 1 && n >= 1 && (n <= |acc| ==> TimesOrdered(acc, n - 1))
    ensures Compared(acc, o, n) <==> Adjacent(acc, o - 1, n - 1)
  {
    if n <= |acc| { NewestIsPredecessor(acc, o - 1, n - 1); }
  }

  /** When the scan times of scan n's own HSM have not gone back, an event ends at
      scan n exactly if it differs from, or is worse than, the scan of the HSM
      just before it; the first scan has no event. */
  lemma EventsLinkSuccessiveScans(ins: seq<Input>, o: nat, n: nat)
    requires o >= 1 && n >= 1 && (n <= |Scans(ins)| ==> TimesOrdered(Scans(ins), n - 1))
    ensures HasDrift(Run(ins), o, n)
       <==> Adjacent(Scans(ins), o - 1, n - 1) && Drifted(Scans(ins)[o - 1], Scans(ins)[n - 1])
    ensures HasRegression(Run(ins), o, n)
       <==> Adjacent(Scans(ins), o - 1, n - 1) && Regressed(Scans(ins)[o - 1], Scans(ins)[n - 1])
  {
    hide Drifted, Regressed, HasDrift, HasRegression, Compared;
    DriftHistory(ins, o, n);
    RegressionHistory(ins, o, n);
    ComparedIsAdjacent(Scans(ins), o, n);
  }

  /** Each scan gets at most one event of each kind, recorded in scan order. */
  lemma OneEventPerScan(ins: seq<Input>, i: nat, j: nat)
    ensures i < j < |Run(ins).drifts| ==> Run(ins).drifts[i].newScanID < Run(ins).drifts[j].newScanID
    ensures i < j < |Run(ins).regressions| ==> Run(ins).regressions[i].newScanID < Run(ins).regressions[j].newScanID
  {
    hide DriftBetween, RegressionBetween;
    RunKeepsInv(ins);
    if i < j < |Run(ins).drifts| {
      LinksAscend(Scans(ins), DriftBetween, i, j);
      assert Map(Run(ins).drifts, DriftLink)[i] == DriftLink(Run(ins).drifts[i]);
    }
    if i < j < |Run(ins).regressions| {
      LinksAscend(Scans(ins), RegressionBetween, i, j);
      assert Map(Run(ins).regressions, RegressionLink)[i] == RegressionLink(Run(ins).regressions[i]);
    }
  }

  // ---- a clock that goes back ----

  /** A scan of one token that offers the given mechanisms. */
  function ScanAt(time: int, mechanisms: seq<string>): Input {
    Input(Report(100, [], Some(I.Inventory(time, Some(I.TokenInfo("hsm", "4711", "", "", "", "")), mechanisms, []))), "agent", time)
  }

  lemma {:induction false} AllScansTaken(ins: seq<Input>)
    requires AllTaken(ins)
    ensures Scans(ins) == ins
  {
    if ins != [] {
      var init, x := ins[..|ins| - 1], ins[|ins| - 1];
      assert ins == init + [x];
      AllScansTaken(init);
      FilterSnoc(init, x, Takes);
    }
  }

  lemma MechanismsDiffer(t: int, u: int, m: string)
    ensures Drifted(ScanAt(t, []), ScanAt(u, [m])) && !Drifted(ScanAt(t, [m]), ScanAt(u, [m]))
  {
    assert m in Snapshot.Names([m]) && m !in Snapshot.Names([]);
  }

  /** Three scans, the second with an earlier time than the first: the third one
      differs from it, but is compared with the first, and no drift event ends
      there. */
  lemma LateScanHidesDrift()
    ensures var ins := [ScanAt(5, ["CKM_AES_GCM"]), ScanAt(3, []), ScanAt(6, ["CKM_AES_GCM"])];
            && Adjacent(Scans(ins), 1, 2) && Drifted(Scans(ins)[1], Scans(ins)[2])
            && forall o :: !HasDrift(Run(ins), o, 3)
  {
    hide Run, HasDrift, Drifted, Scans, NewestLike;
    var ins := [ScanAt(5, ["CKM_AES_GCM"]), ScanAt(3, []), ScanAt(6, ["CKM_AES_GCM"])];
    AllScansTaken(ins);
    MechanismsDiffer(3, 6, "CKM_AES_GCM");
    MechanismsDiffer(5, 6, "CKM_AES_GCM");
    forall o ensures !HasDrift(Run(ins), o, 3) {
      DriftHistory(ins, o, 3);
      assert ins[..2][0] == ins[0] && ins[..2][1] == ins[1];
      assert SameHsm(ins[..2][0], ins[2]);
      assert Compared(ins, o, 3) ==> o == 1;
    }
  }
}
