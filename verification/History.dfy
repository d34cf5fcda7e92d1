/** The event history of the server (internal/server/history.go): every scan is
    stored, compared with the stored scan before it, and the comparison turned
    into drift and regression events. */
module History {
  import opened Seqs
  import I = Inventory
  import P = Policy
  import C = Certmon
  import N = Notify
  import opened Store
  import Snapshot
  import Regression

  // ---- one scan ----

  /** A report without inventory, token or serial number is not persisted. */
  predicate Accepted(rep: Report) {
    rep.inventory.Some? && rep.inventory.value.token.Some? && rep.inventory.value.token.value.serial != ""
  }

  function IsSeverity(s: P.Severity): P.Finding -> bool { (f: P.Finding) => f.severity == s }

  function NewRow(rep: Report, hsmID: nat, id: nat): ScanRecord
    requires Accepted(rep)
  {
    ScanRecord(id, hsmID, rep.inventory.value.scannedAt, rep.score,
               CountIf(rep.findings, IsSeverity(P.Critical)), CountIf(rep.findings, IsSeverity(P.High)),
               CountIf(rep.findings, IsSeverity(P.Medium)), CountIf(rep.findings, IsSeverity(P.Low)), rep)
  }

  /** The tables persistScan appends to. */
  datatype Log = Log(hsms: seq<HSM>, scans: seq<ScanRecord>, drifts: seq<DriftEvent>, regressions: seq<RegressionEvent>)

  function LogOf(db: Db): Log { Log(db.hsms, db.scans, db.drifts, db.regressions) }

  /** The drift event of a new scan: none without a previous scan or a change. */
  ghost function DriftEvents(prev: Option<ScanRecord>, newID: nat, hsmID: nat, rep: Report, next: nat): seq<DriftEvent> {
    if prev.None? || prev.value.report.inventory.None? || rep.inventory.None? then []
    else
      var d := Snapshot.DiffOf(prev.value.report.inventory.value, rep.inventory.value);
      if d.Empty() then [] else [DriftEvent(next, hsmID, prev.value.id, newID, d.Count(), d)]
  }

  ghost function RegressionEvents(prev: Option<ScanRecord>, newID: nat, hsmID: nat, rep: Report, next: nat)
    : seq<RegressionEvent>
  {
    if prev.None? || prev.value.report.inventory.None? then []
    else
      var r := Regression.Detected(prev.value.score, rep.score, prev.value.report.findings, rep.findings, 0);
      if r.None? then [] else [RegressionEvent(next, hsmID, prev.value.id, newID, r.value.scoreDelta, r.value)]
  }

  function PrevScan(scans: seq<ScanRecord>, hsmID: nat): Option<ScanRecord> {
    match LatestIndex(scans, hsmID)
    case None => None
    case Some(k) => Some(scans[k])
  }

  /** A scan row, and the events its comparison with the latest one yields. */
  ghost function Appended(log: Log, hsmID: nat, rep: Report): Log
    requires Accepted(rep)
  {
    var prev, newID := PrevScan(log.scans, hsmID), |log.scans| + 1;
    Log(log.hsms, log.scans + [NewRow(rep, hsmID, newID)],
        log.drifts + DriftEvents(prev, newID, hsmID, rep, |log.drifts| + 1),
        log.regressions + RegressionEvents(prev, newID, hsmID, rep, |log.regressions| + 1))
  }

  /** What persisting one report does to the log. */
  ghost function Persisted(log: Log, rep: Report, source: string, now: int): Log {
    if !Accepted(rep) then log
    else
      var token := rep.inventory.value.token.value;
      Appended(log.(hsms := Upserted(log.hsms, token.serial, source, token, now)),
               HsmIndex(log.hsms, token.serial, source) + 1, rep)
  }

  function NonOK(e: C.Entry): bool { !e.status.OK? }

  function AsCertInfo(e: C.Entry): N.CertInfo { N.CertInfo(e.name, e.subject, e.daysLeft, e.notAfter) }

  /** The certificates a scan asks the notifier about. */
  function CertsOf(inv: I.Inventory, now: int, warnDays: int): seq<N.CertInfo> {
    Map(Filter(C.Entries(inv, now, warnDays), NonOK), AsCertInfo)
  }

  /** The ledger and the mails after a scan's reminders. */
  function Reminded(s: N.State, enabled: bool, hsmID: nat, inv: I.Inventory, now: int, ts: seq<int>): N.State {
    if enabled then N.Run(s, N.Notices(hsmID, CertsOf(inv, now, N.MaxDays(ts)), ts)) else s
  }

  // ---- the program ----

  lemma NoNotices(s: N.State, hsmID: nat, ts: seq<int>)
    ensures N.Run(s, N.Notices(hsmID, [], ts)) == s
  {
  }

  method CountSeverities(fs: seq<P.Finding>) returns (critical: nat, high: nat, medium: nat, low: nat)
    ensures critical == CountIf(fs, IsSeverity(P.Critical)) && high == CountIf(fs, IsSeverity(P.High))
    ensures medium == CountIf(fs, IsSeverity(P.Medium)) && low == CountIf(fs, IsSeverity(P.Low))
  {
    critical, high, medium, low := 0, 0, 0, 0;
    for i := 0 to |fs|
      invariant critical == CountIf(fs[..i], IsSeverity(P.Critical)) && high == CountIf(fs[..i], IsSeverity(P.High))
      invariant medium == CountIf(fs[..i], IsSeverity(P.Medium)) && low == CountIf(fs[..i], IsSeverity(P.Low))
    {
      assert fs[..i + 1] == fs[..i] + [fs[i]];
      CountIfAppend(fs[..i], fs[i], IsSeverity(P.Critical));
      CountIfAppend(fs[..i], fs[i], IsSeverity(P.High));
      CountIfAppend(fs[..i], fs[i], IsSeverity(P.Medium));
      CountIfAppend(fs[..i], fs[i], IsSeverity(P.Low));
      match fs[i].severity
      case Critical => critical := critical + 1;
      case High => high := high + 1;
      case Medium => medium := medium + 1;
      case Low => low := low + 1;
      case _ =>
    }
    assert fs[..|fs|] == fs;
  }

  method WarnedCerts(inv: I.Inventory, now: int, warnDays: int) returns (certs: seq<N.CertInfo>)
    ensures certs == CertsOf(inv, now, warnDays)
  {
    var entries := C.Classify(inv, now, warnDays);
    certs := [];
    for i := 0 to |entries|
      invariant certs == Map(Filter(entries[..i], NonOK), AsCertInfo)
    {
      assert entries[..i + 1] == entries[..i] + [entries[i]];
      FilterSnoc(entries[..i], entries[i], NonOK);
      if !entries[i].status.OK? {
        MapSnoc(Filter(entries[..i], NonOK), entries[i], AsCertInfo);
        certs := certs + [AsCertInfo(entries[i])];
      }
    }
    assert entries[..|entries|] == entries;
  }

  class Server {
    const store: Store
    const notifier: N.Notifier

    constructor (store: Store, notifier: N.Notifier)
      ensures this.store == store && this.notifier == notifier
    {
      this.store, this.notifier := store, notifier;
    }

    method NotifyCertExpiry(hsmID: nat, inv: I.Inventory, now: int, ghost ts: seq<int>)
      requires multiset(ts) == multiset(notifier.WarnDays())
      modifies notifier`outbox, notifier`certWarnDays, store`notified
      ensures N.State(store.notified, notifier.outbox)
           == Reminded(N.State(old(store.notified), old(notifier.outbox)), notifier.enabled, hsmID, inv, now, ts)
      ensures multiset(ts) == multiset(notifier.WarnDays())
    {
      N.MaxDaysPermutes(ts, notifier.WarnDays());
      var warnDays := N.MaxWarnDays(notifier.WarnDays());
      var certs := WarnedCerts(inv, now, warnDays);
      if |certs| > 0 {
        notifier.NotifyCertExpiry(store, hsmID, certs, ts);
      } else {
        NoNotices(N.State(store.notified, notifier.outbox), hsmID, ts);
      }
    }

    method CheckRegression(hsmID: nat, prev: ScanRecord, newID: nat, rep: Report)
      requires prev.report.inventory.Some?
      modifies store`regressions
      ensures store.regressions
           == old(store.regressions) + RegressionEvents(Some(prev), newID, hsmID, rep, |old(store.regressions)| + 1)
    {
      var reg := Regression.Detect(prev.score, rep.score, prev.report.findings, rep.findings, 0);
      if reg.None? { return; }
      store.InsertRegressionEvent(RegressionEvent(0, hsmID, prev.id, newID, reg.value.scoreDelta, reg.value));
    }

    method CheckDrift(hsmID: nat, prev: ScanRecord, newID: nat, rep: Report)
      requires prev.report.inventory.Some? && rep.inventory.Some?
      modifies store`drifts
      ensures store.drifts == old(store.drifts) + DriftEvents(Some(prev), newID, hsmID, rep, |old(store.drifts)| + 1)
    {
      var d := Snapshot.Compare(prev.report.inventory.value, rep.inventory.value);
      if d.Empty() { return; }
      store.InsertDriftEvent(DriftEvent(0, hsmID, prev.id, newID, d.Count(), d));
    }

    /** Regression first, then drift, both against the scan that was latest. */
    method CompareWith(hsmID: nat, prev: Option<ScanRecord>, newID: nat, rep: Report)
      requires rep.inventory.Some?
      modifies store`drifts, store`regressions
      ensures store.drifts == old(store.drifts) + DriftEvents(prev, newID, hsmID, rep, |old(store.drifts)| + 1)
      ensures store.regressions
           == old(store.regressions) + RegressionEvents(prev, newID, hsmID, rep, |old(store.regressions)| + 1)
    {
      if prev.None? || prev.value.report.inventory.None? { return; }
      CheckRegression(hsmID, prev.value, newID, rep);
      CheckDrift(hsmID, prev.value, newID, rep);
    }

    method Record(hsmID: nat, rep: Report) returns (newID: nat)
      requires Accepted(rep)
      modifies store`scans
      ensures newID == |old(store.scans)| + 1 && store.scans == old(store.scans) + [NewRow(rep, hsmID, newID)]
    {
      var critical, high, medium, low := CountSeverities(rep.findings);
      newID := store.InsertScan(
        ScanRecord(0, hsmID, rep.inventory.value.scannedAt, rep.score, critical, high, medium, low, rep));
    }

    /** Stores the scan, then compares it with the one that was the latest. */
    method StoreAndCompare(hsmID: nat, rep: Report)
      requires Accepted(rep)
      modifies store`scans, store`drifts, store`regressions
      ensures LogOf(store.View()) == Appended(old(LogOf(store.View())), hsmID, rep)
    {
      hide DriftEvents, RegressionEvents;
      ghost var log := LogOf(store.View());
      var prev := store.LatestScan(hsmID);
      assert prev == PrevScan(log.scans, hsmID);
      var newID := Record(hsmID, rep);
      assert newID == |log.scans| + 1 && store.drifts == log.drifts && store.regressions == log.regressions;
      CompareWith(hsmID, prev, newID, rep);
    }

    /** Upsert the HSM, remind about certificates, store the scan, compare. The
        notifier is configured with the thresholds ts, in some order. */
    method PersistScan(rep: Report, source: string, now: int, ghost ts: seq<int>)
      requires HsmRows(store.hsms) && multiset(ts) == multiset(notifier.WarnDays())
      modifies store, notifier`outbox, notifier`certWarnDays
      ensures LogOf(store.View()) == Persisted(LogOf(old(store.View())), rep, source, now)
      ensures var s := N.State(old(store.notified), old(notifier.outbox));
              N.State(store.notified, notifier.outbox)
              == if !Accepted(rep) then s
                 else Reminded(s, notifier.enabled,
                               HsmIndex(old(store.hsms), rep.inventory.value.token.value.serial, source) + 1,
                               rep.inventory.value, now, ts)
      ensures HsmRows(store.hsms) && multiset(ts) == multiset(notifier.WarnDays())
    {
      hide Appended, Reminded;
      if rep.inventory.None? || rep.inventory.value.token.None? || rep.inventory.value.token.value.serial == "" { return; }
      ghost var log := LogOf(store.View());
      var token := rep.inventory.value.token.value;
      var hsmID := store.UpsertHSM(token.serial, source, token, now);
      ghost var upserted := log.(hsms := Upserted(log.hsms, token.serial, source, token, now));
      NotifyCertExpiry(hsmID, rep.inventory.value, now, ts);
      assert LogOf(store.View()) == upserted;
      StoreAndCompare(hsmID, rep);
      assert LogOf(store.View()) == Appended(upserted, hsmID, rep);
    }
  }
}
