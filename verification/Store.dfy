/** The persistence layer (internal/store/sqlite.go) as tables: sequences in
    insertion order whose row IDs are assigned 1, 2, 3, ... and never deleted,
    and a set of notification rows. */
module Store {
  import opened Seqs
  import opened Inventory
  import P = Policy
  import Snapshot
  import Regression

  /** What the store keeps of a report (internal/report/report.go). */
  datatype Report = Report(score: int, findings: seq<P.Finding>, inventory: Option<Inventory>)

  datatype HSM = HSM(id: nat, serial: string, source: string, token: TokenInfo, firstSeen: int, lastSeen: int)

  datatype ScanRecord = ScanRecord(
    id: nat, hsmID: nat, takenAt: int, score: int, critical: nat, high: nat, medium: nat, low: nat, report: Report)

  datatype DriftEvent = DriftEvent(id: nat, hsmID: nat, oldScanID: nat, newScanID: nat, changes: nat, diff: Snapshot.Diff)

  datatype RegressionEvent = RegressionEvent(
    id: nat, hsmID: nat, oldScanID: nat, newScanID: nat, scoreDelta: int, detail: Regression.Report)

  datatype Row = Row(hsmID: nat, kind: string, ref: string, threshold: int)

  datatype Db = Db(
    hsms: seq<HSM>, scans: seq<ScanRecord>, drifts: seq<DriftEvent>, regressions: seq<RegressionEvent>, notified: set<Row>)

  /** UNIQUE (serial, source), and row IDs counting from 1. */
  predicate HsmRows(hsms: seq<HSM>) {
    && (forall i :: 0 <= i < |hsms| ==> hsms[i].id == i + 1)
    && (forall i, j :: 0 <= i < j < |hsms| ==> !(hsms[i].serial == hsms[j].serial && hsms[i].source == hsms[j].source))
  }

  function HsmIndex(hsms: seq<HSM>, serial: string, source: string): (n: nat)
    ensures n <= |hsms|
    ensures n < |hsms| ==> hsms[n].serial == serial && hsms[n].source == source
    ensures forall i :: 0 <= i < n ==> !(hsms[i].serial == serial && hsms[i].source == source)
  {
    if hsms == [] then 0
    else
      var m := HsmIndex(hsms[..|hsms| - 1], serial, source);
      if m < |hsms| - 1 then m
      else if hsms[|hsms| - 1].serial == serial && hsms[|hsms| - 1].source == source then |hsms| - 1
      else |hsms|
  }

  /** INSERT ... ON CONFLICT (serial, source) DO UPDATE: an existing row keeps
      its ID and first sighting. */
  function Upserted(hsms: seq<HSM>, serial: string, source: string, token: TokenInfo, now: int): seq<HSM> {
    var n := HsmIndex(hsms, serial, source);
    if n < |hsms| then hsms[n := hsms[n].(token := token, lastSeen := now)]
    else hsms + [HSM(n + 1, serial, source, token, now, now)]
  }

  /** The scan an `ORDER BY taken_at DESC, id DESC LIMIT 1` picks for an HSM. */
  function LatestIndex(scans: seq<ScanRecord>, hsmID: nat): (r: Option<nat>)
    ensures r.Some? ==> r.value < |scans| && scans[r.value].hsmID == hsmID
  {
    if scans == [] then None
    else
      var n := |scans| - 1;
      var earlier := LatestIndex(scans[..n], hsmID);
      if scans[n].hsmID == hsmID && (earlier.None? || scans[earlier.value].takenAt <= scans[n].takenAt)
      then Some(n) else earlier
  }

  /** Scan i is the newest of its HSM, later rows winning ties. */
  predicate NewestOf(scans: seq<ScanRecord>, hsmID: nat, i: nat) {
    && i < |scans| && scans[i].hsmID == hsmID
    && (forall j :: 0 <= j < |scans| && scans[j].hsmID == hsmID ==>
          scans[j].takenAt <= scans[i].takenAt && (scans[j].takenAt == scans[i].takenAt ==> j <= i))
  }

  lemma {:induction false} LatestIsNewest(scans: seq<ScanRecord>, hsmID: nat)
    ensures LatestIndex(scans, hsmID).Some? ==> NewestOf(scans, hsmID, LatestIndex(scans, hsmID).value)
    ensures LatestIndex(scans, hsmID).None? ==> forall j :: 0 <= j < |scans| ==> scans[j].hsmID != hsmID
  {
    if scans != [] {
      var init := scans[..|scans| - 1];
      LatestIsNewest(init, hsmID);
      assert forall j :: 0 <= j < |init| ==> init[j] == scans[j];
    }
  }

  class Store {
    var hsms: seq<HSM>
    var scans: seq<ScanRecord>
    var drifts: seq<DriftEvent>
    var regressions: seq<RegressionEvent>
    var notified: set<Row>

    function View(): Db
      reads this
    {
      Db(hsms, scans, drifts, regressions, notified)
    }

    constructor ()
      ensures View() == Db([], [], [], [], {})
    {
      hsms, scans, drifts, regressions, notified := [], [], [], [], {};
    }

    method UpsertHSM(serial: string, source: string, token: TokenInfo, now: int) returns (id: nat)
      requires HsmRows(hsms)
      modifies this`hsms
      ensures HsmRows(hsms)
      ensures hsms == Upserted(old(hsms), serial, source, token, now)
      ensures id == HsmIndex(old(hsms), serial, source) + 1
      ensures id <= |hsms| && hsms[id - 1].serial == serial && hsms[id - 1].source == source && hsms[id - 1].token == token
    {
      var n := 0;
      while n < |hsms| && !(hsms[n].serial == serial && hsms[n].source == source)
        invariant n <= |hsms|
        invariant forall i :: 0 <= i < n ==> !(hsms[i].serial == serial && hsms[i].source == source)
      {
        n := n + 1;
      }
      if n < |hsms| {
        hsms := hsms[n := hsms[n].(token := token, lastSeen := now)];
      } else {
        hsms := hsms + [HSM(n + 1, serial, source, token, now, now)];
      }
      id := hsms[n].id;
    }

    method InsertScan(rec: ScanRecord) returns (id: nat)
      modifies this`scans
      ensures id == |old(scans)| + 1 && scans == old(scans) + [rec.(id := id)]
    {
      id := |scans| + 1;
      scans := scans + [rec.(id := id)];
    }

    method LatestScan(hsmID: nat) returns (r: Option<ScanRecord>)
      ensures r == (match LatestIndex(scans, hsmID) case None => None case Some(k) => Some(scans[k]))
    {
      r := None;
      ghost var at: Option<nat> := None;
      for i := 0 to |scans|
        invariant at == LatestIndex(scans[..i], hsmID) && (at.Some? <==> r.Some?)
        invariant at.Some? ==> at.value < i && r.value == scans[at.value]
      {
        assert scans[..i + 1][..i] == scans[..i];
        if scans[i].hsmID == hsmID && (r.None? || r.value.takenAt <= scans[i].takenAt) {
          r, at := Some(scans[i]), Some(i);
        }
      }
      assert scans[..|scans|] == scans;
    }

    method InsertDriftEvent(e: DriftEvent)
      modifies this`drifts
      ensures drifts == old(drifts) + [e.(id := |old(drifts)| + 1)]
    {
      drifts := drifts + [e.(id := |drifts| + 1)];
    }

    method InsertRegressionEvent(e: RegressionEvent)
      modifies this`regressions
      ensures regressions == old(regressions) + [e.(id := |old(regressions)| + 1)]
    {
      regressions := regressions + [e.(id := |regressions| + 1)];
    }

    /** INSERT ... ON CONFLICT DO NOTHING: fresh exactly the first time. */
    method MarkNotified(row: Row) returns (isNew: bool)
      modifies this`notified
      ensures isNew <==> row !in old(notified)
      ensures notified == old(notified) + {row}
    {
      isNew := row !in notified;
      notified := notified + {row};
    }
  }
}
