/** Certificate-expiry mail (internal/notify/notifier.go): a certificate falls
    into the bucket of the smallest threshold it has crossed, and the store's
    ledger lets each (HSM, ref, threshold) cause one mail. A ref is a label or,
    without one, a subject: certificates may share it. */
module Notify {
  import opened Seqs
  import opened Order
  import opened Store
  import C = Certmon

  const KIND := "cert-expiry"

  const DEFAULT_WARN_DAYS: seq<int> := [30, 14, 1]

  datatype CertInfo = CertInfo(name: string, subject: string, daysLeft: int, notAfter: int)

  /** The ledger's name for a certificate: its label, else its subject. Two
      certificates of an HSM may have the same. */
  function RefOf(c: CertInfo): string { if c.name == "" then c.subject else c.name }

  // ---- buckets ----

  /** b is the threshold a certificate with so many days left has crossed: the
      smallest one not below the days left, or the smallest one once expired. */
  ghost predicate IsBucket(days: int, ts: seq<int>, b: int) {
    && b in ts
    && (days >= 0 ==> days <= b)
    && (forall t :: t in ts && (days < 0 || days <= t) ==> b <= t)
  }

  /** The bucket as a function of the thresholds, in whatever order. */
  function Bucket(days: int, ts: seq<int>): (b: Option<int>)
    ensures b.Some? ==> IsBucket(days, ts, b.value)
    ensures b.None? ==> ts == [] || (days >= 0 && forall t :: t in ts ==> t < days)
  {
    if ts == [] then None
    else
      var last := ts[|ts| - 1];
      assert ts == ts[..|ts| - 1] + [last];
      var b := Bucket(days, ts[..|ts| - 1]);
      if 0 <= days && last < days then b
      else if b.Some? && b.value <= last then b
      else Some(last)
  }

  lemma BucketExactly(days: int, ts: seq<int>, b: int)
    ensures Bucket(days, ts) == Some(b) <==> IsBucket(days, ts, b)
  {
  }

  /** Fewer days left never mean a wider bucket: reminders only tighten. */
  lemma BucketTightens(days: int, later: int, ts: seq<int>)
    requires later <= days && Bucket(days, ts).Some?
    ensures Bucket(later, ts).Some? && Bucket(later, ts).value <= Bucket(days, ts).value
  {
    assert Bucket(days, ts).value in ts;
  }

  predicate Descending(ts: seq<int>) { forall i, j :: 0 <= i < j < |ts| ==> ts[i] >= ts[j] }

  predicate IntGe(a: int, b: int) { a >= b }

  lemma BucketSnoc(days: int, ts: seq<int>, i: nat)
    requires Descending(ts) && i < |ts| && days >= 0
    ensures Bucket(days, ts[..i + 1]) == if days <= ts[i] then Some(ts[i]) else Bucket(days, ts[..i])
  {
    assert ts[..i + 1][..i] == ts[..i];
    var b := Bucket(days, ts[..i]);
    if b.Some? { assert b.value in ts[..i]; }
  }

  /** The loop over the thresholds, sorted high to low. */
  method CrossedThreshold(daysLeft: int, ts: seq<int>) returns (r: Option<int>)
    requires Descending(ts)
    ensures r == Bucket(daysLeft, ts)
  {
    if |ts| == 0 { return None; }
    if daysLeft < 0 {
      assert IsBucket(daysLeft, ts, ts[|ts| - 1]);
      return Some(ts[|ts| - 1]);
    }
    var bucket, found := 0, false;
    for i := 0 to |ts|
      invariant Bucket(daysLeft, ts[..i]) == if found then Some(bucket) else None
    {
      hide Bucket;
      BucketSnoc(daysLeft, ts, i);
      if daysLeft <= ts[i] { bucket, found := ts[i], true; }
    }
    assert ts[..|ts|] == ts;
    if found { return Some(bucket); }
    return None;
  }

  /** The widest threshold, never below zero. */
  method MaxWarnDays(ts: seq<int>) returns (max: int)
    ensures max == MaxDays(ts)
  {
    max := 0;
    for i := 0 to |ts|
      invariant max == MaxDays(ts[..i])
    {
      assert ts[..i + 1][..i] == ts[..i];
      if ts[i] > max { max := ts[i]; }
    }
    assert ts[..|ts|] == ts;
  }

  function MaxDays(ts: seq<int>): (m: int)
    ensures m >= 0 && (m == 0 || m in ts) && forall t :: t in ts ==> t <= m
  {
    if ts == [] then 0
    else
      var last := ts[|ts| - 1];
      assert ts == ts[..|ts| - 1] + [last];
      var m := MaxDays(ts[..|ts| - 1]);
      if last > m then last else m
  }

  lemma MaxDaysPermutes(a: seq<int>, b: seq<int>)
    requires multiset(a) == multiset(b)
    ensures MaxDays(a) == MaxDays(b)
  {
    PermutationLength(a, b);
  }

  ghost predicate SomeNonNegative(ts: seq<int>) { exists t :: t in ts && t >= 0 }

  lemma DaysWithinWindow(left: int, days: int)
    requires days >= 0 && left <= days * C.DAY
    ensures C.TruncDiv(left, C.DAY) <= days
  {
    if left >= 0 {
      assert left / C.DAY <= (days * C.DAY) / C.DAY == days;
    }
  }

  /** Every certificate the monitor reports as expired or expiring within the
      widest threshold gets a bucket, exactly when some threshold is not
      negative; with negative ones only, a certificate that expired less than a
      day ago slips through. */
  lemma ReportedCertificatesGetBucket(ts: seq<int>)
    requires ts != []
    ensures SomeNonNegative(ts)
       <==> forall left: int :: C.StatusOf(left, MaxDays(ts)) != C.OK ==> Bucket(C.TruncDiv(left, C.DAY), ts).Some?
  {
    if SomeNonNegative(ts) {
      var t :| t in ts && t >= 0;
      assert MaxDays(ts) in ts;
      forall left: int | C.StatusOf(left, MaxDays(ts)) != C.OK ensures Bucket(C.TruncDiv(left, C.DAY), ts).Some? {
        assert left <= MaxDays(ts) * C.DAY;
        DaysWithinWindow(left, MaxDays(ts));
      }
    } else {
      assert C.StatusOf(0, MaxDays(ts)) != C.OK && C.TruncDiv(0, C.DAY) == 0;
      assert Bucket(0, ts).None?;
    }
  }

  /** A single negative threshold, a certificate that has just expired: it is
      shown as expired and gets no bucket. */
  lemma NegativeThresholdsMissOne()
    ensures C.StatusOf(-1, MaxDays([-1])) == C.Expired && Bucket(C.TruncDiv(-1, C.DAY), [-1]) == None
  {
    assert [-1][..0] == [];
    assert MaxDays([-1]) == 0;
    assert C.TruncDiv(-1, C.DAY) == 0;
  }

  // ---- the ledger over whole runs ----

  /** How the ledger answers: normally; with an error and nothing recorded; or
      with an error after recording. */
  datatype Fault = Fine | Lost | Recorded

  datatype Mail = Mail(row: Row, cert: CertInfo)

  /** One certificate of one NotifyCertExpiry call; thresholds may differ
      between calls, as the configuration may. */
  datatype Notice = Notice(hsmID: nat, cert: CertInfo, thresholds: seq<int>, fault: Fault)

  datatype State = State(rows: set<Row>, mails: seq<Mail>)

  function RowFor(n: Notice): Option<Row> {
    match Bucket(n.cert.daysLeft, n.thresholds)
    case None => None
    case Some(b) => Some(Row(n.hsmID, KIND, RefOf(n.cert), b))
  }

  function Step(s: State, n: Notice): State {
    match RowFor(n)
    case None => s
    case Some(row) =>
      if n.fault.Lost? then s
      else if n.fault.Recorded? || row in s.rows then s.(rows := s.rows + {row})
      else State(s.rows + {row}, s.mails + [Mail(row, n.cert)])
  }

  function Run(s: State, ns: seq<Notice>): State {
    if ns == [] then s else Step(Run(s, ns[..|ns| - 1]), ns[|ns| - 1])
  }

  lemma {:induction false} RunAppend(s: State, a: seq<Notice>, b: seq<Notice>)
    ensures Run(s, a + b) == Run(Run(s, a), b)
  {
    if b == [] {
      assert a + b == a;
    } else {
      RunAppend(s, a, b[..|b| - 1]);
      assert (a + b)[..|a + b| - 1] == a + b[..|b| - 1];
    }
  }

  lemma RunStep(s: State, ns: seq<Notice>, i: nat)
    requires i < |ns|
    ensures Run(s, ns[..i + 1]) == Step(Run(s, ns[..i]), ns[i])
  {
    assert ns[..i + 1][..i] == ns[..i];
  }

  lemma NothingRun(s: State)
    ensures Run(s, []) == s
  {
  }

  function About(row: Row): Mail -> bool { (m: Mail) => m.row == row }

  lemma StepCounts(s: State, n: Notice, row: Row)
    requires CountIf(s.mails, About(row)) <= 1 && (CountIf(s.mails, About(row)) == 1 ==> row in s.rows)
    ensures CountIf(Step(s, n).mails, About(row)) <= 1
    ensures CountIf(Step(s, n).mails, About(row)) == 1 ==> row in Step(s, n).rows
    ensures row in s.rows ==> row in Step(s, n).rows && CountIf(Step(s, n).mails, About(row)) == CountIf(s.mails, About(row))
  {
    if RowFor(n).Some? {
      CountIfAppend(s.mails, Mail(RowFor(n).value, n.cert), About(row));
    }
  }

  /** Over any run, with any ledger faults and any changes of thresholds, each
      (HSM, ref, threshold) causes at most one mail, and none at all if the
      ledger already knew it. */
  lemma {:induction false} AtMostOneMail(rows: set<Row>, ns: seq<Notice>, row: Row)
    ensures CountIf(Run(State(rows, []), ns).mails, About(row)) <= (if row in rows then 0 else 1)
    ensures CountIf(Run(State(rows, []), ns).mails, About(row)) == 1 ==> row in Run(State(rows, []), ns).rows
    ensures row in rows ==> row in Run(State(rows, []), ns).rows
  {
    if ns != [] {
      AtMostOneMail(rows, ns[..|ns| - 1], row);
      StepCounts(Run(State(rows, []), ns[..|ns| - 1]), ns[|ns| - 1], row);
    }
  }

  ghost predicate Mentions(ns: seq<Notice>, row: Row) {
    exists i :: 0 <= i < |ns| && RowFor(ns[i]) == Some(row)
  }

  lemma MentionsSnoc(ns: seq<Notice>, row: Row)
    requires ns != []
    ensures Mentions(ns, row) <==> Mentions(ns[..|ns| - 1], row) || RowFor(ns[|ns| - 1]) == Some(row)
  {
    var init := ns[..|ns| - 1];
    if Mentions(init, row) {
      var i :| 0 <= i < |init| && RowFor(init[i]) == Some(row);
      assert RowFor(ns[i]) == Some(row);
    }
    if Mentions(ns, row) {
      var i :| 0 <= i < |ns| && RowFor(ns[i]) == Some(row);
      assert i < |init| ==> RowFor(init[i]) == Some(row);
    }
  }

  lemma FineStepCounts(rows: set<Row>, s: State, n: Notice, row: Row)
    requires n.fault.Fine? && rows <= s.rows
    requires CountIf(s.mails, About(row)) == if row in s.rows && row !in rows then 1 else 0
    ensures rows <= Step(s, n).rows && (row in Step(s, n).rows <==> row in s.rows || RowFor(n) == Some(row))
    ensures CountIf(Step(s, n).mails, About(row)) == if row in Step(s, n).rows && row !in rows then 1 else 0
  {
    if RowFor(n).Some? {
      CountIfAppend(s.mails, Mail(RowFor(n).value, n.cert), About(row));
    }
  }

  /** Without faults the mail is sent exactly once as soon as a notice falls into
      the bucket, unless the ledger already knew it. */
  lemma {:induction false} ExactlyOneMail(rows: set<Row>, ns: seq<Notice>, row: Row)
    requires forall i :: 0 <= i < |ns| ==> ns[i].fault.Fine?
    ensures rows <= Run(State(rows, []), ns).rows
    ensures row in Run(State(rows, []), ns).rows <==> row in rows || Mentions(ns, row)
    ensures CountIf(Run(State(rows, []), ns).mails, About(row)) == if Mentions(ns, row) && row !in rows then 1 else 0
  {
    if ns != [] {
      var init, n := ns[..|ns| - 1], ns[|ns| - 1];
      ExactlyOneMail(rows, init, row);
      MentionsSnoc(ns, row);
      FineStepCounts(rows, Run(State(rows, []), init), n, row);
    }
  }

  function AboutRef(hsmID: nat, ref: string): Mail -> bool { (m: Mail) => m.row.hsmID == hsmID && m.row.ref == ref }

  function AboutThresholds(hsmID: nat, ref: string, ts: set<int>): Mail -> bool {
    (m: Mail) => m.row.hsmID == hsmID && m.row.ref == ref && m.row.threshold in ts
  }

  lemma {:induction false} MailsAreOurs(rows: set<Row>, ns: seq<Notice>)
    ensures forall m :: m in Run(State(rows, []), ns).mails ==>
              m.row.kind == KIND && exists i :: 0 <= i < |ns| && m.row.threshold in ns[i].thresholds
  {
    if ns != [] {
      var init := ns[..|ns| - 1];
      MailsAreOurs(rows, init);
      forall m | m in Run(State(rows, []), ns).mails
        ensures m.row.kind == KIND && exists i :: 0 <= i < |ns| && m.row.threshold in ns[i].thresholds
      {
        if m in Run(State(rows, []), init).mails {
          var i :| 0 <= i < |init| && m.row.threshold in init[i].thresholds;
          assert m.row.threshold in ns[i].thresholds;
        } else {
          assert m.row.threshold in ns[|ns| - 1].thresholds;
        }
      }
    }
  }

  lemma {:induction false} OneMailPerThreshold(rows: set<Row>, ns: seq<Notice>, hsmID: nat, ref: string, ts: set<int>)
    ensures CountIf(Run(State(rows, []), ns).mails, AboutThresholds(hsmID, ref, ts)) <= |ts|
    decreases |ts|
  {
    var mails := Run(State(rows, []), ns).mails;
    if t :| t in ts {
      var row := Row(hsmID, KIND, ref, t);
      OneMailPerThreshold(rows, ns, hsmID, ref, ts - {t});
      AtMostOneMail(rows, ns, row);
      MailsAreOurs(rows, ns);
      CountIfSplit(mails, AboutThresholds(hsmID, ref, ts - {t}), About(row), AboutThresholds(hsmID, ref, ts));
    } else {
      CountIfPositive(mails, AboutThresholds(hsmID, ref, ts));
    }
  }

  /** With one set of thresholds, a ref causes at most as many mails as there are
      distinct thresholds, however often its certificates are scanned. */
  lemma {:induction false} MailsPerRef(rows: set<Row>, ns: seq<Notice>, ts: seq<int>, hsmID: nat, ref: string)
    requires forall i :: 0 <= i < |ns| ==> multiset(ns[i].thresholds) == multiset(ts)
    ensures CountIf(Run(State(rows, []), ns).mails, AboutRef(hsmID, ref)) <= |set t | t in ts|
  {
    var mails, all := Run(State(rows, []), ns).mails, set t | t in ts;
    MailsAreOurs(rows, ns);
    forall m | m in mails ensures AboutRef(hsmID, ref)(m) == AboutThresholds(hsmID, ref, all)(m) {
      var i :| 0 <= i < |ns| && m.row.threshold in ns[i].thresholds;
      PermutationLength(ns[i].thresholds, ts);
    }
    CountIfCongruent(mails, AboutRef(hsmID, ref), AboutThresholds(hsmID, ref, all));
    OneMailPerThreshold(rows, ns, hsmID, ref, all);
  }

  // ---- whose mail it is ----

  /** Some notice of the run left the row in the ledger. */
  predicate OnRecord(ns: seq<Notice>, row: Row) {
    exists i :: 0 <= i < |ns| && RowFor(ns[i]) == Some(row) && !ns[i].fault.Lost?
  }

  lemma OnRecordSnoc(ns: seq<Notice>, row: Row)
    requires ns != []
    ensures OnRecord(ns, row)
       <==> OnRecord(ns[..|ns| - 1], row) || (RowFor(ns[|ns| - 1]) == Some(row) && !ns[|ns| - 1].fault.Lost?)
  {
    var init := ns[..|ns| - 1];
    if OnRecord(init, row) {
      var i :| 0 <= i < |init| && RowFor(init[i]) == Some(row) && !init[i].fault.Lost?;
      assert RowFor(ns[i]) == Some(row);
    }
    if OnRecord(ns, row) {
      var i :| 0 <= i < |ns| && RowFor(ns[i]) == Some(row) && !ns[i].fault.Lost?;
      assert i < |init| ==> RowFor(init[i]) == Some(row);
    }
  }

  lemma {:induction false} LedgerMeaning(rows: set<Row>, ns: seq<Notice>, row: Row)
    ensures row in Run(State(rows, []), ns).rows <==> row in rows || OnRecord(ns, row)
  {
    if ns != [] {
      LedgerMeaning(rows, ns[..|ns| - 1], row);
      OnRecordSnoc(ns, row);
    }
  }

  function MailsUpTo(rows: set<Row>, ns: seq<Notice>, k: nat): seq<Mail>
    requires k <= |ns|
  {
    Run(State(rows, []), ns[..k]).mails
  }

  /** A notice with a bucket sends a mail about its own certificate if and only if
      the ledger answers without error, did not know the row from the start, and
      no earlier notice of the run, about whatever certificate, left it there;
      otherwise it sends nothing. */
  lemma OwnMailExactly(rows: set<Row>, ns: seq<Notice>, k: nat)
    requires k < |ns| && RowFor(ns[k]).Some?
    ensures var row := RowFor(ns[k]).value;
            MailsUpTo(rows, ns, k + 1)
            == if ns[k].fault.Fine? && row !in rows && !OnRecord(ns[..k], row)
               then MailsUpTo(rows, ns, k) + [Mail(row, ns[k].cert)] else MailsUpTo(rows, ns, k)
  {
    LedgerMeaning(rows, ns[..k], RowFor(ns[k]).value);
    assert ns[..k + 1][..k] == ns[..k];
  }

  /** What the notifier can tell certificates apart by: all but the days left. */
  datatype CertId = CertId(name: string, subject: string, notAfter: int)

  function IdOf(c: CertInfo): CertId { CertId(c.name, c.subject, c.notAfter) }

  ghost predicate HasMail(mails: seq<Mail>, row: Row, id: CertId) {
    exists m :: m in mails && m.row == row && IdOf(m.cert) == id
  }

  /** The run sent a mail about the certificate of notice k for its bucket. */
  ghost predicate OwnMail(rows: set<Row>, ns: seq<Notice>, k: nat)
    requires k < |ns| && RowFor(ns[k]).Some?
  {
    HasMail(Run(State(rows, []), ns).mails, RowFor(ns[k]).value, IdOf(ns[k].cert))
  }

  /** Two certificates of one HSM that share ref and bucket. */
  predicate Clash(a: Notice, b: Notice) {
    RowFor(a).Some? && RowFor(a) == RowFor(b) && IdOf(a.cert) != IdOf(b.cert)
  }

  lemma {:induction false} MailComesFrom(rows: set<Row>, ns: seq<Notice>, m: Mail)
    requires m in Run(State(rows, []), ns).mails
    ensures m.row !in rows && exists i :: 0 <= i < |ns| && RowFor(ns[i]) == Some(m.row) && m.cert == ns[i].cert
  {
    var init, n := ns[..|ns| - 1], ns[|ns| - 1];
    if m in Run(State(rows, []), init).mails {
      MailComesFrom(rows, init, m);
      var i :| 0 <= i < |init| && RowFor(init[i]) == Some(m.row) && m.cert == init[i].cert;
      assert RowFor(ns[i]) == Some(m.row);
    } else {
      AtMostOneMail(rows, init, m.row);
      assert RowFor(n) == Some(m.row) && m.cert == n.cert;
    }
  }

  lemma NoClashGivesMail(rows: set<Row>, ns: seq<Notice>, k: nat)
    requires (forall i :: 0 <= i < |ns| ==> ns[i].fault.Fine?) && k < |ns| && RowFor(ns[k]).Some?
    requires RowFor(ns[k]).value !in rows && forall i :: 0 <= i < |ns| ==> !Clash(ns[i], ns[k])
    ensures OwnMail(rows, ns, k)
  {
    var row, mails := RowFor(ns[k]).value, Run(State(rows, []), ns).mails;
    assert Mentions(ns, row);
    ExactlyOneMail(rows, ns, row);
    CountIfPositive(mails, About(row));
    var j :| 0 <= j < |mails| && About(row)(mails[j]);
    MailComesFrom(rows, ns, mails[j]);
    var i :| 0 <= i < |ns| && RowFor(ns[i]) == Some(row) && mails[j].cert == ns[i].cert;
    assert !Clash(ns[i], ns[k]);
    assert mails[j] in mails;
  }

  lemma TheOneMail(rows: set<Row>, ns: seq<Notice>, k: nat, l: nat)
    requires k < |Run(State(rows, []), ns).mails| && l < |Run(State(rows, []), ns).mails|
    requires Run(State(rows, []), ns).mails[k].row == Run(State(rows, []), ns).mails[l].row
    ensures k == l
  {
    var mails := Run(State(rows, []), ns).mails;
    AtMostOneMail(rows, ns, mails[k].row);
    AtMostOneExactly(mails, About(mails[k].row));
    assert About(mails[k].row)(mails[k]) && About(mails[k].row)(mails[l]);
  }

  lemma ClashLosesMail(rows: set<Row>, ns: seq<Notice>, j: nat, k: nat)
    requires j < |ns| && k < |ns| && Clash(ns[j], ns[k])
    ensures !(OwnMail(rows, ns, j) && OwnMail(rows, ns, k))
  {
    if OwnMail(rows, ns, j) && OwnMail(rows, ns, k) {
      var row, mails := RowFor(ns[k]).value, Run(State(rows, []), ns).mails;
      var x :| x in mails && x.row == row && IdOf(x.cert) == IdOf(ns[j].cert);
      var y :| y in mails && y.row == row && IdOf(y.cert) == IdOf(ns[k].cert);
      var i :| 0 <= i < |mails| && mails[i] == x;
      var l :| 0 <= l < |mails| && mails[l] == y;
      TheOneMail(rows, ns, i, l);
    }
  }

  lemma {:induction false} MailsGrow(s: State, ns: seq<Notice>)
    ensures s.mails <= Run(s, ns).mails
  {
    if ns != [] { MailsGrow(s, ns[..|ns| - 1]); }
  }

  lemma MailAt(rows: set<Row>, a: seq<Notice>, n: Notice, b: seq<Notice>, row: Row)
    requires RowFor(n) == Some(row) && n.fault.Fine? && row !in rows && !OnRecord(a, row)
    ensures var k, mails := |Run(State(rows, []), a).mails|, Run(State(rows, []), a + [n] + b).mails;
            k < |mails| && mails[k] == Mail(row, n.cert)
  {
    hide RowFor, OnRecord;
    var s := Run(State(rows, []), a);
    LedgerMeaning(rows, a, row);
    assert (a + [n])[..|a|] == a;
    assert Run(State(rows, []), a + [n]) == Step(s, n);
    RunAppend(State(rows, []), a + [n], b);
    MailsGrow(Step(s, n), b);
  }

  /** The only mail a row ever causes is about the certificate of the first notice
      that reaches the ledger with it, whatever comes later. */
  lemma MailIsAboutFirst(rows: set<Row>, a: seq<Notice>, n: Notice, b: seq<Notice>, row: Row, id: CertId)
    requires RowFor(n) == Some(row) && n.fault.Fine? && !OnRecord(a, row)
    ensures HasMail(Run(State(rows, []), a + [n] + b).mails, row, id) <==> row !in rows && IdOf(n.cert) == id
  {
    hide RowFor, OnRecord;
    var ns := a + [n] + b;
    var mails := Run(State(rows, []), ns).mails;
    if row !in rows {
      MailAt(rows, a, n, b, row);
      var k := |Run(State(rows, []), a).mails|;
      assert mails[k] in mails;
      if HasMail(mails, row, id) {
        var m :| m in mails && m.row == row && IdOf(m.cert) == id;
        var l :| 0 <= l < |mails| && mails[l] == m;
        TheOneMail(rows, ns, k, l);
      }
    } else if HasMail(mails, row, id) {
      var m :| m in mails && m.row == row && IdOf(m.cert) == id;
      MailComesFrom(rows, ns, m);
    }
  }

  /** Some hand-over for the row led to a delivery; arrives says which of the
      mails handed over, in order, are delivered. */
  ghost predicate Delivered(mails: seq<Mail>, row: Row, arrives: nat -> bool) {
    exists k: nat :: k < |mails| && mails[k].row == row && arrives(k)
  }

  /** The ledger is written before the mail is delivered, and nothing is handed
      over twice: a reminder is lost for good exactly if its first delivery
      fails, whatever is reported later. */
  lemma DeliveredExactly(rows: set<Row>, a: seq<Notice>, n: Notice, b: seq<Notice>, row: Row, arrives: nat -> bool)
    requires RowFor(n) == Some(row) && n.fault.Fine? && row !in rows && !OnRecord(a, row)
    ensures Delivered(Run(State(rows, []), a + [n] + b).mails, row, arrives)
       <==> arrives(|Run(State(rows, []), a).mails|)
  {
    hide RowFor, OnRecord;
    var mails := Run(State(rows, []), a + [n] + b).mails;
    var k := |Run(State(rows, []), a).mails|;
    MailAt(rows, a, n, b, row);
    if Delivered(mails, row, arrives) {
      var l: nat :| l < |mails| && mails[l].row == row && arrives(l);
      TheOneMail(rows, a + [n] + b, k, l);
    }
  }

  ghost predicate AllOwn(rows: set<Row>, ns: seq<Notice>) {
    forall k :: 0 <= k < |ns| && RowFor(ns[k]).Some? ==> OwnMail(rows, ns, k)
  }

  predicate NoneKnown(rows: set<Row>, ns: seq<Notice>) {
    forall k :: 0 <= k < |ns| && RowFor(ns[k]).Some? ==> RowFor(ns[k]).value !in rows
  }

  predicate NoClash(ns: seq<Notice>) { forall j, k :: 0 <= j < |ns| && 0 <= k < |ns| ==> !Clash(ns[j], ns[k]) }

  /** Without faults every certificate that falls in a bucket gets a mail of its
      own for it if and only if the ledger knew none of the rows and no two
      different certificates of one HSM share both ref and bucket. */
  lemma EveryCertificateMailedExactly(rows: set<Row>, ns: seq<Notice>)
    requires forall i :: 0 <= i < |ns| ==> ns[i].fault.Fine?
    ensures AllOwn(rows, ns) <==> NoneKnown(rows, ns) && NoClash(ns)
  {
    hide Clash, HasMail;
    if AllOwn(rows, ns) {
      forall k | 0 <= k < |ns| && RowFor(ns[k]).Some? ensures RowFor(ns[k]).value !in rows { OwnMailIsNew(rows, ns, k); }
      forall j, k | 0 <= j < |ns| && 0 <= k < |ns| ensures !Clash(ns[j], ns[k]) {
        ClashHasRows(ns[j], ns[k]);
        if Clash(ns[j], ns[k]) { ClashLosesMail(rows, ns, j, k); }
      }
    } else {
      var k :| 0 <= k < |ns| && RowFor(ns[k]).Some? && !OwnMail(rows, ns, k);
      if RowFor(ns[k]).value !in rows && forall i :: 0 <= i < |ns| ==> !Clash(ns[i], ns[k]) {
        NoClashGivesMail(rows, ns, k);
      }
    }
  }

  lemma ClashHasRows(a: Notice, b: Notice)
    ensures Clash(a, b) ==> RowFor(a).Some? && RowFor(b).Some?
  {
  }

  lemma OwnMailIsNew(rows: set<Row>, ns: seq<Notice>, k: nat)
    requires k < |ns| && RowFor(ns[k]).Some? && OwnMail(rows, ns, k)
    ensures RowFor(ns[k]).value !in rows
  {
    var m :| m in Run(State(rows, []), ns).mails && m.row == RowFor(ns[k]).value && IdOf(m.cert) == IdOf(ns[k].cert);
    MailComesFrom(rows, ns, m);
  }

  /** Two certificates under one label, both within the 14-day bucket: one mail,
      about the first; the second is never announced. */
  lemma SharedLabelLosesMail(hsmID: nat)
    ensures var a, b := CertInfo("tls", "CN=a", 10, 1), CertInfo("tls", "CN=b", 12, 2);
            var ns := [Notice(hsmID, a, DEFAULT_WARN_DAYS, Fine), Notice(hsmID, b, DEFAULT_WARN_DAYS, Fine)];
            && Run(State({}, []), ns).mails == [Mail(Row(hsmID, KIND, "tls", 14), a)]
            && RowFor(ns[1]).Some? && !OwnMail({}, ns, 1)
  {
    var a, b := CertInfo("tls", "CN=a", 10, 1), CertInfo("tls", "CN=b", 12, 2);
    var ns := [Notice(hsmID, a, DEFAULT_WARN_DAYS, Fine), Notice(hsmID, b, DEFAULT_WARN_DAYS, Fine)];
    BucketExactly(10, DEFAULT_WARN_DAYS, 14);
    BucketExactly(12, DEFAULT_WARN_DAYS, 14);
    assert IsBucket(10, DEFAULT_WARN_DAYS, 14) && IsBucket(12, DEFAULT_WARN_DAYS, 14);
    var row := Row(hsmID, KIND, "tls", 14);
    assert RowFor(ns[0]) == Some(row) && RowFor(ns[1]) == Some(row);
    assert ns[..1] == [ns[0]] && ns[..1][..0] == [];
    assert Run(State({}, []), ns[..1]) == State({row}, [Mail(row, a)]);
    assert Run(State({}, []), ns) == Step(Run(State({}, []), ns[..1]), ns[1]);
  }

  // ---- the program ----

  lemma BucketPermutes(days: int, a: seq<int>, b: seq<int>)
    requires multiset(a) == multiset(b)
    ensures Bucket(days, a) == Bucket(days, b)
  {
    PermutationLength(a, b);
    if Bucket(days, a).Some? { BucketExactly(days, b, Bucket(days, a).value); }
    if Bucket(days, b).Some? { BucketExactly(days, a, Bucket(days, b).value); }
  }

  lemma SortDescends(ts: seq<int>)
    ensures Descending(Sort(ts, IntGe)) && multiset(Sort(ts, IntGe)) == multiset(ts)
  {
    assert TotalPreorder(IntGe);
    SortSorts(ts, IntGe);
    SortPermutes(ts, IntGe);
    forall i, j | 0 <= i < j < |ts| ensures Sort(ts, IntGe)[i] >= Sort(ts, IntGe)[j] {
      assert IntGe(Sort(ts, IntGe)[i], Sort(ts, IntGe)[j]);
    }
  }

  function Notices(hsmID: nat, certs: seq<CertInfo>, ts: seq<int>): seq<Notice> {
    Map(certs, (c: CertInfo) => Notice(hsmID, c, ts, Fine))
  }

  /** Mailer, configuration and ledger; outbox lists what was handed to the
      mailer, whether or not delivery succeeds. */
  class Notifier {
    const enabled: bool
    var certWarnDays: seq<int>
    var outbox: seq<Mail>

    constructor (enabled: bool, certWarnDays: seq<int>)
      ensures this.enabled == enabled && this.certWarnDays == certWarnDays && outbox == []
    {
      this.enabled, this.certWarnDays, outbox := enabled, certWarnDays, [];
    }

    function WarnDays(): (ts: seq<int>)
      reads this
      ensures ts != []
    {
      if |certWarnDays| > 0 then certWarnDays else DEFAULT_WARN_DAYS
    }

    method NotifyOne(store: Store, hsmID: nat, c: CertInfo, thresholds: seq<int>, ghost ts: seq<int>)
      requires Descending(thresholds) && multiset(thresholds) == multiset(ts)
      modifies this`outbox, store`notified
      ensures State(store.notified, outbox)
           == Step(State(old(store.notified), old(outbox)), Notice(hsmID, c, ts, Fine))
    {
      BucketPermutes(c.daysLeft, thresholds, ts);
      var bucket := CrossedThreshold(c.daysLeft, thresholds);
      if bucket.Some? {
        var row := Row(hsmID, KIND, RefOf(c), bucket.value);
        var isFresh := store.MarkNotified(row);
        if isFresh {
          outbox := outbox + [Mail(row, c)];
        } else {
          assert store.notified == old(store.notified) + {row};
        }
      }
    }

    /** One reminder at most for each ref and threshold. The configured thresholds ts
        are sorted in place on the way. */
    method NotifyCertExpiry(store: Store, hsmID: nat, certs: seq<CertInfo>, ghost ts: seq<int>)
      requires multiset(ts) == multiset(WarnDays())
      modifies this`outbox, this`certWarnDays, store`notified
      ensures State(store.notified, outbox)
           == if enabled then Run(State(old(store.notified), old(outbox)), Notices(hsmID, certs, ts))
              else State(old(store.notified), old(outbox))
      ensures multiset(ts) == multiset(WarnDays())
    {
      hide Sort, Bucket, Run, Step, Descending;
      if !enabled { return; }
      ghost var s0, ns := State(store.notified, outbox), Notices(hsmID, certs, ts);
      var thresholds := Sort(WarnDays(), IntGe);
      SortDescends(WarnDays());
      if |certWarnDays| > 0 {
        PermutationLength(thresholds, certWarnDays);
        certWarnDays := thresholds;
      }
      NothingRun(s0);
      for i := 0 to |certs|
        invariant State(store.notified, outbox) == Run(s0, ns[..i])
        invariant multiset(ts) == multiset(WarnDays())
      {
        RunStep(s0, ns, i);
        NotifyOne(store, hsmID, certs[i], thresholds, ts);
      }
      assert ns[..|certs|] == ns;
    }
  }
}
