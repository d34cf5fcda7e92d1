/** The expiry reminders over whole runs of the server: which mails the scans of a
    history cause, and whose certificates they are about. */
module ReminderRuns {
  import opened Seqs
  import C = Certmon
  import I = Inventory
  import N = Notify
  import opened Store
  import opened History
  import opened HistoryRuns

  // ---- reminders over the run ----

  /** The notices one scan makes: one for each certificate not yet OK. */
  ghost function ScanNotices(log: Log, x: Input, ts: seq<int>): seq<N.Notice> {
    if !Takes(x) then []
    else
      N.Notices(HsmIndex(log.hsms, Serial(x), x.source) + 1,
                CertsOf(x.report.inventory.value, x.now, N.MaxDays(ts)), ts)
  }

  ghost function AllNotices(ins: seq<Input>, ts: seq<int>): seq<N.Notice> {
    if ins == [] then []
    else AllNotices(ins[..|ins| - 1], ts) + ScanNotices(Run(ins[..|ins| - 1]), ins[|ins| - 1], ts)
  }

  /** Ledger and outbox of a server that starts with an empty database. */
  ghost function Reminders(ins: seq<Input>, ts: seq<int>): N.State {
    if ins == [] then N.State({}, [])
    else N.Run(Reminders(ins[..|ins| - 1], ts), ScanNotices(Run(ins[..|ins| - 1]), ins[|ins| - 1], ts))
  }

  lemma {:induction false} RemindersAreNotices(ins: seq<Input>, ts: seq<int>)
    ensures Reminders(ins, ts) == N.Run(N.State({}, []), AllNotices(ins, ts))
    ensures forall i :: 0 <= i < |AllNotices(ins, ts)| ==> AllNotices(ins, ts)[i].fault.Fine?
  {
    if ins != [] {
      var init := ins[..|ins| - 1];
      RemindersAreNotices(init, ts);
      N.RunAppend(N.State({}, []), AllNotices(init, ts), ScanNotices(Run(init), ins[|ins| - 1], ts));
    }
  }

  lemma {:induction false} NoticesInclude(ins: seq<Input>, k: nat, ts: seq<int>, n: N.Notice)
    requires k < |ins| && n in ScanNotices(Run(ins[..k]), ins[k], ts)
    ensures n in AllNotices(ins, ts)
  {
    if k < |ins| - 1 {
      assert ins[..|ins| - 1][..k] == ins[..k];
      NoticesInclude(ins[..|ins| - 1], k, ts, n);
    }
  }

  /** The ledger's key for an entry of a scan's certificate listing. */
  ghost function ReminderRow(log: Log, x: Input, e: C.Entry, threshold: int): Row
    requires Takes(x)
  {
    Row(HsmIndex(log.hsms, Serial(x), x.source) + 1, N.KIND, N.RefOf(AsCertInfo(e)), threshold)
  }

  lemma EntryGetsNotice(log: Log, x: Input, ts: seq<int>, e: C.Entry)
    requires Takes(x) && e in C.Entries(x.report.inventory.value, x.now, N.MaxDays(ts)) && !e.status.OK?
    ensures N.Notice(HsmIndex(log.hsms, Serial(x), x.source) + 1, AsCertInfo(e), ts, N.Fine) in ScanNotices(log, x, ts)
  {
    var es := C.Entries(x.report.inventory.value, x.now, N.MaxDays(ts));
    FilterMembers(es, NonOK);
    MapMembers(Filter(es, NonOK), AsCertInfo, AsCertInfo(e));
    var certs := CertsOf(x.report.inventory.value, x.now, N.MaxDays(ts));
    var i :| 0 <= i < |certs| && certs[i] == AsCertInfo(e);
    assert ScanNotices(log, x, ts)[i] == N.Notice(HsmIndex(log.hsms, Serial(x), x.source) + 1, AsCertInfo(e), ts, N.Fine);
  }

  /** Where an entry's status and days left come from. */
  lemma EntryTimes(inv: I.Inventory, now: int, warnDays: int, e: C.Entry)
    requires e in C.Entries(inv, now, warnDays)
    ensures e.status == C.StatusOf(e.notAfter - now, warnDays) && e.daysLeft == C.TruncDiv(e.notAfter - now, C.DAY)
  {
    var certs := Filter(inv.objects, C.IsCertificate);
    C.EntriesMeaning(inv, now, warnDays);
    PermutationLength(C.Entries(inv, now, warnDays), Map(certs, C.EntryOf(inv.objects, now, warnDays)));
    MapMembers(certs, C.EntryOf(inv.objects, now, warnDays), e);
    FilterMembers(inv.objects, C.IsCertificate);
  }

  /** Scan k shows e as expired or expiring. */
  ghost predicate Reported(ins: seq<Input>, ts: seq<int>, k: nat, e: C.Entry) {
    && k < |ins| && Takes(ins[k]) && !e.status.OK?
    && e in C.Entries(ins[k].report.inventory.value, ins[k].now, N.MaxDays(ts))
  }

  /** With a threshold that is not negative, whenever a stored scan shows some
      certificate as expired or expiring, exactly one mail has been sent for its
      ref and bucket, however often the HSM was scanned. The mail may be about
      another certificate with that ref; see CertificatesMailedExactly. */
  lemma EveryWarnedRefMailedOnce(ins: seq<Input>, k: nat, ts: seq<int>, e: C.Entry)
    requires ts != [] && N.SomeNonNegative(ts) && Reported(ins, ts, k, e)
    ensures N.Bucket(e.daysLeft, ts).Some?
    ensures CountIf(Reminders(ins, ts).mails,
                    N.About(ReminderRow(Run(ins[..k]), ins[k], e, N.Bucket(e.daysLeft, ts).value))) == 1
  {
    var log, x := Run(ins[..k]), ins[k];
    EntryTimes(x.report.inventory.value, x.now, N.MaxDays(ts), e);
    N.ReportedCertificatesGetBucket(ts);
    var row := ReminderRow(log, x, e, N.Bucket(e.daysLeft, ts).value);
    var n := N.Notice(row.hsmID, AsCertInfo(e), ts, N.Fine);
    EntryGetsNotice(log, x, ts, e);
    NoticesInclude(ins, k, ts, n);
    RemindersAreNotices(ins, ts);
    assert N.RowFor(n) == Some(row);
    MentionedRow(AllNotices(ins, ts), n, row);
    N.ExactlyOneMail({}, AllNotices(ins, ts), row);
  }

  lemma MentionedRow(ns: seq<N.Notice>, n: N.Notice, row: Row)
    requires n in ns && N.RowFor(n) == Some(row)
    ensures N.Mentions(ns, row)
  {
    var i :| 0 <= i < |ns| && ns[i] == n;
    assert N.RowFor(ns[i]) == Some(row);
  }

  // ---- whose reminder it is ----

  /** The HSM row scan k belongs to. */
  ghost function HsmOf(ins: seq<Input>, k: nat): nat
    requires k < |ins| && Takes(ins[k])
  {
    HsmIndex(Run(ins[..k]).hsms, Serial(ins[k]), ins[k].source) + 1
  }

  /** Row h belongs to the HSM of scan x. */
  ghost predicate IsHsmOf(hsms: seq<HSM>, h: nat, x: Input)
    requires Takes(x)
  {
    HsmRows(hsms) && h < |hsms| && hsms[h].serial == Serial(x) && hsms[h].source == x.source
  }

  /** Storing a scan gives it its row and moves no other. */
  lemma HsmStep(log: Log, x: Input, h: nat, y: Input)
    requires HsmRows(log.hsms) && Takes(y)
    ensures Takes(x) ==> IsHsmOf(Persisted(log, x.report, x.source, x.now).hsms, HsmIndex(log.hsms, Serial(x), x.source), x)
    ensures IsHsmOf(log.hsms, h, y) ==> IsHsmOf(Persisted(log, x.report, x.source, x.now).hsms, h, y)
  {
    hide Upserted, History.Appended, HsmRows;
    if Takes(x) {
      UpsertKeeps(log.hsms, Serial(x), x.source, x.report.inventory.value.token.value, x.now);
      PersistedHsms(log, x);
    }
  }

  lemma RunHasHsmRows(ins: seq<Input>)
    ensures HsmRows(Run(ins).hsms)
  {
    hide Run;
    RunKeepsInv(ins);
  }

  lemma {:induction false} HsmStays(ins: seq<Input>, k: nat, n: nat)
    requires k < n <= |ins| && Takes(ins[k])
    ensures IsHsmOf(Run(ins[..n]).hsms, HsmOf(ins, k) - 1, ins[k])
  {
    hide Persisted, IsHsmOf, HsmRows;
    if n > k + 1 { HsmStays(ins, k, n - 1); }
    RunHasHsmRows(ins[..n - 1]);
    assert ins[..n][..n - 1] == ins[..n - 1];
    HsmStep(Run(ins[..n - 1]), ins[n - 1], HsmOf(ins, k) - 1, ins[k]);
  }

  lemma PersistedHsms(log: Log, x: Input)
    requires Takes(x)
    ensures Persisted(log, x.report, x.source, x.now).hsms
         == Upserted(log.hsms, Serial(x), x.source, x.report.inventory.value.token.value, x.now)
  {
  }

  lemma HsmsAgree(ins: seq<Input>, k: nat, l: nat)
    requires k < |ins| && l < |ins| && Takes(ins[k]) && Takes(ins[l])
    ensures HsmOf(ins, k) == HsmOf(ins, l) <==> SameHsm(ins[k], ins[l])
  {
    if k < l {
      HsmStays(ins, k, l);
    } else if l < k {
      HsmStays(ins, l, k);
    }
  }

  ghost function NoticeOf(ins: seq<Input>, ts: seq<int>, k: nat, e: C.Entry): N.Notice
    requires k < |ins| && Takes(ins[k])
  {
    N.Notice(HsmOf(ins, k), AsCertInfo(e), ts, N.Fine)
  }

  lemma ReportedIsNotice(ins: seq<Input>, ts: seq<int>, k: nat, e: C.Entry)
    requires Reported(ins, ts, k, e)
    ensures NoticeOf(ins, ts, k, e) in AllNotices(ins, ts)
  {
    EntryGetsNotice(Run(ins[..k]), ins[k], ts, e);
    NoticesInclude(ins, k, ts, NoticeOf(ins, ts, k, e));
  }

  lemma NoticeOfScan(log: Log, x: Input, ts: seq<int>, n: N.Notice) returns (e: C.Entry)
    requires n in ScanNotices(log, x, ts)
    ensures Takes(x) && e in C.Entries(x.report.inventory.value, x.now, N.MaxDays(ts)) && !e.status.OK?
    ensures n == N.Notice(HsmIndex(log.hsms, Serial(x), x.source) + 1, AsCertInfo(e), ts, N.Fine)
  {
    var es := C.Entries(x.report.inventory.value, x.now, N.MaxDays(ts));
    var certs := CertsOf(x.report.inventory.value, x.now, N.MaxDays(ts));
    var i :| 0 <= i < |certs| && ScanNotices(log, x, ts)[i] == n;
    e := Filter(es, NonOK)[i];
    assert e in Filter(es, NonOK);
    FilterMembers(es, NonOK);
  }

  lemma ReportedEarlier(ins: seq<Input>, ts: seq<int>, k: nat, e: C.Entry)
    requires ins != [] && Reported(ins[..|ins| - 1], ts, k, e)
    ensures Reported(ins, ts, k, e) && NoticeOf(ins, ts, k, e) == NoticeOf(ins[..|ins| - 1], ts, k, e)
  {
    assert ins[..|ins| - 1][..k] == ins[..k] && ins[..|ins| - 1][k] == ins[k];
  }

  lemma {:induction false} NoticeIsReported(ins: seq<Input>, ts: seq<int>, n: N.Notice) returns (k: nat, e: C.Entry)
    requires n in AllNotices(ins, ts)
    ensures Reported(ins, ts, k, e) && n == NoticeOf(ins, ts, k, e)
  {
    hide ScanNotices, Run, CertsOf;
    var init := ins[..|ins| - 1];
    if n in AllNotices(init, ts) {
      k, e := NoticeIsReported(init, ts, n);
      ReportedEarlier(ins, ts, k, e);
    } else {
      k := |ins| - 1;
      e := NoticeOfScan(Run(init), ins[k], ts, n);
    }
  }

  /** The run mailed about this very certificate, for the bucket it was in. */
  ghost predicate MailedFor(ins: seq<Input>, ts: seq<int>, k: nat, e: C.Entry)
    requires k < |ins| && Takes(ins[k])
  {
    var b := N.Bucket(e.daysLeft, ts);
    b.Some? && N.HasMail(Reminders(ins, ts).mails, ReminderRow(Run(ins[..k]), ins[k], e, b.value), N.IdOf(AsCertInfo(e)))
  }

  /** Certificates of one HSM, reported with one ref and bucket. */
  ghost predicate OneReminder(ins: seq<Input>, ts: seq<int>, k: nat, e: C.Entry, l: nat, f: C.Entry)
    requires k < |ins| && Takes(ins[k]) && l < |ins| && Takes(ins[l])
  {
    && SameHsm(ins[k], ins[l]) && N.RefOf(AsCertInfo(e)) == N.RefOf(AsCertInfo(f))
    && N.Bucket(e.daysLeft, ts) == N.Bucket(f.daysLeft, ts)
  }

  /** Different certificates that share a reminder. */
  ghost predicate ShareReminder(ins: seq<Input>, ts: seq<int>, k: nat, e: C.Entry, l: nat, f: C.Entry)
    requires k < |ins| && Takes(ins[k]) && l < |ins| && Takes(ins[l])
  {
    OneReminder(ins, ts, k, e, l, f) && N.IdOf(AsCertInfo(e)) != N.IdOf(AsCertInfo(f))
  }

  lemma ReportedHasBucket(ins: seq<Input>, ts: seq<int>, k: nat, e: C.Entry)
    requires ts != [] && N.SomeNonNegative(ts) && Reported(ins, ts, k, e)
    ensures N.Bucket(e.daysLeft, ts).Some?
    ensures N.RowFor(NoticeOf(ins, ts, k, e))
         == Some(ReminderRow(Run(ins[..k]), ins[k], e, N.Bucket(e.daysLeft, ts).value))
  {
    EntryTimes(ins[k].report.inventory.value, ins[k].now, N.MaxDays(ts), e);
    N.ReportedCertificatesGetBucket(ts);
  }

  lemma SharingIsClash(ins: seq<Input>, ts: seq<int>, k: nat, e: C.Entry, l: nat, f: C.Entry)
    requires ts != [] && N.SomeNonNegative(ts) && Reported(ins, ts, k, e) && Reported(ins, ts, l, f)
    ensures OneReminder(ins, ts, k, e, l, f) <==> N.RowFor(NoticeOf(ins, ts, k, e)) == N.RowFor(NoticeOf(ins, ts, l, f))
    ensures ShareReminder(ins, ts, k, e, l, f) <==> N.Clash(NoticeOf(ins, ts, k, e), NoticeOf(ins, ts, l, f))
  {
    ReportedHasBucket(ins, ts, k, e);
    ReportedHasBucket(ins, ts, l, f);
    HsmsAgree(ins, k, l);
  }

  lemma MailedIsOwnMail(ins: seq<Input>, ts: seq<int>, k: nat, e: C.Entry, i: nat)
    requires ts != [] && N.SomeNonNegative(ts) && Reported(ins, ts, k, e)
    requires i < |AllNotices(ins, ts)| && AllNotices(ins, ts)[i] == NoticeOf(ins, ts, k, e)
    ensures N.RowFor(AllNotices(ins, ts)[i]).Some?
    ensures MailedFor(ins, ts, k, e) <==> N.OwnMail({}, AllNotices(ins, ts), i)
  {
    ReportedHasBucket(ins, ts, k, e);
    RemindersAreNotices(ins, ts);
  }

  ghost predicate AllMailed(ins: seq<Input>, ts: seq<int>) {
    forall k, e :: Reported(ins, ts, k, e) ==> MailedFor(ins, ts, k, e)
  }

  ghost predicate NoneShare(ins: seq<Input>, ts: seq<int>) {
    forall k, e, l, f :: Reported(ins, ts, k, e) && Reported(ins, ts, l, f) ==> !ShareReminder(ins, ts, k, e, l, f)
  }

  lemma NoticeAt(ins: seq<Input>, ts: seq<int>, k: nat, e: C.Entry) returns (i: nat)
    requires Reported(ins, ts, k, e)
    ensures i < |AllNotices(ins, ts)| && AllNotices(ins, ts)[i] == NoticeOf(ins, ts, k, e)
  {
    hide AllNotices;
    ReportedIsNotice(ins, ts, k, e);
    i :| 0 <= i < |AllNotices(ins, ts)| && AllNotices(ins, ts)[i] == NoticeOf(ins, ts, k, e);
  }

  lemma MailedIffOwn(ins: seq<Input>, ts: seq<int>)
    requires ts != [] && N.SomeNonNegative(ts)
    ensures AllMailed(ins, ts) <==> N.AllOwn({}, AllNotices(ins, ts))
  {
    hide AllNotices, NoticeOf, MailedFor, N.OwnMail, N.RowFor;
    var ns := AllNotices(ins, ts);
    if AllMailed(ins, ts) {
      forall i | 0 <= i < |ns| && N.RowFor(ns[i]).Some? ensures N.OwnMail({}, ns, i) {
        var k, e := NoticeIsReported(ins, ts, ns[i]);
        MailedIsOwnMail(ins, ts, k, e, i);
      }
    }
    if N.AllOwn({}, ns) {
      forall k, e | Reported(ins, ts, k, e) ensures MailedFor(ins, ts, k, e) {
        var i := NoticeAt(ins, ts, k, e);
        MailedIsOwnMail(ins, ts, k, e, i);
      }
    }
  }

  lemma ShareIffClash(ins: seq<Input>, ts: seq<int>)
    requires ts != [] && N.SomeNonNegative(ts)
    ensures NoneShare(ins, ts) <==> N.NoClash(AllNotices(ins, ts))
  {
    hide AllNotices, NoticeOf, ShareReminder, N.Clash;
    var ns := AllNotices(ins, ts);
    if NoneShare(ins, ts) {
      forall i, j | 0 <= i < |ns| && 0 <= j < |ns| ensures !N.Clash(ns[i], ns[j]) {
        var k, e := NoticeIsReported(ins, ts, ns[i]);
        var l, f := NoticeIsReported(ins, ts, ns[j]);
        SharingIsClash(ins, ts, k, e, l, f);
      }
    }
    if N.NoClash(ns) {
      forall k, e, l, f | Reported(ins, ts, k, e) && Reported(ins, ts, l, f) ensures !ShareReminder(ins, ts, k, e, l, f) {
        var i := NoticeAt(ins, ts, k, e);
        var j := NoticeAt(ins, ts, l, f);
        SharingIsClash(ins, ts, k, e, l, f);
      }
    }
  }

  /** Over any run of the server from an empty database, with a threshold that is
      not negative, every certificate a stored scan showed as expired or expiring
      got a mail of its own for its bucket if and only if no two different
      certificates of one HSM, in the same scan or in different ones, were
      reported with the same ref and bucket. */
  lemma CertificatesMailedExactly(ins: seq<Input>, ts: seq<int>)
    requires ts != [] && N.SomeNonNegative(ts)
    ensures AllMailed(ins, ts) <==> NoneShare(ins, ts)
  {
    hide AllMailed, NoneShare, AllNotices, N.AllOwn, N.NoClash;
    RemindersAreNotices(ins, ts);
    N.EveryCertificateMailedExactly({}, AllNotices(ins, ts));
    MailedIffOwn(ins, ts);
    ShareIffClash(ins, ts);
  }

  // ---- certificate by certificate ----

  ghost function Listing(ins: seq<Input>, ts: seq<int>, k: nat): seq<C.Entry>
    requires k < |ins| && Takes(ins[k])
  {
    C.Entries(ins[k].report.inventory.value, ins[k].now, N.MaxDays(ts))
  }

  /** Line p of scan k's listing is shown as expired or expiring. */
  ghost predicate ShownAt(ins: seq<Input>, ts: seq<int>, k: nat, p: nat) {
    k < |ins| && Takes(ins[k]) && p < |Listing(ins, ts, k)| && !Listing(ins, ts, k)[p].status.OK?
  }

  /** Line q of scan l is the first line of the whole history that is shown with
      the HSM, ref and bucket of entry e of scan k. */
  ghost predicate FirstShown(ins: seq<Input>, ts: seq<int>, k: nat, e: C.Entry, l: nat, q: nat)
    requires k < |ins| && Takes(ins[k])
  {
    && ShownAt(ins, ts, l, q) && OneReminder(ins, ts, k, e, l, Listing(ins, ts, l)[q])
    && forall m: nat, p: nat :: ShownAt(ins, ts, m, p) && (m < l || (m == l && p < q))
         ==> !OneReminder(ins, ts, k, e, m, Listing(ins, ts, m)[p])
  }

  lemma {:induction false} SomeFirst(ins: seq<Input>, ts: seq<int>, k: nat, e: C.Entry, m: nat, p: nat)
    returns (l: nat, q: nat)
    requires k < |ins| && Takes(ins[k]) && ShownAt(ins, ts, m, p) && OneReminder(ins, ts, k, e, m, Listing(ins, ts, m)[p])
    ensures FirstShown(ins, ts, k, e, l, q)
    decreases m, p
  {
    hide OneReminder, Listing;
    if x: nat, y: nat :| ShownAt(ins, ts, x, y) && (x < m || (x == m && y < p))
                         && OneReminder(ins, ts, k, e, x, Listing(ins, ts, x)[y]) {
      l, q := SomeFirst(ins, ts, k, e, x, y);
    } else {
      l, q := m, p;
    }
  }

  lemma {:induction false} NoticesInOrder(ins: seq<Input>, ts: seq<int>, l: nat) returns (rest: seq<N.Notice>)
    requires l < |ins|
    ensures AllNotices(ins, ts) == AllNotices(ins[..l], ts) + ScanNotices(Run(ins[..l]), ins[l], ts) + rest
  {
    hide ScanNotices, Run;
    if l == |ins| - 1 {
      rest := [];
    } else {
      var init := ins[..|ins| - 1];
      rest := NoticesInOrder(init, ts, l);
      PrefixOfPrefix(ins, |ins| - 1, l);
      rest := rest + ScanNotices(Run(init), ins[|ins| - 1], ts);
    }
  }

  function NoticesFor(hsmID: nat, es: seq<C.Entry>, ts: seq<int>): seq<N.Notice> {
    N.Notices(hsmID, Map(Filter(es, NonOK), AsCertInfo), ts)
  }

  lemma NoticesSplit(hsmID: nat, es: seq<C.Entry>, q: nat, ts: seq<int>)
    requires q < |es| && NonOK(es[q])
    ensures NoticesFor(hsmID, es, ts)
         == NoticesFor(hsmID, es[..q], ts) + [N.Notice(hsmID, AsCertInfo(es[q]), ts, N.Fine)] + NoticesFor(hsmID, es[q + 1..], ts)
  {
    hide Seqs.Filter, AsCertInfo, NonOK, Seqs.Map;
    var a, b := Filter(es[..q], NonOK), Filter(es[q + 1..], NonOK);
    assert es == es[..q] + [es[q]] + es[q + 1..];
    FilterMiddle(es[..q], es[q], es[q + 1..], NonOK);
    MapMiddle(a, es[q], b, AsCertInfo);
    NoticesMiddle(hsmID, Map(a, AsCertInfo), AsCertInfo(es[q]), Map(b, AsCertInfo), ts);
  }

  lemma MapMiddle<T, U>(a: seq<T>, x: T, b: seq<T>, f: T -> U)
    ensures Map(a + [x] + b, f) == Map(a, f) + [f(x)] + Map(b, f)
  {
  }

  lemma NoticesMiddle(hsmID: nat, a: seq<N.CertInfo>, c: N.CertInfo, b: seq<N.CertInfo>, ts: seq<int>)
    ensures N.Notices(hsmID, a + [c] + b, ts)
         == N.Notices(hsmID, a, ts) + [N.Notice(hsmID, c, ts, N.Fine)] + N.Notices(hsmID, b, ts)
  {
  }

  /** The notice for a shown line, with all those that come before it. */
  lemma NoticesBefore(ins: seq<Input>, ts: seq<int>, l: nat, q: nat) returns (a: seq<N.Notice>, b: seq<N.Notice>)
    requires ShownAt(ins, ts, l, q)
    ensures a == AllNotices(ins[..l], ts) + NoticesFor(HsmOf(ins, l), Listing(ins, ts, l)[..q], ts)
    ensures AllNotices(ins, ts) == a + [NoticeOf(ins, ts, l, Listing(ins, ts, l)[q])] + b
  {
    hide AllNotices, NoticesFor, ScanNotices, Listing;
    var es, h := Listing(ins, ts, l), HsmOf(ins, l);
    var rest := NoticesInOrder(ins, ts, l);
    NoticesSplit(h, es, q, ts);
    a, b := AllNotices(ins[..l], ts) + NoticesFor(h, es[..q], ts), NoticesFor(h, es[q + 1..], ts) + rest;
    ScanNoticesAre(ins, ts, l);
    Regroup(AllNotices(ins[..l], ts), NoticesFor(h, es[..q], ts), NoticeOf(ins, ts, l, es[q]),
            NoticesFor(h, es[q + 1..], ts), rest);
  }

  lemma Regroup<T>(a: seq<T>, b: seq<T>, x: T, c: seq<T>, d: seq<T>)
    ensures a + (b + [x] + c) + d == (a + b) + [x] + (c + d)
  {
  }

  lemma ScanNoticesAre(ins: seq<Input>, ts: seq<int>, l: nat)
    requires l < |ins| && Takes(ins[l])
    ensures ScanNotices(Run(ins[..l]), ins[l], ts) == NoticesFor(HsmOf(ins, l), Listing(ins, ts, l), ts)
  {
  }

  /** The line an earlier notice stems from. */
  lemma EarlierLine(ins: seq<Input>, ts: seq<int>, l: nat, q: nat, n: N.Notice) returns (m: nat, p: nat)
    requires ShownAt(ins, ts, l, q)
    requires n in AllNotices(ins[..l], ts) || n in NoticesFor(HsmOf(ins, l), Listing(ins, ts, l)[..q], ts)
    ensures ShownAt(ins, ts, m, p) && (m < l || (m == l && p < q)) && n == NoticeOf(ins, ts, m, Listing(ins, ts, m)[p])
  {
    if n in AllNotices(ins[..l], ts) {
      var e: C.Entry;
      m, e := NoticeIsReported(ins[..l], ts, n);
      PrefixOfPrefix(ins, l, m);
      p :| 0 <= p < |Listing(ins, ts, m)| && Listing(ins, ts, m)[p] == e;
    } else {
      m := l;
      p := LineOf(HsmOf(ins, l), Listing(ins, ts, l)[..q], ts, n);
    }
  }

  lemma LineOf(hsmID: nat, es: seq<C.Entry>, ts: seq<int>, n: N.Notice) returns (p: nat)
    requires n in NoticesFor(hsmID, es, ts)
    ensures p < |es| && NonOK(es[p]) && n == N.Notice(hsmID, AsCertInfo(es[p]), ts, N.Fine)
  {
    var i :| 0 <= i < |NoticesFor(hsmID, es, ts)| && NoticesFor(hsmID, es, ts)[i] == n;
    var e := Filter(es, NonOK)[i];
    assert e in Filter(es, NonOK);
    FilterMembers(es, NonOK);
    p :| 0 <= p < |es| && es[p] == e;
  }

  lemma NoneRecordedBefore(ins: seq<Input>, ts: seq<int>, k: nat, e: C.Entry, l: nat, q: nat, a: seq<N.Notice>)
    requires ts != [] && N.SomeNonNegative(ts) && Reported(ins, ts, k, e) && FirstShown(ins, ts, k, e, l, q)
    requires a == AllNotices(ins[..l], ts) + NoticesFor(HsmOf(ins, l), Listing(ins, ts, l)[..q], ts)
    requires N.RowFor(NoticeOf(ins, ts, k, e)).Some?
    ensures !N.OnRecord(a, N.RowFor(NoticeOf(ins, ts, k, e)).value)
  {
    hide AllNotices, NoticesFor, NoticeOf, HsmOf, N.RowFor, OneReminder;
    var row := N.RowFor(NoticeOf(ins, ts, k, e)).value;
    forall i | 0 <= i < |a| ensures N.RowFor(a[i]) != Some(row) {
      var m, p := EarlierLine(ins, ts, l, q, a[i]);
      SharingIsClash(ins, ts, k, e, m, Listing(ins, ts, m)[p]);
    }
  }

  /** Over any run of the server from an empty database, with a threshold that is
      not negative: a certificate shown as expired or expiring gets a mail of its
      own if and only if the first certificate the history ever shows with its
      HSM, ref and bucket is this very one. */
  lemma CertificateMailedExactly(ins: seq<Input>, ts: seq<int>, k: nat, e: C.Entry) returns (l: nat, q: nat)
    requires ts != [] && N.SomeNonNegative(ts) && Reported(ins, ts, k, e)
    ensures FirstShown(ins, ts, k, e, l, q)
    ensures MailedFor(ins, ts, k, e) <==> N.IdOf(AsCertInfo(Listing(ins, ts, l)[q])) == N.IdOf(AsCertInfo(e))
  {
    hide AllNotices, NoticesFor, HsmOf, N.RowFor, N.OnRecord, N.HasMail;
    var p :| 0 <= p < |Listing(ins, ts, k)| && Listing(ins, ts, k)[p] == e;
    l, q := SomeFirst(ins, ts, k, e, k, p);
    var f := Listing(ins, ts, l)[q];
    var a, b := NoticesBefore(ins, ts, l, q);
    ReportedHasBucket(ins, ts, k, e);
    SharingIsClash(ins, ts, k, e, l, f);
    NoneRecordedBefore(ins, ts, k, e, l, q, a);
    RemindersAreNotices(ins, ts);
    var row := N.RowFor(NoticeOf(ins, ts, k, e)).value;
    N.MailIsAboutFirst({}, a, NoticeOf(ins, ts, l, f), b, row, N.IdOf(AsCertInfo(e)));
  }
}
