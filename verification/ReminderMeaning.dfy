/** What the reminders of a server run say, in the words of the inventories they
    stem from (internal/server/history.go, internal/notify/notifier.go). */
module ReminderMeaning {
  import opened Seqs
  import opened Inventory
  import C = Certmon
  import N = Notify
  import HM = HistoryMeaning
  import opened Store
  import opened History
  import opened HistoryRuns
  import opened ReminderRuns

  /** Without thresholds of its own the notifier uses 30, 14 and 1 days. */
  lemma DefaultThresholds(n: N.Notifier)
    ensures n.certWarnDays == [] ==> n.WarnDays() == [30, 14, 1]
    ensures n.certWarnDays != [] ==> n.WarnDays() == n.certWarnDays
  {
  }

  /** The window is the widest threshold, or nothing if all are negative. */
  predicate IsWindow(w: int, ts: seq<int>) {
    w >= 0 && (w == 0 || w in ts) && forall t :: t in ts ==> t <= w
  }

  /** The mail is about certificate object o as scan x found it: its label,
      subject and expiry, the days left, expired or within the window, filed
      under the label or else the subject and the threshold reached. */
  predicate MailAbout(m: N.Mail, x: Input, o: Object, ts: seq<int>, w: int) {
    && o.class_ == "certificate" && o.cert != None
    && var c := o.cert.value;
       && m.cert.name == o.name && m.cert.subject == c.subject && m.cert.notAfter == c.notAfter
       && HM.WholeDays(m.cert.daysLeft, c.notAfter - x.now)
       && (c.notAfter <= x.now || c.notAfter <= x.now + w * HM.DAY_NS)
       && m.row.kind == "cert-expiry" && m.row.ref == (if o.name != "" then o.name else c.subject)
       && m.row.threshold in ts && (m.cert.daysLeft >= 0 ==> m.cert.daysLeft <= m.row.threshold)
       && (forall t :: t in ts && (m.cert.daysLeft < 0 || m.cert.daysLeft <= t) ==> m.row.threshold <= t)
  }

  lemma EntryMail(x: Input, e: C.Entry, o: Object, ts: seq<int>, hsmID: nat, m: N.Mail)
    requires Takes(x) && HM.Describes(x.report.inventory.value.objects, x.now, N.MaxDays(ts), o, e) && !e.status.OK?
    requires N.RowFor(N.Notice(hsmID, AsCertInfo(e), ts, N.Fine)) == Some(m.row) && m.cert == AsCertInfo(e)
    ensures MailAbout(m, x, o, ts, N.MaxDays(ts)) && m.row.hsmID == hsmID
  {
    N.BucketExactly(e.daysLeft, ts, m.row.threshold);
  }

  /** Scan k found the certificate the mail is about, on the mail's HSM. */
  ghost predicate StemsFrom(ins: seq<Input>, ts: seq<int>, m: N.Mail, k: nat, o: Object) {
    && k < |ins| && Takes(ins[k]) && o in ins[k].report.inventory.value.objects
    && MailAbout(m, ins[k], o, ts, N.MaxDays(ts))
    && 1 <= m.row.hsmID && IsHsmOf(Run(ins).hsms, m.row.hsmID - 1, ins[k])
  }

  /** Every mail of a run is about a certificate some accepted scan found, as it
      found it, and under that scan's HSM. */
  lemma MailMeaning(ins: seq<Input>, ts: seq<int>, m: N.Mail)
    requires m in Reminders(ins, ts).mails
    ensures IsWindow(N.MaxDays(ts), ts) && exists k: nat, o :: StemsFrom(ins, ts, m, k, o)
  {
    hide Reminders, AllNotices, N.RowFor, StemsFrom;
    RemindersAreNotices(ins, ts);
    var ns := AllNotices(ins, ts);
    N.MailComesFrom({}, ns, m);
    var i :| 0 <= i < |ns| && N.RowFor(ns[i]) == Some(m.row) && m.cert == ns[i].cert;
    var k, e := NoticeIsReported(ins, ts, ns[i]);
    ReportedMail(ins, ts, m, k, e);
  }

  lemma ReportedMail(ins: seq<Input>, ts: seq<int>, m: N.Mail, k: nat, e: C.Entry)
    requires Reported(ins, ts, k, e) && N.RowFor(NoticeOf(ins, ts, k, e)) == Some(m.row) && m.cert == AsCertInfo(e)
    ensures exists o :: StemsFrom(ins, ts, m, k, o)
  {
    hide HM.Describes, N.RowFor, Run, MailAbout, IsHsmOf;
    var inv, now := ins[k].report.inventory.value, ins[k].now;
    HM.MonitorEntries(inv, now, N.MaxDays(ts), e);
    var o :| o in inv.objects && HM.Describes(inv.objects, now, N.MaxDays(ts), o, e);
    EntryMail(ins[k], e, o, ts, HsmOf(ins, k), m);
    HsmStays(ins, k, |ins|);
    assert ins[..|ins|] == ins;
    assert StemsFrom(ins, ts, m, k, o);
  }

  /** Conversely, what counts as shown: the certificates among a scan's objects
      that are expired or expire within the window. */
  lemma ReportedMeaning(ins: seq<Input>, ts: seq<int>, k: nat, e: C.Entry)
    requires k < |ins| && Takes(ins[k])
    ensures var x := ins[k];
            Reported(ins, ts, k, e)
            <==> && (exists o :: o in x.report.inventory.value.objects
                                 && HM.Describes(x.report.inventory.value.objects, x.now, N.MaxDays(ts), o, e))
                 && e.notAfter <= x.now + N.MaxDays(ts) * HM.DAY_NS
  {
    hide HM.Describes;
    var x := ins[k];
    HM.MonitorEntries(x.report.inventory.value, x.now, N.MaxDays(ts), e);
    if o :| o in x.report.inventory.value.objects
            && HM.Describes(x.report.inventory.value.objects, x.now, N.MaxDays(ts), o, e) {
      DescribedStatus(x.report.inventory.value.objects, x.now, N.MaxDays(ts), o, e);
    }
  }

  lemma DescribedStatus(objs: seq<Object>, now: int, w: int, o: Object, e: C.Entry)
    requires HM.Describes(objs, now, w, o, e) && w >= 0
    ensures !e.status.OK? <==> e.notAfter <= now + w * HM.DAY_NS
  {
  }
}
