# HSM Doctor: verified models

HSM Doctor scans PKCS#11 tokens, judges what it finds, and keeps a history of it. This project models the algorithms
behind the commands and proves what they are for. Each module models one part of the program; programs that change
state are classes and methods with loops, and each is proved against a specification function whose own properties are
the lemmas listed below.

* `LoginProtocol`, `BenchProtocol`, `BenchWindows`: the two concurrent protocols, as interleaved atomic steps of any number
  of sessions and workers. The token follows section 5.6 of the PKCS #11 Base Specification v2.40: one login per token,
  shared by all sessions of the application, lost with the last session.
* `Trace`, `KeyUsage`, `TraceLeaks`: the one-pass trace analysers.
* `Inventory`, `Snapshot`, `Regression`: what a scan sees, and the two comparisons of scans.
* `Store`, `History`, `HistoryRuns`: the tables, the persistence of one scan, and the events whole runs leave behind.
* `Policy`, `Evidence`, `Certmon`, `Doctor`: rules, scores, verdicts, certificate monitoring, issue lists.
* `Notify`, `ReminderRuns`: reminder mails, the ledger that limits them, and the reminders of whole server runs.
* `Cbom`, `CbomNames`, `CbomLinks`: the bill-of-materials builder, what its names stand for, and what they link.
* `Advisory`, `Shim`, `TracedKeys`, `Bytes`, `Fingerprint`, `SharedKeys`: versions, the tracing shim's encodings and how
  they meet the idle-key report, modulus normalisation and shared-key detection.
* `KeyUsageMeaning`, `TraceMeaning`, `SnapshotMeaning`, `PolicyMeaning`, `HistoryMeaning`, `ReminderMeaning`,
  `AdvisoryMeaning`, `ShimMeaning`, `SharedKeysMeaning`: the results of these in the words of their inputs alone (the
  calls of a trace, the fields of objects, the severities of findings), without the functions that compute them.
* `Seqs`, `Order`, `Decimal`, `Text`: sequences, stable sorting, numerals and strings.

`dafny verify dfyconfig.toml` checks everything.

Where the code does not do what it is meant to, the model follows the code and the exact condition is proved:

* `Session.Close` never clears `loginRef`, so a session can be closed again, after its first close or during it. Counts,
  logins and handles stay right, and other slots untouched, exactly if every step of the schedule is harmless
  (`RightExactly`); for one call, exactly if the reference has not been dropped yet or the slot has no count, and the
  handle has not been given up yet or nobody else has taken it over (`CloseIsRightExactly`). Otherwise a live session can
  lose its count (`DoubleCloseFails`), also when both calls begin before the session is closed (`OverlappingCloseFails`),
  or another slot its login although all counts are right (`ReusedHandleFails`).
* A `C_CloseAllSessions` in a trace, even one that failed, silences the session-leak check. The check is right exactly if
  there is none or no session is still open at the end (`SessionFindingsExactly`, `CloseAllHidesLeaks`).
* `itoa` renders the smallest 64-bit integer as a bare `-` and every other integer correctly (`Itoa`).
* Reminders are kept apart by label, not by certificate. A reported certificate gets a mail of its own exactly if the first
  certificate ever reported on its HSM with its label (or subject) and bucket is this one (`CertificateMailedExactly`);
  all of them do exactly if no two different ones share these (`CertificatesMailedExactly`, `SharedLabelLosesMail`).
* A reminder is entered in the ledger before it is delivered, so it is lost exactly if its first hand-over to the mailer
  fails (`DeliveredExactly`).
* If all configured reminder thresholds are negative, a certificate that expired less than a day ago gets no reminder
  (`ReportedCertificatesGetBucket`, `NegativeThresholdsMissOne`).
* Algorithms are registered in the bill of materials by name alone. An algorithm reference names a component with the
  parameters, curve and flag it was made from exactly if it was the first registration under that name
  (`CarriedExactly`); of two DSA keys of different sizes the second loses its size (`SecondDsaSizeIsLost`), and a
  certificate whose algorithms crypto/x509 does not know has no signature algorithm (`UnknownSignatureIsLost`).
* References of keys and certificates can coincide in the bill of materials (`RefsDistinctExactly`, `KeysCanClash`).
* The quantum-vulnerable flag of a token key is right exactly if the key type is RSA, DSA, DH or EC, or is not broken by
  Shor's algorithm. So it is wrong for CKK_X9_42_DH, CKK_KEA, CKK_GOSTR3410, CKK_EC_EDWARDS and CKK_EC_MONTGOMERY, for
  which the collector has no name, and for every vendor-defined type that is broken (`KeyFlaggedExactly`,
  `VendorKeyIsNotFlagged`); of the certificate keys crypto/x509 knows, Ed25519 is the one not flagged
  (`CertKeyFlaggedExactly`, `EdwardsKeysAreNotFlagged`).
* A version component too large for an int silently cuts the version short there (`ReadsBackExactly`,
  `LargeComponentCutsVersion`).
* A scan is compared with the scan of latest time, not with the scan stored before it; the two coincide exactly when no
  still earlier scan of the HSM carries a later time (`ComparedWithPredecessor`, `LateScanHidesDrift`).
* Key IDs longer than 64 bytes are traced under their first 64 bytes, so a key searched for by its ID counts as used
  exactly for IDs up to 64 bytes (`SearchNamesKey`, `FoundKeyExactly`, `LongIdIsReportedIdle`).

One result rests on what callers pass: the bill of materials is built of inventories the collector has made, and on these
every reference resolves (`CollectedResolves`). The exported method takes any inventory; there a certificate whose key
algorithm is only white space leaves a dependency on the empty name, and nothing else does (`ResolvesUnlessBlank`).

## Model

| member | source | states |
|---|---|---|
| LoginProtocol.LoginCountIsExact | internal/p11/session.go:28-73 | In every interleaving that closes each session at most once, a slot's count is the number of its counted, unreleased sessions, no stored count is below one, a counted slot is logged in on the token, and no step ever touches another slot |
| LoginProtocol.FreeMutexMeaning | internal/p11/session.go:42-73 | While the mutex is free the counted sessions are exactly the returned ones that logged in and that no Close has got the mutex for |
| LoginProtocol.StepKeepsInv | internal/p11/session.go:28-73 | Every harmless atomic step, of a repeated or overlapping close too, keeps counts, logins, handle ownership and mutual exclusion |
| LoginProtocol.RunKeepsInv | internal/p11/session.go:28-73 | Every schedule that closes each session at most once consists of harmless steps and keeps all that |
| LoginProtocol.OtherSlotsUndisturbed | internal/p11/session.go:62-73 | A harmless step of a session on one slot changes neither count nor login nor handles of another slot |
| LoginProtocol.ReleaseKeepsCounts | internal/p11/session.go:62-70 | Dropping a reference keeps every count right if and only if it was still held or the slot has no count |
| LoginProtocol.CountExactIffGuarded | internal/p11/session.go:62-73 | The counts alone are right in all states of a schedule if and only if each dropped reference was still held or its slot had no count; logins are not covered |
| LoginProtocol.DoubleCloseFails | internal/p11/session.go:62-73 | A concrete schedule with a double close after which a live logged-in session is not counted |
| LoginProtocol.HarmfulBreaks | internal/p11/session.go:62-73 | A step that is not harmless breaks a count, a handle or another slot at once |
| LoginProtocol.RightExactly | internal/p11/session.go:62-73 | For every schedule, with sessions closed any number of times, one call after another or at once: counts, logins and handles are right in all its states and no step touches another slot, if and only if every step is harmless |
| LoginProtocol.CloseIsRightExactly | internal/p11/session.go:62-73 | Whatever the token answers, one uninterrupted close, of whatever session and with whatever other calls under way, keeps all that if and only if its reference was not dropped yet or its slot has no count, and it was not closed yet or its handle is not in use by another session or slot |
| LoginProtocol.ReusedHandleFails | internal/p11/session.go:62-73 | A concrete schedule: a closed session's handle is reused on another slot and the session is closed again; all counts are right and the other slot is logged out under its live session |
| LoginProtocol.OverlappingCloseFails | internal/p11/session.go:62-73 | A concrete schedule: two calls close one live session at the same time, and the other session of the slot loses its count and its login |
| LoginProtocol.CountedHasHandle | internal/p11/session.go:49-56 | A counted slot has a session not yet closed that owns a handle there, so the token keeps it logged in |
| LoginProtocol.CloseMeaning | internal/p11/session.go:62-73 | What a whole close changes, in plain words: one off the count, a logout with the last one, the handle given up |
| LoginProtocol.NobodyLeftLoggedIn | internal/p11/session.go:28-73 | In every interleaving that closes each session at most once, the token is logged in nowhere once all handles are closed |
| LoginProtocol.Client.OpenSession | internal/p11/session.go:28-58 | An uninterrupted call is one of the schedules; its result, count, handle and login are as stated, and nothing stays behind when the login is refused |
| LoginProtocol.Client.Close | internal/p11/session.go:62-73 | An uninterrupted close, of a live or an already closed session and for any answers of the token, is the stated sequence of steps with the stated result; it keeps everything right if the caller may close |
| BenchProtocol.Normalize | internal/bench/bench.go:35-55 | Unset options get the defaults, excessive ones are clamped, options within the limits stay as they are |
| BenchProtocol.BudgetIsConserved | internal/bench/bench.go:106-173 | For any workers, interleaving and clock: done + in flight + failed is the part of the maximum taken from the budget, and never exceeds the maximum; the budget falls below zero by at most one per worker |
| BenchProtocol.RunsAreBounded | internal/bench/bench.go:146-173 | Every schedule has at most 6 steps per worker plus 4 per operation, whatever the clock says |
| BenchProtocol.NobodyBlocks | internal/bench/bench.go:115-127 | An unfinished worker can always step; a failed one never waits for the error channel |
| BenchProtocol.FinalTally | internal/bench/bench.go:106-141 | When all workers have returned every granted operation was done or failed, a refusal without failed operations means the maximum was reached, and an error is pending exactly if a worker failed |
| BenchProtocol.StampIsFinal | internal/bench/bench.go:159-161 | The start stamp never changes once set |
| BenchProtocol.StepDescends | internal/bench/bench.go:146-173 | Each step brings the run strictly closer to its end |
| BenchWindows.Limits | internal/bench/bench.go:19-55 | The limits and defaults in numbers |
| BenchWindows.WorksInsideWindow | internal/bench/bench.go:159-171 | In every schedule a worker takes, runs and counts an operation only if its last clock reading was before its own stamp plus the window |
| BenchWindows.TimedOutExactly | internal/bench/bench.go:159-173 | A worker has timed out if and only if the last thing it did was to read a clock that had reached its own stamp plus the window |
| BenchWindows.AllOperationsDone | internal/bench/bench.go:106-173 | If nothing fails and no reading comes too late, one or more finished workers have done the maximum exactly |
| BenchWindows.Counters | internal/bench/bench.go:106-173 | The done counter is the number of counted operations, the budget the maximum less the claims, the start the first stamp that is not zero, the channel the senders in order |
| BenchWindows.ClaimsGrantedExactly | internal/bench/bench.go:164-166 | The k-th claim of a schedule is granted if and only if fewer than the maximum came before it |
| KeyUsage.BindingIsLatest | internal/trace/keys.go:113-160 | The identity in force for a session and handle is that of the latest named find binding, and there is none if nothing ever bound it |
| KeyUsage.KeyUsageOf | internal/trace/keys.go:102-202 | One pass with the four maps, ranged over in any order, and a sort give the report that the attributed records determine |
| KeyUsage.ReportUnique | internal/trace/keys.go:162-202 | There is only one such report, order of entries and of mechanisms included |
| KeyUsage.ReportIgnoresInterleaving | internal/trace/keys.go:102-202 | Two recordings with the same calls on each session, interleaved and numbered as they may be, give the identical report |
| KeyUsage.TotalsAddUp | internal/trace/keys.go:113-186 | Every operation-init event with a handle is counted in exactly one entry: the totals add up to their number |
| KeyUsage.IdleKeys | internal/trace/keys.go:59-81 | The idle keys are exactly the candidates whose ID and label match no resolved key, in their order |
| KeyUsage.UsedMeansOperated | internal/trace/keys.go:59-81 | A candidate counts as used exactly when some operation of the trace was attributed to an identity with its ID or label |
| KeyUsageMeaning.BindingIsNamedBy | internal/trace/keys.go:113-160 | At any event a handle is bound to a label and ID if and only if the last find of the handle on the session belonged to a search for them, the latest begun before it |
| KeyUsageMeaning.EntriesMeaning | internal/trace/keys.go:7-14 | A key has an entry if and only if some C_SignInit, C_VerifyInit, C_EncryptInit, C_DecryptInit, C_WrapKey or C_UnwrapKey used it, and only one; its count for a function is the number of those calls |
| KeyUsageMeaning.EntryTotals | internal/trace/keys.go:162-182 | An entry total is the number of all uses of its key; its mechanisms are those some use named, each once and ascending |
| KeyUsageMeaning.TotalsAreUses | internal/trace/keys.go:133-182 | The totals add up to the number of calls of these six functions that carry a handle; the unresolved number is that of the entries without a name |
| KeyUsageMeaning.EntriesInOrder | internal/trace/keys.go:187-201 | Named keys come first, by label and then ID, then handles by number |
| KeyUsageMeaning.IdleMeaning | internal/trace/keys.go:59-81 | A candidate counts as used if and only if some call used a key with its non-empty ID or label |
| TraceLeaks.StandingIsDangling | internal/trace/analyze.go:110-199 | Something stands on a session exactly when its last relevant event is a beginning, and that event is reported |
| TraceLeaks.LeaksAreExactly | internal/trace/analyze.go:110-199 | One finding for each session with something standing, none else, in ascending order |
| TraceLeaks.LeaksIgnoreInterleaving | internal/trace/analyze.go:110-199 | Two recordings with the same calls on each session, interleaved and numbered as they may be, report the same sessions, and of each session the same call |
| TraceLeaks.FindingIsCall | internal/trace/analyze.go:110-199 | A finding carries the sequence number of its session's last standing call |
| TraceLeaks.OperationLeaksIgnoreInterleaving | internal/trace/analyze.go:164-199 | The same for every operation pair, the findings being about the same pairs in the same order |
| TraceLeaks.CheckSessionLeaks | internal/trace/analyze.go:110-146 | The one-pass check finds the sessions whose last successful open or any close is an open, and nothing once C_CloseAllSessions was called |
| TraceLeaks.SessionFindingsIgnoreInterleaving | internal/trace/analyze.go:110-146 | For two recordings with the same calls on each session, interleaved and numbered as they may be, C_CloseAllSessions occurs in both or neither, and the check finds the same sessions and of each the same call |
| TraceLeaks.OpenNumbersMeaning | internal/trace/analyze.go:109-146 | The numbers that should be reported are those of the opens that no later event of the session and no later successful C_CloseAllSessions undid |
| TraceLeaks.SessionFindingsExactly | internal/trace/analyze.go:109-146 | The check reports exactly these if and only if C_CloseAllSessions was never called or nothing is still open |
| TraceLeaks.CloseAllHidesLeaks | internal/trace/analyze.go:124-131 | Concrete traces: a session opened after a C_CloseAllSessions, or before one that failed, is still open and not reported |
| TraceLeaks.CheckOperationPairs | internal/trace/analyze.go:164-199 | Pair by pair, the one-pass check finds exactly the unterminated operations |
| TraceMeaning.SessionMeaning | internal/trace/analyze.go:176-180 | A call that names no session is put down to session 0 |
| TraceMeaning.SessionFindingsMeaning | internal/trace/analyze.go:110-146 | Without a C_CloseAllSessions the findings are exactly the successful C_OpenSession calls after which the session was neither closed nor opened again successfully, ascending; with one there are none |
| TraceMeaning.OperationFindingsMeaning | internal/trace/analyze.go:149-199 | For each of the six functions that begin an operation exactly its successful calls that no listed terminator and no further successful call of it on the session followed |
| TraceMeaning.OperationFindingsInOrder | internal/trace/analyze.go:164-199 | The findings come operation by operation in the fixed order, and for each in ascending order |
| Snapshot.ObjectKeyInjective | internal/snapshot/diff.go:48-50 | Class and ID without NUL bytes make the key injective even for labels that contain them |
| Snapshot.Compare | internal/snapshot/diff.go:65-211 | The map-filling, appending program computes the diff function |
| Snapshot.DiffIgnoresOrder | internal/snapshot/diff.go:65-165 | Any permutation of objects and mechanisms of either inventory gives the same diff |
| Snapshot.DiffMirrors | internal/snapshot/diff.go:65-211 | Comparing the other way round gives the diff with added and removed, old and new exchanged |
| Snapshot.DiffConserves | internal/snapshot/diff.go:116-165 | Added minus removed objects is the difference of the inventories' sizes |
| Snapshot.EmptyExactly | internal/snapshot/diff.go:34-45 | The diff is empty if and only if the compared token fields, the mechanism name sets, the multisets of object keys and the compared attributes of uniquely keyed objects agree |
| Snapshot.SameAttrsIffNoChange | internal/snapshot/diff.go:175-211 | No attribute change is reported if and only if every compared attribute agrees |
| Snapshot.CompareObjects | internal/snapshot/diff.go:116-165 | The keyed loops list additions, removals and changes key by key in ascending key order |
| SnapshotMeaning.MechanismsMeaning | internal/snapshot/diff.go:88-114 | A mechanism is listed as added if and only if only the new inventory has it, as removed if and only if only the old one has it, both lists strictly ascending |
| SnapshotMeaning.TokenChangesMeaning | internal/snapshot/diff.go:67-86 | A token change is listed if and only if both tokens are known and that named field differs, the old token's value first |
| SnapshotMeaning.ObjectsMeaning | internal/snapshot/diff.go:116-165 | An object is listed as added if and only if the new inventory has one more of its class, label and ID than the old, marked as duplicate if the old has any; removals the other way round |
| SnapshotMeaning.ObjectChangesMeaning | internal/snapshot/diff.go:175-211 | An attribute change is listed if and only if the only objects of both inventories with a class, label and ID differ in that named attribute, the old value first |
| SnapshotMeaning.ObjectsInOrder | internal/snapshot/diff.go:138-143 | Added and removed objects are in ascending order of class, label and ID |
| SnapshotMeaning.RefMeaning | internal/snapshot/diff.go:53-62 | The text an object is listed under, for each combination of label and ID |
| Regression.Detect | internal/regression/regression.go:43-81 | A regression is reported exactly when the score fell by the threshold or a rule became severe, with the list of such rules |
| Regression.QuotedAreListed | internal/regression/regression.go:53-78 | That list has one entry for each rule severe now and not before, in ID order, quoting its first severe finding |
| Regression.ListedAreQuoted | internal/regression/regression.go:53-78 | Any list meeting that description is this one, so collection order is immaterial |
| Store.LatestIsNewest | internal/store/sqlite.go:302-319 | The latest scan is the newest of its HSM, the later row winning ties; none exactly if there is no scan |
| Store.Store.LatestScan | internal/store/sqlite.go:302-319 | The row loop returns that scan |
| Store.Store.UpsertHSM | internal/store/sqlite.go:163-184 | Inserts or refreshes the row with this serial and source, keeps them unique, returns its ID |
| Store.Store.InsertScan | internal/store/sqlite.go:239-250 | Appends the row under the next ID |
| Store.Store.InsertDriftEvent | internal/store/sqlite.go:387-396 | Appends the event under the next ID |
| Store.Store.InsertRegressionEvent | internal/store/sqlite.go:423-432 | Appends the event under the next ID |
| Store.Store.MarkNotified | internal/store/sqlite.go:371-385 | Answers fresh exactly the first time and records the row |
| HistoryRuns.UpsertKeeps | internal/store/sqlite.go:163-184 | An upsert keeps IDs, first sightings and all other rows |
| History.CountSeverities | internal/server/history.go:242-253 | The severity columns count the findings of each severity |
| History.Server.PersistScan | internal/server/history.go:193-307 | One scan: reports without serial change nothing; otherwise the HSM is upserted, due reminders are handed to the mailer, the scan is stored, and at most one regression and one drift event follow from the comparison with the latest earlier scan |
| History.Server.CheckRegression | internal/server/history.go:313-348 | At most one regression event, as the comparison says |
| History.Server.NotifyCertExpiry | internal/server/history.go:353-370 | The notifier is asked about exactly the certificates that are not OK within its widest threshold |
| History.Server.StoreAndCompare | internal/server/history.go:224-307 | The comparison partner is the scan that was latest before this one was stored |
| HistoryRuns.RunKeepsInv | internal/server/history.go:193-348 | Over any run the scan rows are the accepted reports in order, two rows share an HSM exactly if serial and source agree, and the events are exactly those of the compared pairs, in order, with matching columns |
| HistoryRuns.DriftHistory | internal/server/history.go:256-300 | Over any run drift events link exactly the compared scans that differ in something tracked |
| HistoryRuns.RegressionHistory | internal/server/history.go:313-348 | Over any run regression events link exactly the compared scans between which the score fell by the threshold or a rule became severe |
| HistoryRuns.ComparedWithPredecessor | internal/store/sqlite.go:302-319 | A scan is compared with its HSM's previous scan if and only if no still earlier scan carries a later time |
| HistoryRuns.LateScanHidesDrift | internal/store/sqlite.go:302-319 | Concrete scans: the second is older than the first; the third differs from it, and no drift event ends there |
| HistoryRuns.EventsLinkSuccessiveScans | internal/server/history.go:193-348 | If the times of a scan's own HSM have not gone back before it, an event ends at the scan exactly if it differs from, or is worse than, the scan of the HSM just before; the first scan has none |
| HistoryRuns.OneEventPerScan | internal/server/history.go:193-348 | Each scan ends at most one event of each kind; events are in scan order |
| ReminderRuns.EveryWarnedRefMailedOnce | internal/server/history.go:353-370 | Over any run with a threshold that is not negative, whenever a scan showed a certificate as expired or expiring, exactly one mail was handed to the mailer for its ref and bucket, be it about this certificate or another with that ref |
| ReminderRuns.CertificateMailedExactly | internal/server/history.go:353-370 | A certificate so shown gets a mail of its own if and only if the first certificate the history ever shows with its HSM, ref and bucket is this one |
| ReminderRuns.CertificatesMailedExactly | internal/server/history.go:353-370 | All certificates so shown get a mail of their own if and only if no two different certificates of one HSM, in whatever scans, were shown with the same ref and bucket |
| HistoryMeaning.RegressionMeaning | internal/regression/regression.go:43-81 | A regression is reported if and only if the score fell by the threshold, 10 by default, or a rule became critical or high; it carries the change of the score, whether it fell that far, and the first such finding of each such rule, in strictly ascending ID order |
| HistoryMeaning.StoredMeaning | internal/server/history.go:193-202 | A report is stored if and only if it has a token with a serial number |
| HistoryMeaning.ScanRowMeaning | internal/server/history.go:228-252 | Each stored row carries the time and score of its report, the numbers of its critical, high, medium and low findings, and the HSM row of its serial and source |
| HistoryMeaning.DriftEventMeaning | internal/server/history.go:256-300 | A drift event carries the difference from the compared scan to its own, its size, and its own scan's HSM |
| HistoryMeaning.RegressionEventMeaning | internal/server/history.go:313-348 | A regression event carries the comparison with the compared scan under the default threshold, and its own scan's HSM |
| HistoryMeaning.MonitorMeaning | internal/certmon/certmon.go:40-110 | The monitor has one entry for each certificate object: its names, whether it expired or expires within the window in days of 24 hours, the whole days left, and each warning under its own condition; by expiry, ties in inventory order |
| ReminderMeaning.MailMeaning | internal/notify/notifier.go:127-170 | Every mail of a run is about a certificate some scan found on that HSM, expired or within the window, filed under its label or else its subject and the threshold it has reached |
| ReminderMeaning.ReportedMeaning | internal/server/history.go:353-370 | A certificate counts as shown if and only if the scan holds it and it is expired or expires within the widest threshold |
| ReminderMeaning.DefaultThresholds | internal/notify/notify.go:106-112 | Without thresholds of its own the notifier uses 30, 14 and 1 days |
| Policy.IndexesAgree | internal/policy/eval.go:75-152 | For every object the indexed orphan, duplicate-label and key-mismatch answers are the quantified ones |
| Policy.DuplicateMeansAnother | internal/policy/eval.go:126-131 | A label is duplicate exactly if another object of the class carries it |
| Policy.BuildFacts | internal/policy/eval.go:75-102 | One pass fills the three indexes with what the objects say |
| Policy.Evaluate | internal/policy/eval.go:156-195 | The result is the scored, severity-sorted list of all findings of all rules |
| Policy.EvalMechanismRule | internal/policy/eval.go:197-238 | any_of fires if one listed mechanism is available, missing if none is |
| Policy.ScoredMeaning | internal/policy/eval.go:182-194 | Nothing is lost, the most severe come first, findings of one severity keep their order, and the score is the total penalty taken from 100, not below 0 |
| Policy.Result.AddFindings | internal/policy/eval.go:38-53 | Appends, sorts stably and rescores in place; an empty batch changes nothing |
| Policy.BatchesDoNotMatter | internal/policy/eval.go:38-53 | Any split of extra findings into successive calls gives the result of one evaluation of the whole concatenation |
| Policy.PenaltyPermutes | internal/policy/policy.go:142-154 | The total penalty depends on the multiset of findings only |
| Policy.Merge | internal/policy/policy.go:175-198 | Merging succeeds exactly if there is a rule and no rule ID occurs twice; it keeps all rules in order and the first scoring section |
| Evidence.VerdictsAddUp | internal/evidence/evidence.go:79-121 | Passed, failed and not applicable add up to the number of rules |
| Evidence.FindingMeansApplicable | internal/evidence/evidence.go:127-141 | A rule with a finding is applicable |
| Evidence.ViolationsAreRuleFindings | internal/evidence/evidence.go:79-121 | With unique IDs the violations of a control are its rule's findings in their order |
| Evidence.ViolationsPartition | internal/evidence/evidence.go:79-121 | With unique IDs the violations of all controls are a rearrangement of all findings |
| Evidence.CaseOrderIsImmaterial | internal/evidence/evidence.go:79-121 | Asking for applicability before violations gives the same verdicts |
| Evidence.BuildPack | internal/evidence/evidence.go:79-121 | The map and counter loops build that pack |
| Certmon.Classify | internal/certmon/certmon.go:42-83 | The loop over the inventory computes the sorted list of classified certificates |
| Certmon.EntriesMeaning | internal/certmon/certmon.go:56-82 | Every certificate is listed once, in the order of expiry |
| Certmon.WarningsMeaning | internal/certmon/certmon.go:86-110 | Each warning is given exactly under its condition, at most once, in a fixed order |
| Certmon.MonitorAgreesWithPolicy | internal/certmon/certmon.go:44-105 | The monitor's mismatch warning, from its own index, fires exactly where the policy's predicate does |
| PolicyMeaning.MostSevereFirst | internal/policy/eval.go:182-184 | No finding stands behind a less severe one (critical, high, medium, low, info); those of one severity keep their order; none is lost |
| PolicyMeaning.MergedIsOrdered | internal/policy/eval.go:38-53 | The same after merging further findings |
| PolicyMeaning.ScoreMeaning | internal/policy/policy.go:126-154 | The score is 100 less the penalties of the critical, high, medium and low findings, 25, 10, 5 and 2 by default, and not below 0 |
| PolicyMeaning.FindingsMeaning | internal/policy/eval.go:156-238 | The findings are exactly those some rule raises: on each object it matches, with orphans, duplicate labels and key mismatches spelled out, or on the token for its mechanisms |
| PolicyMeaning.FindingsPerRule | internal/policy/eval.go:156-180 | With unique IDs a rule has one finding for each object it matches, or one if it is about the token |
| PolicyMeaning.ControlMeaning | internal/evidence/evidence.go:79-145 | A control failed if and only if its rule raises something, was not applicable if and only if there was nothing to check, and passed otherwise; the three numbers count them |
| Doctor.SortIssues | internal/doctor/doctor.go:185-193 | The insertion loop leaves the stable severity sort of the slice in place |
| Doctor.SortedIssues | internal/doctor/doctor.go:185-193 | That is a rearrangement, most severe first, ties in their original order |
| PolicyMeaning.IssuesMostSevereFirst | internal/doctor/doctor.go:185-193 | In the sorted issues none stands behind a less severe one, and those of one severity keep their order |
| Doctor.Itoa | internal/doctor/doctor.go:222-242 | Twenty bytes suffice; the numeral is right if and only if the integer is not the minimum |
| Notify.BucketExactly | internal/notify/notifier.go:172-191 | The bucket is the smallest threshold not below the days left, or the smallest of all once expired |
| Notify.CrossedThreshold | internal/notify/notifier.go:175-191 | The loop over the descending thresholds finds that bucket |
| Notify.BucketTightens | internal/notify/notifier.go:172-191 | Fewer days left never give a larger bucket |
| Notify.MaxWarnDays | internal/notify/notifier.go:70-81 | The largest threshold, not below zero |
| Notify.ReportedCertificatesGetBucket | internal/notify/notifier.go:172-191 | Every certificate that is not OK within the widest threshold has a bucket if and only if some threshold is not negative |
| Notify.NegativeThresholdsMissOne | internal/notify/notifier.go:172-191 | Concrete values: with the threshold -1 a certificate that has just expired is shown as expired and has no bucket |
| Notify.AtMostOneMail | internal/notify/notifier.go:127-170 | Over any run, whatever the ledger fails at, for each HSM, ref and threshold at most one mail is handed to the mailer, and none if it was known |
| Notify.ExactlyOneMail | internal/notify/notifier.go:127-170 | With a fault-free ledger exactly one as soon as a notice falls in the bucket |
| Notify.MailsPerRef | internal/notify/notifier.go:127-170 | One ref of an HSM causes at most as many mails as there are distinct thresholds |
| Notify.OwnMailExactly | internal/notify/notifier.go:135-155 | A notice hands over a mail about its own certificate if and only if the ledger does not fail, did not know the row and no earlier notice, about whatever certificate, recorded it |
| Notify.MailIsAboutFirst | internal/notify/notifier.go:135-155 | The one mail for an HSM, ref and threshold is about the certificate of the first notice that got it into the ledger, whatever comes before and after; there is none if it was known |
| Notify.DeliveredExactly | internal/notify/notifier.go:144-168 | It is delivered if and only if that first hand-over to the mailer succeeds: later notices never repeat it |
| Notify.EveryCertificateMailedExactly | internal/notify/notifier.go:135-155 | Without faults every certificate with a bucket gets a mail of its own if and only if no row was known and no two different certificates of one HSM share ref and bucket |
| Notify.SharedLabelLosesMail | internal/notify/notifier.go:140-155 | Concrete notices: of two certificates under one label in one bucket the second is never announced |
| Notify.Notifier.NotifyCertExpiry | internal/notify/notifier.go:127-170 | The loop hands over and records exactly what the run of its notices says; the thresholds are only rearranged |
| Cbom.BuildCbom | internal/report/cbom.go:42-59 | The two passes of the builder compute the document |
| Cbom.CbomBuilder.AddKey | internal/report/cbom.go:77-111 | Adds the key component after its algorithm, and its dependency |
| Cbom.CbomBuilder.AddCertificate | internal/report/cbom.go:116-161 | Adds the certificate component after its algorithms, and its dependency |
| Cbom.CbomBuilder.Register | internal/report/cbom.go:165-222 | Registers an algorithm the first time its name occurs, and returns its reference every time |
| Cbom.KeyKeepsInv | internal/report/cbom.go:77-111 | After adding a key each algorithm name still has exactly one component and every component names earlier components only |
| Cbom.CertificateKeepsInv | internal/report/cbom.go:116-161 | The same after adding a certificate |
| Cbom.BomKeepsInv | internal/report/cbom.go:42-59 | So in the finished document every reference in a component resolves to an earlier component |
| Cbom.ResolvesUnlessBlank | internal/report/cbom.go:116-161 | All dependencies resolve, and are exactly what the components name, if and only if no certificate without its key on the token has a key algorithm of white space only |
| Cbom.CollectedResolves | internal/inventory/collect.go:205-220 | On every inventory whose certificates have no key algorithm or one of crypto/x509's names, which is what the collector writes, all dependencies resolve and are exactly what the components name |
| Cbom.IndexMeaning | internal/report/cbom.go:43-52 | The fingerprint index knows exactly the public keys of key objects |
| Cbom.BomLists | internal/report/cbom.go:42-59 | Beside algorithms the document lists each key object and then each certificate, once and in order, each key naming its algorithm by the name of its type, curve and size |
| Cbom.IdentityOf | internal/report/cbom.go:268-308 | An algorithm has an empty name exactly if the key type is blank |
| Cbom.VulnerableExactly | internal/report/cbom.go:268-308 | The flagged key algorithms are RSA, EC, ECDSA, DSA and DH |
| Cbom.KeyFlaggedExactly | internal/inventory/collect.go:19-45 | For every key type code, a vendor's too, under the collector's name for it and for any truth about vendors' types: the flag says whether Shor's algorithm breaks it if and only if it is RSA, DSA, DH or EC or is not broken; below the vendors' range this fails for exactly five types |
| Cbom.VendorKeyIsNotFlagged | internal/inventory/collect.go:40-45 | Concrete code: a broken vendor-defined type is not flagged |
| Cbom.CertKeyFlaggedExactly | internal/report/cbom.go:268-308 | Of the certificate key algorithms crypto/x509 knows, all broken, exactly Ed25519 is not flagged; unknown ones are not flagged |
| Cbom.SignaturesAreFlagged | internal/report/cbom.go:326-335 | All signature algorithms crypto/x509 knows, all broken, are flagged |
| Cbom.EdwardsKeysAreNotFlagged | internal/report/cbom.go:264-335 | Concrete names: an Ed25519 certificate key and a CKK_EC_EDWARDS token key are not flagged, an Ed25519 signature is |
| CbomNames.CarriedExactly | internal/report/cbom.go:165-222 | For every inventory, a reference names an algorithm component with the primitive, parameters, curve and flag it was made from if and only if that was the first registration under the name |
| CbomNames.AllCarriedExactly | internal/report/cbom.go:165-222 | All references do if and only if no two keys or certificates share an algorithm name and differ otherwise |
| CbomNames.SecondDsaSizeIsLost | internal/report/cbom.go:281-282 | Concrete keys: two DSA keys of different sizes refer to one component with the size of the first |
| CbomNames.UnknownSignatureIsLost | internal/report/cbom.go:131-144 | A concrete certificate: with both algorithms unknown to crypto/x509 its signature reference names the component of the key algorithm |
| CbomNames.RefsDistinctExactly | internal/report/cbom.go:82-118 | For every inventory, all references of the document are distinct if and only if no two keys of one class and no two certificates, at least one of the two with an identifier of its own, go by the same name |
| CbomNames.PlacesAre | internal/report/cbom.go:82-118 | A key or certificate without identifiers goes by the number of keys and certificates listed before it plus that of their distinct algorithm names |
| CbomNames.KeysCanClash | internal/report/cbom.go:82-83 | Concrete keys: two with the same ID, or a nameless first one beside one labelled 0, share a reference |
| CbomLinks.CertificateNamesItsKey | internal/report/cbom.go:46-48 | A certificate whose public key is on the token names, in its own fields and in its dependency, the component of the last key object with its fingerprint, and that component is this key |
| CbomLinks.CertificateNamesAlgorithm | internal/report/cbom.go:134-144 | Any other certificate names the algorithm of its key, if it says one |
| CbomLinks.TypeNames | internal/inventory/collect.go:19-45 | The sixteen key type names, and hexadecimal for every other code |
| CbomLinks.RsaIdentity | internal/report/cbom.go:273-279 | RSA of n bits is RSA-n, a public-key encryption with parameter n, vulnerable |
| CbomLinks.EcIdentity | internal/report/cbom.go:280-285 | EC and ECDSA on a curve are EC-curve, a vulnerable signature with the curve as parameter |
| CbomLinks.DhIdentity | internal/report/cbom.go:286-289 | DSA and DH keep their size as a parameter only and are vulnerable |
| CbomLinks.AesIdentity | internal/report/cbom.go:290-295 | AES of n bits is AES-n, a block cipher of level 1, 3 or 5 for 128, 192 or 256 bits, not vulnerable |
| CbomLinks.OtherIdentities | internal/report/cbom.go:296-304 | Post-quantum keys and DES keep their names, and are not vulnerable |
| CbomLinks.SignatureIdentityMeaning | internal/report/cbom.go:197-222 | A signature algorithm is registered under its own name, with primitive signature |
| CbomLinks.OtherSignatures | internal/report/cbom.go:326-335 | Post-quantum and unnamed signature algorithms are not flagged |
| Advisory.ParseVersion | internal/advisory/advisory.go:138-159 | The index loops compute the numbers of the version part, up to the first that does not fit |
| Advisory.ParseReadsBack | internal/advisory/advisory.go:136-159 | A dotted list printed after a digit-free prefix and before a suffix that starts with neither digit nor dot is read back up to its first component too large for an int |
| Advisory.ReadsBackExactly | internal/advisory/advisory.go:136-159 | It is read back whole if and only if all components fit |
| Advisory.LargeComponentCutsVersion | internal/advisory/advisory.go:136-159 | A concrete version: three components of which the second is just too large are read back as one |
| Advisory.CompareVersions | internal/advisory/advisory.go:164-185 | The padded loop computes the comparison; it fails exactly if a version has no number |
| Advisory.CompareMeaning | internal/advisory/advisory.go:164-185 | -1, 0, 1 for smaller, equal and larger at the first difference, missing components being zero |
| Advisory.CompareSwaps | internal/advisory/advisory.go:164-185 | Exchanging the versions exchanges the sign |
| Advisory.CompareTransitive | internal/advisory/advisory.go:164-185 | The order is transitive, and equal only through equals |
| Advisory.EqualUpToZeros | internal/advisory/advisory.go:164-185 | Versions compare equal if and only if they agree up to trailing zeros |
| Advisory.Evaluate | internal/advisory/advisory.go:89-130 | One finding for each advisory that applies, in feed order |
| Advisory.RangeIsConvex | internal/advisory/advisory.go:110-118 | A version between two affected ones is affected |
| Advisory.EqualVersionsAgree | internal/advisory/advisory.go:110-118 | Versions that compare equal get the same verdict |
| Advisory.RangeIsEmptyExactly | internal/advisory/advisory.go:110-118 | An advisory can affect some version if and only if its bounds make a range |
| AdvisoryMeaning.FindingsMeaning | internal/advisory/advisory.go:89-130 | The findings are exactly those of the advisories whose component, manufacturer, model and range hit the library, or the token's firmware if there is a token, with the reference as rendered |
| AdvisoryMeaning.AffectedMeaning | internal/advisory/advisory.go:110-118 | A version is affected if and only if it is lower than the fixed one at their first difference, and not lower than the introducing one if there is one, as far as all have numbers |
| AdvisoryMeaning.FoldMeaning | internal/advisory/advisory.go:132-134 | Manufacturer and model are matched anywhere in the name, ASCII letters of either case |
| AdvisoryMeaning.VendorVersion | internal/advisory/advisory.go:136-159 | FW 6.24.7-3 is read as 6, 24, 7 |
| AdvisoryMeaning.TrimMeaning | internal/advisory/advisory.go:123-123 | Trimming takes all white space off both ends and nothing else |
| Shim.FindIdentity | shim/shim.c:81-109 | For any template both buffers end NUL-terminated within their bounds, holding the start of the last usable label and the lower-case hex of the start of the last usable CKA_ID |
| Shim.SearchIdentity | shim/shim.c:216-223 | The event carries them, or nothing where they are empty |
| Shim.DecodeHex | shim/shim.c:99-106 | Decoding the hex gives the bytes back |
| Shim.HexInjective | shim/shim.c:99-106 | Different bytes have different hex |
| Shim.SearchNamesKey | shim/shim.c:81-109 | A search is reported under a key's inventory ID if and only if that key's CKA_ID is the searched one cut after 64 bytes; it is reported whole if and only if it has at most 64 |
| TracedKeys.FindBinds | internal/trace/keys.go:118-134 | A traced search and the find after it on the session tie the handle to the searched label and ID, whatever other sessions do meanwhile |
| TracedKeys.BindingStays | internal/trace/keys.go:118-160 | The binding stays in force over any further events that do not bind the handle anew on that session |
| TracedKeys.UsedKeyIsNotIdle | internal/trace/keys.go:55-81 | A key searched for by a CKA_ID of at most 64 bytes, found, and used through that handle, with whatever calls in between that do not search anew before the find or bind the handle anew before the use, is not reported as idle |
| TracedKeys.FoundKeyExactly | internal/trace/keys.go:55-81 | If all resolved uses go back to one search by CKA_ID, a key without label counts as used if and only if its CKA_ID is the searched one cut after 64 bytes |
| TracedKeys.LongIdIsReportedIdle | shim/shim.c:81-109 | A concrete trace: a key searched for by a 65-byte CKA_ID, found and used is reported as idle |
| ShimMeaning.LabelMeaning | shim/shim.c:81-98 | The traced label is the last CKA_LABEL with a value, up to its first NUL and at most 255 bytes |
| ShimMeaning.IdMeaning | shim/shim.c:99-107 | The traced ID is the last CKA_ID with a value, two lower-case hexadecimal digits for each of its first 64 bytes |
| ShimMeaning.NothingMeaning | shim/shim.c:81-92 | Without such an attribute nothing is traced |
| Fingerprint.NormalizeBig | internal/inventory/collect.go:234-240 | The loop strips leading zeros but never the last byte |
| Fingerprint.SameIntegerExactly | internal/inventory/collect.go:232-240 | Non-empty byte strings normalise alike if and only if they are the same big-endian integer |
| Fingerprint.SameModulusExactly | internal/inventory/collect.go:143-147 | RSA key objects share a fingerprint if and only if their moduli are the same integer under any zero padding, the hash taken as injective |
| Fingerprint.NoModulusNoFingerprint | internal/inventory/collect.go:222-232 | Without a modulus there is no fingerprint, and with one there is |
| Fingerprint.CertificateMatchesKey | internal/inventory/collect.go:254-257 | A certificate's RSA key has a key object's fingerprint if and only if it has its modulus |
| SharedKeys.Detect | internal/sharedkeys/sharedkeys.go:47-109 | Grouping, ranging over the groups in any order and sorting yield the result described |
| SharedKeys.ResultUnique | internal/sharedkeys/sharedkeys.go:77-108 | The result is determined up to the order of locations that agree in HSM and object name |
| SharedKeys.SharedExactly | internal/sharedkeys/sharedkeys.go:47-109 | A fingerprint is listed if and only if private keys with it are on two distinct HSMs; its count is the number of those HSMs |
| SharedKeys.StrictlyRanked | internal/sharedkeys/sharedkeys.go:102-107 | Each fingerprint is listed once, higher counts first, then by fingerprint |
| SharedKeys.SourceOrderIsImmaterial | internal/sharedkeys/sharedkeys.go:47-109 | Listed fingerprints, counts and order do not depend on the order of the sources |
| SharedKeys.SameModulusIsShared | internal/sharedkeys/sharedkeys.go:47-109 | RSA private keys on two HSMs are reported together if their moduli are the same integer and kept apart if not |
| SharedKeysMeaning.EntryMeaning | internal/sharedkeys/sharedkeys.go:47-100 | An entry lists every private key with its fingerprint, with its HSM and its label, ID or a placeholder, by HSM and then name, and shows a key type if one of them has one |
| SharedKeysMeaning.TypeIsFirst | internal/sharedkeys/sharedkeys.go:64-66 | The key type shown is the first one met |
| SharedKeysMeaning.EntriesInOrder | internal/sharedkeys/sharedkeys.go:102-107 | More HSMs come first, then fingerprints ascending |

## Left out

- HTTP handlers, OIDC, TLS, SMTP delivery, webhooks, metrics, the web interface, the commands and all rendering: plumbing around libraries.
- Calls into real tokens, SHA-256, X.509 and DER parsing, YAML and JSON: abstract values, the hash being an injective function parameter; a stored report is read back as it was written.
- LoginProtocol.RightExactly: only one client of the process logs in on a token.
- BenchProtocol.BudgetIsConserved: rates and elapsed times are left out, since they are floating-point readings of the clock.
- TraceLeaks.SessionFindingsExactly: a trace names no slots, so a successful C_CloseAllSessions counts as the end of every session, and a C_CloseSession ends its session whatever it returned, as in the code.
- TraceLeaks.CheckSessionLeaks: findings are sequence numbers; messages and the checks for initialisation, login order, errors and slow calls, and the function statistics, are left out as linear scans.
- Policy.Evaluate: the conditions on a single object that need no index are one uninterpreted predicate; detail, remediation and reference texts are left out.
- Policy.Result.AddFindings: `report.New` shares the findings slice with the result, and a later merge may rewrite it in place; findings are values here and nothing is claimed of the report's slice afterwards.
- History.Server.PersistScan: a server without a store, store and encoding errors, the log, webhooks, drift and regression mails and the metrics are left out, and so are the key and certificate count columns; only runs without faults are modelled.
- Store.Store.UpsertHSM: rows are never deleted and IDs count upwards, as the queries assume; the SQL text itself is left out.
- Notify.EveryCertificateMailedExactly: certificates are told apart by label, subject and expiry, which is all the notifier is given.
- Notify.Notifier.NotifyCertExpiry: mails count when handed to the mailer; their texts and the mailer are left out, and a notifier without ledger, which would repeat its mails, is not modelled; ledger errors are modelled in the run lemmas only.
- Certmon.Classify: days left are truncating integer division of nanoseconds where the code divides floating-point hours; windows too wide for a 64-bit duration are not modelled.
- Snapshot.Compare: a certificate's expiry date is taken as rendered; the text report is left out.
- Evidence.BuildPack: one pack at a time; the header with token and version is left out.
- Doctor.SortIssues: collecting the issues, verdicts and summaries are left out as linear scans.
- Cbom.BuildCbom: display names, validity dates, the token component and JSON are left out; case mapping covers ASCII letters.
- Advisory.Evaluate: detail, remediation and reference texts, feed loading and non-ASCII case folding are left out.
- Shim.FindIdentity: overlapping template memory and the cutting of a multi-byte character at the end of a label are left out.
- SharedKeys.Detect: locations that agree in HSM and object name may come in either order, as the code's sort is not stable.
- Vendor providers, KMIP, PKCS#11 URIs, preflight and post-quantum detection: linear scans or wrappers.
