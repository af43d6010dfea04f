# Vane backend: verified model

A Dafny model of the parts of the Vane status-page backend whose correctness spans many steps: the
weekly digest scheduler, the poller's leader election, the daily domain-health cycle, the incident
lifecycle, sessions and two-factor login, and the overview's uptime chart. `dafny verify dfyconfig.toml`
checks the whole project.

| file | models |
|---|---|
| `Prelude.dfy`, `Zones.dfy` | options, results, commits; instants, wall clocks, time zones |
| `DigestTiming.dfy` | when a digest is due, for which fire instant, covering which week |
| `DigestScheduler.dfy` | one digest cycle on one replica, as a class over tenant rows and mail |
| `DigestRuns.dfy` | any number of replicas, ticks, dying lock sessions, crashes and zone edits, interleaved |
| `DigestWeekly.dfy` | a tenant that stays in one zone: no week skipped, none sent twice |
| `PollerManager.dfy` | the fields and goroutines of one `PollerManager`, method by method |
| `PollerCluster.dfy` | any number of replicas and threads, one atomic step at a time |
| `NameServers.dfy` | sort-and-compare of nameserver sets |
| `DomainHealth.dfy`, `DomainListing.dfy` | expiry alerts, drift, the stored columns; reading domains page by page |
| `Incidents.dfy`, `IncidentRuns.dfy` | incident rows, timeline and proposals; every interleaving of requests |
| `Sessions.dfy`, `TwoFactor.dfy` | tokens against revocable rows over a whole run; racing verify-2fa requests |
| `Overview.dfy` | fourteen daily buckets and the intervals each one sees |

Conventions. Instants are nanoseconds since the Unix epoch, as unbounded integers. A time zone is any
pair of functions (offset in force, instant of a clock reading); fixed offsets are one instance, and the
digest's assumption on a zone is `DigestZone`: local Monday 00:00 and 09:00 are shown once each week and
fires are 167 to 169 hours apart. A transaction ends committed, rolled back, or in doubt (an error
returned for a commit the server applied). Clocks, the network, the database's failures and the choices
of other parties are parameters or actions, so every theorem over runs is over all of them. Objects the
Go code updates in place are classes; a protocol whose point is interleaving is a step function with
`Enabled`, `Step` and `Runs`, each SQL statement or critical-section point being one step.

## Main results

Over every run or reachable state; the rest of the table below builds up to these.

- Digest: `DigestRuns.NoWeekSettledTwice`, `DigestRuns.SpacedExactlyWhenInTime`,
  `DigestRuns.EachRecipientAttemptedOnce`, `DigestRuns.MarksAreWritten`, `DigestRuns.CycleCompletes`, `DigestWeekly.EveryWeekSentOnce`,
  `DigestTiming.EastwardJumpSkipsExactly`, `DigestTiming.PeriodsTile`.
- Poller: `PollerCluster.AtMostOneLiveWorker`, `PollerCluster.NoRevivalUntilLeadingAgain`,
  `PollerCluster.StoppedBeforeRelease`, `PollerManager.Manager.HeartbeatUntilLost`,
  `PollerManager.Manager.RunLeaderLoop`.
- Domains: `DomainHealth.AlertsAgreeExactlyWhenInStep`, `DomainHealth.VisitAlertsExactly`,
  `DomainHealth.OneAlertPerBand`, `DomainHealth.ExpiryIsLastCarried`, `DomainHealth.FlagTellsDriftExactly`, `DomainListing.ListedWholeExactly`,
  `NameServers.NsSetsEqual`, `NameServers.ComparesFoldedExactly`.
- Incidents: `IncidentRuns.TimelineTellsStatusExactly`, `IncidentRuns.DeletionKeepsStatusExactly`,
  `IncidentRuns.ShownStatusExactly`, `IncidentRuns.SignedRowsAreWritten`,
  `IncidentRuns.NoticesAreMoves`, `IncidentRuns.ProposalsConsumedOnce`.
- Login: `Sessions.RevokedSessionNeverAccepted`, `Sessions.SessionLastsExactly`, `Sessions.RefusedForGoodExactly`,
  `TwoFactor.LogsInExactly`, `TwoFactor.OneSessionPerChallenge`, `TwoFactor.LoginIsEarned`, `TwoFactor.CodeIsWastedExactly`.
- Overview: `Overview.BucketsConserveTime`.

## Where the code and its comments disagree

The model follows the code. Each line names the lemma that shows the difference.

- "Never double-sent in the same week" (`internal/cli/digest_scheduler.go:161-164`) needs the lock session
  to live through the pass: the pass judges the row as listed and never looks again. `OnceAWeekExactly`
  gives the exact condition, `DeadSessionSettlesTwice` a family of runs that miss it.
- `Stop` promises that no poller outlives the call (`internal/cli/poller_manager.go:349-352`). It leaves
  `leading` set, so a later `Restart` starts one again: `RestartAfterStop` says exactly when.
- `nsSetsEqual` calls itself case-insensitive (`internal/cli/domain_health_scheduler.go:408`); it compares
  exactly and relies on the lookup to lower-case: `ComparesFoldedExactly` says how far that goes.
- An empty first answer counts as "none learned yet" in `nsDrift` but is stored for good by `COALESCE`, so
  drift is never reported for that domain again: `DriftNoticedOnlyWithBaseline`.
- The band of the last success is recomputed from a stamp taken off the database clock after the check, and
  from the row as the cycle listed it. It is as good as a remembered band exactly as long as each stamp lies
  in the band its check was judged in and each listed row on the same side of it as the stored one:
  `AlertsAgreeExactlyWhenInStep`. A late stamp can swallow an alert, `LateStampSwallowsUrgentAlert`; two
  replicas that list before either persists repeat one, `VisitAlertsExactly`.
- A commit reported as failed, though the server applied it, sends no alert and none follows in that band
  (`internal/cli/domain_health_scheduler.go:281-283`): `OneAlertPerBand` has the exact set of alerts.
- The cycle reads its pages in separate snapshots, so "every domain" (`internal/cli/domain_health_scheduler.go:186`)
  holds exactly when each page read is still a page of the table the last one saw: `ListedWholeExactly`; for a
  single addition or removal, when it comes after the pages read: `AddedIsListedExactly`,
  `RemovedIsListedExactly`.
- `RequireAuth` "can never accept a token that was truly issued before revocation"
  (`internal/api/middleware.go:161-163`). The stamp is `now()`, the start of the transaction, and it
  overwrites whatever is there; a password change runs in its request's transaction
  (`internal/cli/routes.go:192-218`). So the change does not cut off tokens issued while it was open, and can
  undo a later cut-off by a password reset: `RevokeSessionsCutsOff`, `OpenTransactionReadmits`; the exact
  condition over runs is `RefusedForGoodExactly`.
- A token minted in the second of a revocation "gets rejected once" (`internal/api/middleware.go:158-160`).
  That token stays rejected; a new one has to be issued: `SameSecondTokenStaysRefused`.
- A manual resolve leaves the pending proposal in place, so it can still be confirmed, which rewrites
  `resolved_at` and mails again: `ManualResolveLeavesProposal`, counted in `NoticesAreMoves`. The same
  lemma counts the mails sent for requests whose transaction then fails to commit.
- The timeline is shown by `created_at`, a transaction's start, which need not follow the commit order. When
  its newest status is the stored one, exactly: `NewestShownFollowsStart`, `ShownStatusExactly`.
- Deleting an account un-signs its timeline entries, and an unsigned text that reads as a status line
  cannot be told from a system entry: `TimelineTellsStatusExactly`, `DeletedAuthorForgesStatus`.
- A recovery code is claimed before the challenge, so a request that loses the challenge has spent its
  code: `CodeIsWastedExactly`, `LoserSpendsItsCode`.
- `internal/cli/serve.go:113` still describes the digest's old Monday 00:00 UTC schedule.

## Model

| member | source | states |
|---|---|---|
| DigestTiming.NextDigestTick | internal/cli/digest_scheduler.go:124-134 | The next tick is the least instant after now that is one minute past an hour |
| DigestTiming.SundayChangeIsDigestZone | internal/cli/digest_scheduler.go:176-178 | A zone that moves its clock by up to an hour on a Sunday meets the assumption the daylight-saving results rest on |
| DigestTiming.FixedZoneFire | internal/cli/digest_scheduler.go:136-147 | At any fixed offset, an instant is the fire of `now` if and only if it is a local Monday 09:00 in (now - 7d, now] |
| DigestTiming.WeeklyDigestFireCharacterised | internal/cli/digest_scheduler.go:136-147 | With daylight saving: the fire is week k's exactly while now lies between that fire and the next |
| DigestTiming.WeeklyDigestFireMonotone | internal/cli/digest_scheduler.go:139-147 | The fire never moves back and stays put until the next one is reached |
| DigestTiming.DueCharacterised | internal/cli/digest_scheduler.go:149-199 | A digest is due for a given fire exactly under the three documented conditions |
| DigestTiming.DueKeepsDistance | internal/cli/digest_scheduler.go:166-199 | Whatever the zone: a due digest is for a fire after the marker, and six days after the last send |
| DigestTiming.NextWeekIsDue | internal/cli/digest_scheduler.go:176-199 | After a send inside its window, next week is due at every instant from fire+1h to the window's end |
| DigestTiming.GuardDelaysAtMostOneTick | internal/cli/digest_scheduler.go:124-134 | The six-day guard costs at most one hourly tick, and exactly when the first tick comes before marker+6d |
| DigestTiming.SkippedExactlyWhenTooSoon | internal/cli/digest_scheduler.go:176-199 | After a send and any zone change, a fire's whole window is lost if and only if the fire comes no more than five days after the send |
| DigestTiming.SecondFireAfterSendIsDue | internal/cli/digest_scheduler.go:180-185 | The second fire of the new zone is due throughout its window and at most a fortnight away: at most one week is lost |
| DigestTiming.EastwardJumpSkipsExactly | internal/cli/digest_scheduler.go:176-185 | Between fixed offsets, the next week is lost exactly when jump plus lateness reach two days; the week after never is |
| DigestTiming.PeriodIsPreviousWeek | internal/cli/digest_scheduler.go:201-212 | The period is the local Monday-to-Monday week ending nine clock hours before the fire |
| DigestTiming.PeriodsTile | internal/cli/digest_scheduler.go:201-212 | Consecutive periods share their ends, and every instant lies in exactly one week's period |
| DigestTiming.PeriodIndependentOfTick | internal/cli/digest_scheduler.go:201-212 | Every tick of the week yields the same period |
| DigestScheduler.Scheduler.SendAll | internal/cli/digest_scheduler.go:309-316 | Each recipient is attempted once, in order; a failed delivery changes nothing else |
| DigestScheduler.Scheduler.RunTenant | internal/cli/digest_scheduler.go:256-318 | The marker moves exactly when the tenant is due and every step up to the commit succeeds; exactly the recipients listed are attempted when the commit is known to have succeeded, nobody otherwise |
| DigestScheduler.Scheduler.RunOnce | internal/cli/digest_scheduler.go:236-254 | Every listed tenant ends where its own row and its own failures put it, marker and mail, and nobody else is touched; a failed listing changes nothing |
| DigestScheduler.FailureLeavesNoMarker | internal/cli/digest_scheduler.go:256-318 | The marker moves if and only if every step up to the commit succeeded; the mail is everyone listed if the commit is also known to have succeeded, and nobody otherwise; the error is the first failing step's |
| DigestScheduler.SettledWeekIsClosed | internal/cli/digest_scheduler.go:160-164 | After a settled pass no later tick of that fire is due; after a failed one the next tick is as due as before |
| DigestRuns.StepKeepsMarkInv | internal/cli/digest_scheduler.go:214-318 | Every step of the cluster keeps: markers spaced, rows in step with them, the lock holder's listing current |
| DigestRuns.NoWeekSettledTwice | internal/cli/digest_scheduler.go:160-175 | Over every run under a live lock, from any history so far, any two markers of a tenant are six days apart and for different, increasing fires |
| DigestRuns.SpacedExactlyWhenInTime | internal/cli/digest_scheduler.go:236-318 | Over every run, dying sessions included, all markers keep their distance if and only if each was committed while the stored row still admitted it |
| DigestRuns.OnceAWeekExactly | internal/cli/digest_scheduler.go:160-175 | The same between cycles, from any history that has kept its distance |
| DigestRuns.LiveLockIsInTime | internal/cli/digest_scheduler.go:214-234 | The leader lock, while it lives, is enough for that condition |
| DigestRuns.StepKeepsMailInv | internal/cli/digest_scheduler.go:309-316 | Every step keeps: no two replicas mail one marker, and its owner has attempted exactly the recipients before its loop index |
| DigestRuns.EachRecipientAttemptedOnce | internal/cli/digest_scheduler.go:267-269 | In every run a marker is mailed by one replica only, and its attempts are an initial stretch of its recipients: at most once each |
| DigestRuns.NobodyIsForgotten | internal/cli/digest_scheduler.go:309-316 | A replica that moves on from a tenant has attempted every recipient of its marker |
| DigestRuns.MarksAreWritten | internal/cli/digest_scheduler.go:256-318 | Over every run a tenant's markers are exactly those of the due passes whose steps succeeded, each for the recipients its pass had listed, or for nobody if its commit was in doubt |
| DigestRuns.CycleCompletes | internal/cli/digest_scheduler.go:236-254 | From any listing, a replica left to itself takes its cycle to the end whatever each tenant's pass meets: every listed tenant has its marker and all of its mail by its own row and luck, and the lock is given back |
| DigestRuns.BrokenCycleHandsOver | internal/cli/digest_scheduler.go:214-243 | A failed listing, a crash or a dying session frees the lock the replica held for any idle replica, and changes no row, marker or mail |
| DigestRuns.CyclesOnlyWriteMarkers | internal/db/tenant_repository.go:320-334 | Over every run a tenant exists, dates from and lies in the zone that the edits to it alone say |
| DigestRuns.DeadSessionSettlesTwice | internal/cli/digest_scheduler.go:216-254 | Any due week is settled twice, with two equal markers, when the session dies after listing |
| DigestWeekly.TickSendsOnlyNextWeek | internal/cli/digest_scheduler.go:186-199 | A tick can only send the week after the marker's, and a working tick an hour into its window does |
| DigestWeekly.EveryWeekSentOnce | internal/cli/digest_scheduler.go:149-199 | With one working tick per window, n weeks get exactly n digests, one inside each week's window, whatever the other ticks do |
| PollerManager.Manager.StartManualScheduler | internal/cli/poller_manager.go:372-400 | Idempotent start: at most one tracked manual scheduler |
| PollerManager.Manager.Restart | internal/cli/poller_manager.go:297-347 | No-op unless leading; otherwise the old poller has returned before exactly one new one runs, the manual scheduler untouched |
| PollerManager.Manager.Stop | internal/cli/poller_manager.go:349-358 | Every goroutine this manager started has returned |
| PollerManager.Manager.LoseLeadership | internal/cli/poller_manager.go:204-217 | leading is cleared and both goroutines have returned in one critical section |
| PollerManager.Manager.TakeCalls | internal/cli/poller_manager.go:308-358 | Restarts and stops that come in between two heartbeats: the last one decides whether a poller runs, and exactly the restarts that can build one have started one |
| PollerManager.Manager.ServeBeat | internal/cli/poller_manager.go:261-280 | A leader without a poller retries, exactly once per beat; a missing integration is logged unless already known |
| PollerManager.OutageKnownStep | internal/cli/poller_manager.go:236-239 | How "already logged in this outage" carries from one beat to the next, both ways |
| PollerManager.Manager.HeartbeatUntilLost | internal/cli/poller_manager.go:227-284 | Serves exactly the healthy beats, whatever calls come in between, with the exact number of pollers started, and logs each outage exactly once, at its first beat that finds nothing |
| PollerManager.Manager.RunTerm | internal/cli/poller_manager.go:187-217 | A term starts one manual scheduler, tries the poller once on acquisition, serves its healthy beats and ends with a poller tracked exactly when the last word was a start; then nothing runs |
| PollerManager.Manager.RunLeaderLoop | internal/cli/poller_manager.go:146-225 | Over any stretch of attempts, a term per lock won until shutdown, each doing exactly what its own beats say, with the exact number of goroutines started; at the end this replica neither leads nor runs anything |
| PollerManager.RestartAfterStop | internal/cli/poller_manager.go:308-358 | Restart revives a poller after Stop if and only if the replica still leads and one can be built; never after leadership is lost |
| PollerCluster.LocalStepKeepsInv | internal/cli/poller_manager.go:164-412 | Every step of every thread keeps the replica's invariant: mutual exclusion, ownership of goroutines, leading tied to the loop's position |
| PollerCluster.LivePollerLeads | internal/cli/poller_manager.go:204-217 | A live goroutine with the mutex free implies leading; after the stop block nothing lives and no Restart can build |
| PollerCluster.MutexHolderProgresses | internal/cli/poller_manager.go:308-412 | Whoever holds the mutex can step, or waits for a goroutine that can return |
| PollerCluster.SectionUndisturbed | internal/cli/poller_manager.go:204-217 | No other thread's step changes what a critical section works on |
| PollerCluster.RestartStepsDoRestart | internal/cli/poller_manager.go:308-347 | The atomic steps of the section, run to the end, do exactly what the Restart method does |
| PollerCluster.StopStepsDoStop | internal/cli/poller_manager.go:204-217 | The same for Stop and for the block that gives leadership up |
| PollerCluster.BeatStartsMissingPoller | internal/cli/poller_manager.go:261-280 | A leader without a poller, at a healthy beat with the mutex free, can by its own steps come to a single live poller |
| PollerCluster.LostBeatStopsEverything | internal/cli/poller_manager.go:204-217 | A beat that finds the session lost can be followed through to the release, with leading cleared and nothing running |
| PollerCluster.CallsComplete | internal/cli/poller_manager.go:308-358 | A Restart or Stop from another goroutine, with the mutex free, can be followed through: one new poller on a leader, nothing off a leader; after Stop nothing runs |
| PollerCluster.ManualSchedulerOutlivesRestart | internal/cli/poller_manager.go:96-105 | Only the start and the stop of the manual scheduler ever write its fields |
| PollerCluster.AtMostOneLiveWorker | internal/cli/poller_manager.go:164-225 | In every reachable state, of the replicas whose lock session did not die this term at most one runs anything, and none runs two |
| PollerCluster.AtMostOneWorker | internal/cli/poller_manager.go:164-225 | If no session dies, at most one replica of the cluster runs anything, and it owns the lock |
| PollerCluster.DeadSessionAllowsTwoWorkers | internal/cli/poller_manager.go:252-258 | A dying session is enough for two replicas to work at once |
| PollerCluster.StoppedBeforeRelease | internal/cli/poller_manager.go:204-218 | On hand-over the old goroutines have returned before the lock changes hands |
| PollerCluster.NoRevivalUntilLeadingAgain | internal/cli/poller_manager.go:204-218 | After giving leadership up, no continuation revives anything until leading is stored again |
| NameServers.SortStrings | internal/cli/domain_health_scheduler.go:413-416 | Sorts in place: ascending, and the same collection |
| NameServers.AscendingIsUnique | internal/cli/domain_health_scheduler.go:415-421 | A collection has one sorted arrangement |
| NameServers.NsSetsEqual | internal/cli/domain_health_scheduler.go:408-423 | True if and only if the two lists are equal as multisets |
| NameServers.CaseIsNotFolded | internal/cli/domain_health_scheduler.go:408-423 | The comparison departs from a case-insensitive one exactly where two lists differ by letter case alone, never between lower-case lists |
| NameServers.ComparesFoldedExactly | internal/cli/domain_health_scheduler.go:408-438 | Against every lower-cased answer a baseline compares case-insensitively if and only if it is lower-case itself |
| DomainHealth.NextDomainHealthFire | internal/cli/domain_health_scheduler.go:121-128 | The next 00:00 UTC strictly after now |
| DomainHealth.BandBoundaries | internal/cli/domain_health_scheduler.go:378-396 | Which time left falls in which band, exactly |
| DomainHealth.AlertTellsDaysLeft | internal/cli/domain_health_scheduler.go:346-391 | An alert names the whole days left and the narrowest threshold they fall within; silence means far away or a band already alerted |
| DomainHealth.NsDrift | internal/cli/domain_health_scheduler.go:398-406 | Drift if and only if the baseline is non-empty and differs as a collection |
| DomainHealth.JudgeExpiry | internal/cli/domain_health_scheduler.go:219-242 | A failed or expiry-less lookup keeps the expiry that was known, and one that carries an expiry sets it; what is alerted and which error is stored |
| DomainHealth.DomainTable.SetHealthCheckResult | internal/db/domain_repository.go:259-294 | The UPDATE column by column: write-once baseline, failure-proof current set, flag and success stamp |
| DomainHealth.DomainTable.CheckAndPersist | internal/cli/domain_health_scheduler.go:215-304 | One check's stored row and alerts, which go out only after the commit; no other domain is touched |
| DomainHealth.VisitRefinesExactly | internal/cli/domain_health_scheduler.go:346-376 | What one visit needs, exactly, to alert like the machine that remembers the band, and to leave the stored pair in step with it |
| DomainHealth.AlertsRefineWatch | internal/cli/domain_health_scheduler.go:218-304 | Over any run of visits in step the alerts are those of a machine that remembers the last successful band |
| DomainHealth.DifferentBandsAlertDifferently | internal/cli/domain_health_scheduler.go:361-376 | Two different bands are told apart by one check at any later moment |
| DomainHealth.AlertsAgreeExactly | internal/cli/domain_health_scheduler.go:346-376 | The stored pair alerts like the machine on every later continuation if and only if it stands for the remembered band |
| DomainHealth.AlertsAgreeExactlyWhenInStep | internal/cli/domain_health_scheduler.go:346-376 | Over any run, stale listings included, code and machine alert alike at every visit and from every point on if and only if every success was stamped in its band and judged from a row on the same side of it as the stored one |
| DomainHealth.VisitAlertsExactly | internal/cli/domain_health_scheduler.go:346-376 | Whatever was listed when, a success alerts for its band if and only if none in that band had been stored by the time its row was listed |
| DomainHealth.StaleFailureRestoresExpiry | internal/cli/domain_health_scheduler.go:219-235 | A failed lookup writes its listed expiry back, over a renewal stored meanwhile |
| DomainHealth.ExpiryIsLastCarried | internal/cli/domain_health_scheduler.go:236-242 | Over any run that writes no stale expiry back, the stored expiry is the last one a stored lookup carried, or the initial one |
| DomainHealth.StoredColumns | internal/db/domain_repository.go:259-294 | What a stored visit leaves in registrar, check stamp, success stamp and error, and the two sets inside a drift alert |
| DomainHealth.WatchAlertsOncePerBand | internal/cli/domain_health_scheduler.go:353-360 | For a fixed expiry, commits in doubt included, the thresholds strictly narrow and are exactly the narrower bands whose first stored success committed cleanly |
| DomainHealth.OneAlertPerBand | internal/cli/domain_health_scheduler.go:346-391 | So a domain is alerted at most three times, exactly for the bands whose first stored success committed cleanly |
| DomainHealth.LateStampSwallowsUrgentAlert | internal/db/domain_repository.go:265-283 | A stamp past the band boundary suppresses the 7-day alert for good |
| DomainHealth.BaselineIsWriteOnce | internal/db/domain_repository.go:272-283 | Over any run, however stale the listed rows, the baseline is the first stored answer and the current set the last |
| DomainHealth.FlagTellsDriftExactly | internal/cli/domain_health_scheduler.go:253-265 | With rows listed at any earlier point of the run, the flag compares the last answer with the baseline throughout if and only if no answer was judged from a row listed before a different, non-empty baseline was learned |
| DomainHealth.DriftIgnoresCase | internal/cli/domain_health_scheduler.go:398-438 | With lookups that lower-case their answers, drift over any run ignores letter case |
| DomainHealth.FailedNSLookupKeepsColumns | internal/cli/domain_health_scheduler.go:245-252 | A failed lookup changes none of the three columns and alerts nobody |
| DomainHealth.DriftNoticedOnlyWithBaseline | internal/cli/domain_health_scheduler.go:398-406 | A differing answer is noticed if and only if the first stored answer was not empty |
| DomainListing.ListPaginated | internal/db/domain_repository.go:134-176 | One page and the table's size, for every page, past the end included |
| DomainListing.ListDomains | internal/cli/domain_health_scheduler.go:189-213 | Pages are read, each from its own snapshot, until the first that is empty or reaches its count; or the first failure is reported |
| DomainListing.ListedWholeExactly | internal/cli/domain_health_scheduler.go:186-213 | Whatever is added and removed meanwhile, the listing is the table the last page saw if and only if each earlier page is still that table's page |
| DomainListing.StillTableIsListedWhole | internal/cli/domain_health_scheduler.go:186-213 | While the table stands still: every domain, once and in order, asking for no page more than needed |
| DomainListing.ChangeIsListedExactly | internal/db/domain_repository.go:134-176 | One change after page k: what is listed, and that it is the changed table if and only if that begins as the pages read |
| DomainListing.AddedIsListedExactly | internal/db/domain_repository.go:134-176 | A domain added after page k: every domain is listed if and only if it sorts after the pages read; otherwise it is left out and another listed twice |
| DomainListing.RemovedIsListedExactly | internal/db/domain_repository.go:134-176 | A domain removed after page k: every domain is listed if and only if it was not on the pages read; otherwise one is never listed |
| Incidents.StatusLineAnnounces | internal/db/incident_repository.go:583-586 | A system entry's text determines the status it announces |
| Incidents.IncidentRepository.Insert | internal/db/incident_repository.go:111-137 | A new incident is investigating, unresolved, with an empty timeline |
| Incidents.IncidentRepository.AddUpdate | internal/db/incident_repository.go:143-158 | Appends one entry; nothing else changes |
| Incidents.IncidentRepository.Transition | internal/db/incident_repository.go:554-601 | Compare-and-set on the status, resolved_at and the entries it writes, or a no-op that reports none |
| Incidents.IncidentRepository.ConfirmPendingClose | internal/db/incident_repository.go:1018-1062 | Consumes exactly the proposal the caller saw, or reports why not |
| Incidents.IncidentRepository.SetPendingCloseComment | internal/db/incident_repository.go:965-988 | Never stores a proposal on a resolved incident |
| Incidents.IncidentRepository.DiscardCloseProposal | internal/db/incident_repository.go:1064-1085 | Clears a pending proposal once |
| Incidents.IncidentRepository.SetDescription | internal/db/incident_repository.go:889-914 | Never overwrites a resolved incident's description |
| Incidents.IncidentsHandler.Transition | internal/api/incidents_handler.go:328-390 | Which requests change the row, what authorship they carry, and that a mail goes out exactly for a reported change into resolved |
| Incidents.IncidentsHandler.ConfirmClose | internal/api/incidents_handler.go:404-450 | A mail per accepted confirm, none otherwise |
| Incidents.IncidentsHandler.AddUpdate | internal/api/incidents_handler.go:210-261 | Every entry added through the API is signed and human |
| IncidentRuns.NewIncidentIsOpen | internal/db/incident_repository.go:111-137 | A new incident is investigating, proposes nothing and has said nothing |
| IncidentRuns.WorkOnRow | internal/db/incident_repository.go:554-601 | What each kind of work leaves in status, resolved_at, proposal and description, told from the work and the row alone |
| IncidentRuns.WorkReplies | internal/db/incident_repository.go:965-1085 | What each kind of work reports: whether it changed the status, or why it was refused |
| IncidentRuns.ResolvedDescriptionStays | internal/db/incident_repository.go:889-914 | Over any run without transitions a resolved incident stays resolved and keeps its description |
| IncidentRuns.TimelineIsWhatWasAdded | internal/db/incident_repository.go:143-158 | Over every run without deletions the timeline grows by exactly the rows its requests add, in commit order |
| IncidentRuns.SignedRowsAreWritten | internal/db/incident_repository.go:583-598 | Over every handled run without deletions, the signed rows are exactly, in order and with author and stamp, the committed updates and the notes of the committed transitions that changed the status; each such transition adds exactly one system row |
| IncidentRuns.RequestedTransitionSigns | internal/api/incidents_handler.go:328-390 | A requested transition writes its note only when it resolves, and signs it with the actor |
| IncidentRuns.TimelineTellsStatus | internal/db/incident_repository.go:554-601 | Over every interleaving, replaying the timeline yields the stored status, and resolved_at is set exactly while resolved |
| IncidentRuns.DeletionKeepsStatusExactly | internal/db/migrations/0028_incident_severity_and_update_authorship.up.sql:9 | Deleting an account keeps that true if and only if each of its forging texts is overruled by a later row |
| IncidentRuns.TimelineTellsStatusExactly | internal/db/incident_repository.go:554-601 | Over any run, deletions and typed status lines included, the timeline tells the status at every point if and only if every deletion finds its forging texts overruled |
| IncidentRuns.DeletedAuthorForgesStatus | internal/db/migrations/0028_incident_severity_and_update_authorship.up.sql:9 | A forging latest entry makes the timeline tell another status |
| IncidentRuns.NewestShownIsStatus | internal/db/incident_repository.go:462-500 | The newest status entry shows the stored status as long as stamps follow the commit order |
| IncidentRuns.NewestShownFollowsStart | internal/db/incident_repository.go:554-586 | On any incident, when a change leaves the newest shown status the stored one: where it was, if and only if its request started after all earlier changes or it leaves the status as it was |
| IncidentRuns.ShownStatusExactly | internal/db/incident_repository.go:462-500 | Over any run, the newest shown status is the stored one at every point if and only if every committed change started after all committed before it, confirms of resolved incidents aside, and no deleted account's texts came out on top |
| IncidentRuns.IdenticalTransitionsChangeOnce | internal/api/incidents_handler.go:330-334 | Of n identical transitions exactly one is a committed change, or none if already there |
| IncidentRuns.MovesBalance | internal/db/incident_repository.go:554-563 | Moves into and out of resolved differ by where a stretch starts and ends |
| IncidentRuns.MoveOutBetween | internal/db/incident_repository.go:554-563 | Between any two moves into resolved lies a move out |
| IncidentRuns.NoticesAreMoves | internal/api/incidents_handler.go:372-385 | Resolve mails = moves into resolved + confirms of resolved incidents + notified requests that did not commit |
| IncidentRuns.ManualResolveLeavesProposal | internal/db/incident_repository.go:556-563 | A proposal survives a manual resolve; confirming it rewrites resolved_at and mails twice for one move |
| IncidentRuns.ProposalsConsumedOnce | internal/db/incident_repository.go:971-1085 | Over every interleaving each stored proposal is consumed at most once, and AI summaries are the confirmed texts, in order |
| IncidentRuns.WorkOnProposals | internal/db/incident_repository.go:990-1004 | A summary is what was both stored and submitted; no new proposal appears on a resolved incident |
| Sessions.IssuedTokenVerifies | internal/auth/session.go:85-181 | An issued token verifies with its own claims until its second of expiry; without a sid none is issued; a 2FA challenge never passes as a session |
| Sessions.AcceptsExactly | internal/api/middleware.go:129-208 | A token is accepted if and only if it is genuine, unexpired, no challenge and complete, its user exists and was not revoked after its second, and its row exists and is not revoked; so a forged or expired one is accepted by no store |
| Sessions.NextKeepsEnded | internal/db/session_repository.go:156-218 | No event brings a revoked or deleted session row back |
| Sessions.SessionEnds | internal/db/session_repository.go:156-218 | Which of the three events end a live session, exactly |
| Sessions.RevokedSessionNeverAccepted | internal/api/middleware.go:164-188 | No token carrying a revoked sid is accepted again in any run, whenever and for whichever tenant it was issued |
| Sessions.SessionLastsExactly | internal/api/middleware.go:129-208 | After any run from its creation, a session's token is accepted if and only if its day is not over, nothing revoked its row or deleted its user, and the last revocation of the user is not stamped after its second; its row says when it was last seen |
| Sessions.CutOffLastsExactly | internal/db/user_repository.go:152-168 | A cut-off lasts through a run if and only if no later revocation of the user carries an earlier stamp |
| Sessions.EarlierTokenNeverAccepted | internal/api/middleware.go:153-168 | A token issued before its user's revoke-all instant is refused throughout any run without such a stamp, although iat is floored |
| Sessions.RefusedForGoodExactly | internal/api/middleware.go:153-168 | An otherwise good token stays refused throughout a run if and only if no revocation in it is stamped at or before the token's second |
| Sessions.OpenTransactionReadmits | internal/db/user_repository.go:156-168 | A password change that was open while a reset ran lets a token back in that the reset had cut off |
| Sessions.RevokeSessionsCutsOff | internal/db/user_repository.go:152-168 | RevokeSessions cuts off the tokens issued before its transaction began, and no others |
| Sessions.RevocationIsToTheSecond | internal/api/middleware.go:153-168 | An otherwise good token is refused if and only if its second began before the revocation |
| Sessions.SameSecondTokenStaysRefused | internal/api/middleware.go:153-168 | A token issued in the revocation's second is refused for good, not once |
| Sessions.ClockLeadTolerated | internal/api/middleware.go:160-163 | How far the issuing clock may run ahead of the database's before an earlier token could pass, exactly |
| Sessions.AuthHandler.RequireAuth | internal/api/middleware.go:129-208 | Lets in exactly the acceptable tokens and touches at most the caller's last_seen, at most every five minutes |
| Sessions.AuthHandler.IssueSessionForUser | internal/api/auth_handler.go:350-409 | When a login succeeds, exactly, failing reads and writes and a user deleted meanwhile included; one fresh row and a token that names it, accepted unless the user was revoked within the same second |
| Sessions.AuthHandler.SwitchTenant | internal/api/auth_handler.go:1007-1055 | Members only; the reissued token keeps the caller's sid |
| Sessions.AuthHandler.Logout | internal/api/auth_handler.go:966-980 | Revokes the caller's row and nothing else, if the request commits |
| Sessions.AuthHandler.ChangePassword | internal/api/auth_handler.go:715-758 | When the reply is a success, exactly; the tokens then cut off are those issued before the request's transaction began, not before its commit |
| TwoFactor.StepKeepsClaimInv | internal/api/auth_handler.go:238-332 | Every step keeps: a challenge has at most one holder and one session, and only once used |
| TwoFactor.StepKeepsCodeInv | internal/db/two_factor_repository.go:105-190 | Every step keeps: a recovery code is claimed at most once, keeps its owner, and is used from its claim on |
| TwoFactor.OneSessionPerChallenge | internal/api/auth_handler.go:238-332 | In every interleaving one login and one session row per challenge, and no recovery code accepted twice |
| TwoFactor.LoginIsEarned | internal/api/auth_handler.go:238-332 | In every run a login took a right code, or a claimed recovery code of its own user, on the user's own challenge, used before it expired |
| TwoFactor.NoLoginWithoutEnrolment | internal/api/auth_handler.go:265-281 | Nobody logs in through a second factor that was never confirmed |
| TwoFactor.WrongCodesLeaveChallengeUsable | internal/api/auth_handler.go:238-332 | However many wrong codes are tried, spent and foreign recovery codes included, the challenge's row is untouched |
| TwoFactor.LogsInExactly | internal/api/auth_handler.go:238-332 | Over every run a request logs in if and only if five things held when it came to them: its challenge its own user's, unused and unexpired; its user confirmed; a valid code or an unused recovery code of its user; the challenge still unused and unexpired; its user in a tenant |
| TwoFactor.EverySessionIsALogin | internal/api/auth_handler.go:311-332 | Over every run, each session row a verification created belongs to a request that is logged in through that challenge |
| TwoFactor.ChallengeLastsItsLifetime | internal/db/two_factor_challenge_repository.go:37-75 | Whatever runs after it was issued, a challenge is let past the lookup exactly for its own user, within its lifetime, and while unused |
| TwoFactor.WithdrawnCodesAreVoid | internal/db/two_factor_repository.go:105-200 | Once recovery codes are replaced or deleted, no request in any run, one under way included, claims any of them |
| TwoFactor.SecretIsAsSwitched | internal/db/two_factor_repository.go:40-103 | Over every run a second factor is on exactly as the last enrolment, confirmation or deletion left it |
| TwoFactor.CodeIsWastedExactly | internal/api/auth_handler.go:283-323 | A claimed recovery code is spent in any case, and wasted if and only if the request then finds its challenge used or expired, or its user in no tenant |
| TwoFactor.LoserSpendsItsCode | internal/api/auth_handler.go:283-323 | Of two codes claimed for one challenge at least one is wasted |
| Overview.IntervalsOverlapping | internal/api/overview_handler.go:284-296 | Keeps the intervals that reach into the window, in order |
| Overview.KeptExactlyWhenItOverlaps | internal/api/overview_handler.go:284-296 | Kept if and only if some of the interval lies in the window |
| Overview.KeepingLosesNothing | internal/api/overview_handler.go:284-296 | The dropped intervals spend no time in the window |
| Overview.AverageUptime | internal/api/overview_handler.go:228-242 | The mean over services with data, cut off after one decimal; none without data |
| Overview.BuildUptimeSeries | internal/api/overview_handler.go:249-280 | Bucket i is local day i, the last one up to now, computed from its own intervals alone |
| Overview.BucketsTile | internal/api/overview_handler.go:249-280 | Each bucket ends where the next begins and the last ends now |
| Overview.BucketsConserveTime | internal/api/overview_handler.go:249-296 | For every service and every set of intervals, bucketed time adds up to the time in the whole window |

## Left out

- DomainHealth.DaysUntil: its float division is modelled as integer division towards zero; rounding of `Hours()/24` is not.
- Real tzdata, and zones whose local Monday 00:00 or 09:00 does not exist or repeats (the chart: whose midnight does).
- Overview.BuildUptimeSeries: `history.UptimePercent` and `history.BuildBuckets` are not part of this model; the percentage is any function of intervals and window.
- Overview.AverageUptime: uses real numbers, so float rounding of the sum and the mean is not modelled.
- PollerManager.Manager.RunLeaderLoop: the loop is endless; the method covers every finite stretch of attempts by itself, the interleavings with other threads are in `PollerCluster`.
- PollerManager.Manager.HeartbeatUntilLost: other goroutines' calls come in between beats, not between a beat's probe and its restart; that interleaving is in `PollerCluster`.
- The digest's and the domain check's outer `Run` loops and `runCycle`: endless; the digest's cycle is the step machine of `DigestRuns`.
- DigestRuns.NoWeekSettledTwice: for runs whose markers are committed under a live lock; `OnceAWeekExactly` covers the others.
- DigestRuns: one transaction of `runTenant` is one step, since nothing of it is visible before its commit.
- DomainHealth.AlertsRefineWatch: for visits in step that write no stale expiry back; `AlertsAgreeExactlyWhenInStep` and `VisitAlertsExactly` cover the others, `StaleFailureRestoresExpiry` shows the write-back.
- DomainHealth.OneAlertPerBand: for visits in step; `VisitAlertsExactly` says what any visit alerts, however stale its listing.
- DomainHealth.VisitAlertsExactly: for one expiry that does not change, and stamps in band.
- NameServers.ComparesFoldedExactly: letter case is that of the ASCII letters.
- Sessions.RevokedSessionNeverAccepted: `RequireAuth` is taken to read its two rows at one moment; a revocation committed in between is seen by the next request.
- Sessions.EarlierTokenNeverAccepted: for runs without an earlier stamp; `RefusedForGoodExactly` covers the others.
- TwoFactor: the process's clock and the database's are one clock.
- IncidentRuns.SignedRowsAreWritten: for runs without account deletions, which un-sign rows; `TimelineTellsStatusExactly` covers what they do to the status.
- DomainHealth.ExpiryIsLastCarried: for runs whose failed or expiry-less lookups were listed with the stored expiry; `StaleFailureRestoresExpiry` says what another one does.
- IncidentRuns.TimelineTellsStatus: runs in which accounts are deleted assume nobody typed a status line; `TimelineTellsStatusExactly` covers every run.
- VerifyTwoFactor and issueTwoFactorChallenge: modelled as steps of `TwoFactor`, not as class methods, because racing requests are the point; user lookup and membership failures show only as a refused login.
- The digest's content (`buildDigest`), recipients' preferences, e-mail delivery, notification preferences.
- pglock: an exclusive lock that a dying session frees; waiting, connection handling and a failing release are not modelled.
- Wall-clock bounds on double leadership: `stopLocked` waits for a poller run that is not part of this model.
- Cryptography (JWT signing, bcrypt, PBKDF2, AES-GCM, TOTP): a token is genuine or not, a code matches a row or not.
- The SQL engine, row-level security and pgx: one statement with its re-checked WHERE is one atomic step.
- HTTP, JSON, cookies and CORS: a handler's input is its decoded request.
- Incidents' titles, severity, service links, listings, and the row a no-op transition returns.
- Deleting incidents, tenants or domains while a request on them is running.
- Configuration, validators and pagination clamps: they would only add easy members.
