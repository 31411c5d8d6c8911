# CheckClass: attendance, session tokens and intrusion incidents, verified

CheckClass is a multi-tenant attendance backend with a mobile app. A tap, a face match or an app
check-in becomes a raw event, then an identified check-in, then (unless it is a double trigger) evidence
for a grade; people whose evidence is incomplete go to a human. Beside that pipeline run three small
protocols: refresh-token rotation with reuse detection and its single-flight client, a single open
intrusion incident per tenant, and authorisation over an area hierarchy. This project models those
protocols and proves what they guarantee over every run.

| file | what it holds |
|---|---|
| `Basics.dfy`, `Checkins.dfy` | keys, wrappers, the check-in table, satisfied factor codes |
| `Outbox.dfy`, `Pipeline.dfy`, `Provenance.dfy`, `BypassRun.dfy` | insert-or-ignore with a job in the same transaction; ingestion, app check-in, identification; the end-to-end result; whose check-in it is; a run past the session window |
| `Deduplication.dfy`, `FirstReceived.dfy` | windowed duplicate marking by concurrent workers under an advisory lock; which of two taps survives |
| `Presence.dfy` | the time-ordered query and the entry/exit pairing loop |
| `AttendanceRules.dfy`, `AttendanceProperties.dfy` | grading, pending reviews and human decisions; what they guarantee |
| `Config.dfy`, `Campus.dfy`, `SecondDecision.dfy` | configuration cascade and session snapshot; runs of configuration, evaluation and resolution, each call one event; a run with two human decisions |
| `EvaluationRaces.dfy`, `EvaluationRuns.dfy`, `ReviewRaces.dfy`, `SnapshotReads.dfy` | evaluations, resolutions and session creation taken apart into statements |
| `RefreshTokens.dfy`, `RefreshLineage.dfy`, `RefreshBurns.dfy` | token table and calls; interleaved transactions; a revoke-all beside them |
| `MobileClient.dfy`, `MobileRuns.dfy` | the client; client and server composed statement by statement |
| `Areas.dfy` | the ancestor walk, authorisation, building the hierarchy |
| `Incidents.dfy`, `IncidentRuns.dfy` | detection and closing; their interleavings, with savepoint and unique index |

## How to read the model

- **Services.** Each stateful service is a class whose fields are the tables it writes. Its methods follow
  the source branch by branch and are proved against functions of the old tables.
- **Tables.** Tables whose rows are never deleted are sequences, and a row's id is its position. An
  `Option` field is a nullable column.
- **Runs.** Where transactions interleave, a `State` holds the committed rows and every open transaction,
  `Step` performs one statement or one commit, and `RunFrom` folds any sequence of events whatsoever. An event
  that cannot happen (a lock that is taken, a row that does not exist) leaves the state as it is, so
  a theorem about `RunFrom(Start, es)` is about every schedule of those statements, every number of
  workers, every redelivery and every abort. `Campus` alone takes each back-office call as one event;
  `EvaluationRaces`, `EvaluationRuns`, `ReviewRaces` and `SnapshotReads` take evaluation and session creation apart. The
  `Serial…IsARun` lemmas connect the service methods to the runs: alone, the statements write what the
  method writes.
- **Database.** Postgres at its default isolation: each statement sees the latest committed rows. Row
  locks, advisory locks, unique constraints, the aborted state after a constraint violation and
  `ROLLBACK TO SAVEPOINT` are modelled; so is a transaction that rolls back because its callback
  throws (`backend/src/database/tenant-context.service.ts:22-30`).
- **Numbers.** Times are whole milliseconds. Percentages are exact rationals, where the source uses doubles.
- **Choices left open.** A query without a total order (the canonical row among rows created together,
  the session of a room, the order of a table scan) may answer anything legal; proofs hold for all answers.
- **Proofs.** Every lemma switches automatic induction off, so each induction is written out in its body.

## Where the code and its comments differ

`deduplication.service.ts:22-23` says that the first received check-in wins. The code picks the earliest
*other* surviving row in the window, even when that row is later than the job's own; a job that meets
only later rows marks its own, earlier row. `FirstReceivedWinsIff` gives the condition for one job,
`FirstReceivedCanLose` and `RedeliveryCanUnseatTheFirst` two runs where the first tap loses, and
`OrderlyRunsKeepTheFirst` an order of searches by still unmarked rows
under which it never does (`StaleSearchCanMarkForward` shows why they must be unmarked). What deduplication is for is
unaffected: survivors are spread and no evidence is lost.

`pending-review.service.ts:99-100` says a resolved review stays resolved, which holds for the review; but the
person's grade can be decided a second time while another of their reviews is open (`SecondDecisionIff`,
`SecondDecisionCanReplaceFirst`).

`attendance-rules-engine.service.ts:97-101` says that re-evaluation never overwrites a human's decision. The check
reads the row at one statement and the write comes later, so a decision that commits in between is
overwritten (`DecisionIsSafeIff`, `EvaluationCanOverwriteDecision`).

The percentage stays within 0 to 100 for check-ins taken inside the session's window. Identification
guarantees that except for one kind of event, a roomless CUSTOM event that claims a session itself:
its check-in is inside the window iff it was captured inside the claimed session (`InsideIff`,
`CheckinsAreInsideTheirSession`), and `BypassOverflowsAGrade` runs one that was not from device to a 200% grade.

## Model

| member | source | states |
|---|---|---|
| Deduplication.DeduplicationService.Deduplicate | backend/src/modules/deduplication/deduplication.service.ts:30-73 | A missing or already marked check-in changes nothing; any other job changes at most its own row's marks, and marks it iff another survivor of its key is within two seconds for a room factor or ten for any other, towards such a row |
| Deduplication.DeduplicationService.FindCanonicalWithinWindow | backend/src/modules/deduplication/deduplication.service.ts:75-105 | The answer is a surviving row of the same key, other than the row itself, at most a window away and created no later than any other such row; no answer iff there is no such row |
| Deduplication.SurvivorsAreSpread | backend/src/modules/deduplication/deduplication.service.ts:43-73 | In every run of concurrent workers, with redelivery, aborts and any lock hash, two survivors of one correlation key whose jobs have committed are strictly more than the factor's window apart |
| Deduplication.SettledSurvivorsAreApart | backend/src/modules/deduplication/deduplication.service.ts:11-46 | With the windows written out: settled survivors of one key are more than two seconds apart for room entries and exits, and more than ten for any other factor |
| Deduplication.MarksPointNearby | backend/src/modules/deduplication/deduplication.service.ts:43-70 | In every run a marked row points at another row of its key at most two seconds away for a room factor and at most ten for any other |
| Deduplication.LoneTapsSurvive | backend/src/modules/deduplication/deduplication.service.ts:6-10 | In every run a tap with no neighbour of its key that close is never marked, so an exit and a return three seconds later both survive |
| Deduplication.SurvivorsPerSpan | backend/src/modules/deduplication/deduplication.service.ts:11-13 | At most floor(L / W) + 1 settled survivors of one key fall in any span of L milliseconds |
| Deduplication.MarksAreAcyclic | backend/src/modules/deduplication/deduplication.service.ts:66-70 | However jobs interleave, following duplicate marks from a row never comes back to it |
| Deduplication.ChainEndsAtSurvivor | backend/src/modules/deduplication/deduplication.service.ts:66-70 | In every run each row's chain of marks ends at a surviving row of its own correlation key |
| Deduplication.EvidenceSurvives | backend/src/modules/attendance-rules/attendance-rules-engine.service.ts:112-121 | In every run the set of factor codes a person has satisfied is the same with and without the `is_duplicate = false` filter |
| Deduplication.MarkKeepsForest | backend/src/modules/deduplication/deduplication.service.ts:66-70 | Publishing a mark towards a surviving row of the same key keeps the links typed and well-founded |
| Deduplication.CommitKeepsSpread | backend/src/modules/deduplication/deduplication.service.ts:56-70 | A commit under the advisory lock keeps all settled survivors of a key a window apart |
| Deduplication.CommitKeepsWorker | backend/src/modules/deduplication/deduplication.service.ts:48-57 | What another worker has already found stays true across a commit, because workers of one key exclude each other |
| Deduplication.EveryRunIsSound | backend/src/modules/deduplication/deduplication.service.ts:30-73 | Links form a forest, settled survivors are spread and advisory locks are exclusive after every event sequence |
| Deduplication.SerialJobIsARun | backend/src/modules/deduplication/deduplication.service.ts:30-73 | With no other job at its lock, a job's four statements store what one `Deduplicate` call stores, settle the check-in and leave every other transaction where it was |
| FirstReceived.FirstReceivedWinsIff | backend/src/modules/deduplication/deduplication.service.ts:22-23 | One job keeps the first received row iff some survivor in the window was created no later than its own row, or none is in the window |
| FirstReceived.FirstReceivedCanLose | backend/src/modules/deduplication/deduplication.service.ts:64-70 | A run of two taps one second apart, both stored before either job: the first tap's own job runs first, and ends marked against the later tap, which survives |
| FirstReceived.RedeliveryCanUnseatTheFirst | backend/src/modules/deduplication/deduplication.service.ts:39-41 | A run in which the first tap's job committed before the second tap was stored: redelivering that job still marks the first tap against the second |
| FirstReceived.OrderlyRunsKeepTheFirst | backend/src/modules/deduplication/deduplication.service.ts:22-23 | In every run whose searches meet a later-created row of the key in the window only while the searching row is still unmarked and once both rows' jobs have committed, no row is ever marked towards a later-created one |
| FirstReceived.StaleSearchCanMarkForward | backend/src/modules/deduplication/deduplication.service.ts:34-41 | "Still unmarked" is needed: in a run where every search meets only settled rows, a second delivery that loaded its row before a twin marked it marks that row towards a later-created one |
| Presence.PairEvents | backend/src/modules/attendance-rules/presence-interval.service.ts:46-70 | The loop with its open-entry variable yields the adjacent entry/exit pairs and the trailing entry |
| Presence.TimelineIsExact | backend/src/modules/attendance-rules/presence-interval.service.ts:31-44 | The queried rows are in time order and are exactly the person's surviving room check-ins of the session |
| Presence.TimelineCounts | backend/src/modules/attendance-rules/presence-interval.service.ts:31-44 | Every room event occurs in the timeline exactly once for each stored row that gives it, the row's conditions written out |
| Presence.TimelineIgnoresArrival | backend/src/modules/attendance-rules/presence-interval.service.ts:31-44 | With distinct times, any two scans of the same rows give the same timeline, hence the same intervals |
| Presence.ClosedIffAdjacent | backend/src/modules/attendance-rules/presence-interval.service.ts:49-68 | An interval is closed iff its two times are those of an entry and the exit immediately after it |
| Presence.OneIntervalPerAdjacency | backend/src/modules/attendance-rules/presence-interval.service.ts:49-68 | There are exactly as many closed intervals as entry-then-exit adjacencies |
| Presence.PairsAreConsecutive | backend/src/modules/attendance-rules/presence-interval.service.ts:46-68 | Closed intervals are ordered, do not overlap and stay inside any window that holds the events |
| Presence.PresenceFitsWindow | backend/src/modules/attendance-rules/presence-interval.service.ts:46-68 | The summed intervals are between zero and the length of the window |
| Presence.TotalIsTimeInside | backend/src/modules/attendance-rules/attendance-rules-engine.service.ts:155-158 | The total is the number of milliseconds of the window spent inside some interval |
| Presence.EntryLeavesATrace | backend/src/modules/attendance-rules/presence-interval.service.ts:49-70 | Someone with any entry ends with a closed interval or an open one |
| AttendanceRules.SessionRegister.EvaluateSession | backend/src/modules/attendance-rules/attendance-rules-engine.service.ts:47-84 | A missing session and one not yet ended are refused with nothing written; otherwise every person on the roster is evaluated, in order |
| AttendanceRules.SessionRegister.EvaluatePerson | backend/src/modules/attendance-rules/attendance-rules-engine.service.ts:86-168 | The branches write what the verdict on the person's evidence prescribes, and nothing once a human has decided |
| AttendanceRules.SessionRegister.RebuildForPerson | backend/src/modules/attendance-rules/presence-interval.service.ts:27-86 | The person's stored rows are, in order, one for each exit immediately after an entry with the times of both, then one without an exit iff the last event is an entry, with its time; nobody else's rows change |
| AttendanceRules.EvaluatedMirrors | backend/src/modules/attendance-rules/attendance-rules-engine.service.ts:130-133 | Unless a human has decided, evaluating a person stores exactly those rows for their room check-ins of the session |
| AttendanceRules.SessionRegister.RecordPending | backend/src/modules/attendance-rules/attendance-rules-engine.service.ts:170-195 | The person becomes pending, and a review is opened only if none is unresolved for that reason |
| AttendanceRules.SessionRegister.UpsertConsolidation | backend/src/modules/attendance-rules/attendance-rules-engine.service.ts:197-226 | One row per person: an existing row keeps its resolver fields |
| AttendanceRules.SessionRegister.Resolve | backend/src/modules/pending-review/pending-review.service.ts:87-125 | Each error is given exactly in its case and writes nothing; otherwise the review takes resolver, time and note, the person's row takes decision, resolver and time, and nothing else changes |
| AttendanceProperties.PermanenceFitsSession | backend/src/modules/attendance-rules/attendance-rules-engine.service.ts:155-158 | For room check-ins inside the scheduled window, total permanence is between zero and the session's duration |
| AttendanceProperties.GradesAreBounded | backend/src/modules/attendance-rules/attendance-rules-engine.service.ts:147-161 | Such a person's percentage is in [0, 100] and the minutes never exceed the session's |
| AttendanceProperties.OutsideTheWindowGradesOverflow | backend/src/modules/attendance-rules/attendance-rules-engine.service.ts:155-161 | On evidence with an exit two hours after its entry, a one-hour session grades at 200% |
| AttendanceProperties.NoGradeOnEmptyEvidence | backend/src/modules/attendance-rules/attendance-rules-engine.service.ts:112-163 | Where entry and exit are required, any grade rests on at least one closed interval and leaves none open |
| AttendanceProperties.MissingExitIff | backend/src/modules/attendance-rules/attendance-rules-engine.service.ts:122-145 | `missing_exit` is reported iff exits are required, no other required factor is missing and the last room check-in is an entry |
| AttendanceProperties.MissingFactorIff | backend/src/modules/attendance-rules/attendance-rules-engine.service.ts:112-138 | `missing_factor` is reported iff some required factor other than the exit was never shown by a surviving check-in |
| AttendanceProperties.DeferringOpensIff | backend/src/modules/attendance-rules/attendance-rules-engine.service.ts:170-195 | Deferring leaves a pending row of nought minutes and opens a review of that person and reason iff none of theirs for it is unresolved |
| AttendanceProperties.PresentIff | backend/src/modules/attendance-rules/attendance-rules-engine.service.ts:147-167 | With entry and exit required, a graded person is present iff permanence reaches the minimum share of the session, the percentage is that share and the minutes the nearest whole number; otherwise present in full |
| AttendanceProperties.RecordedKeepsLifecycle | backend/src/modules/attendance-rules/attendance-rules-engine.service.ts:170-226 | Recording a verdict keeps: one review per person and reason, a row behind every review, an unresolved review behind every pending row |
| AttendanceProperties.ResolvedKeepsLifecycle | backend/src/modules/pending-review/pending-review.service.ts:114-124 | So does any resolution with a decision of present or absent |
| AttendanceProperties.EvaluatedAllKeepsLifecycle | backend/src/modules/attendance-rules/attendance-rules-engine.service.ts:81-83 | So does evaluating any roster on any evidence |
| AttendanceProperties.ListedIffResolvable | backend/src/modules/pending-review/pending-review.service.ts:47-146 | The listing query's text and the three-way leadership count agree: a review is listed for a person iff that person could resolve it now |
| AttendanceProperties.SecondDecisionIff | backend/src/modules/pending-review/pending-review.service.ts:98-124 | A decided person can be decided again by an authorised leader iff another review of theirs is unresolved |
| SecondDecision.SecondDecisionCanReplaceFirst | backend/src/modules/pending-review/pending-review.service.ts:87-125 | A run from configuration through two evaluations, for a missing factor and then for a missing exit, in which a second authorised leader turns the first one's present into an absent |
| AttendanceProperties.EvaluationSparesDecided | backend/src/modules/attendance-rules/attendance-rules-engine.service.ts:102-110 | Evaluation leaves people a human has decided, and people not on the roster, exactly as they were |
| AttendanceProperties.EvaluationIsIdempotent | backend/src/modules/attendance-rules/attendance-rules-engine.service.ts:81-226 | A second evaluation on the same evidence changes no row of any table |
| AttendanceProperties.EvaluationsCommute | backend/src/modules/attendance-rules/attendance-rules-engine.service.ts:86-226 | Evaluating two people in either order stores the same tables up to review ids |
| AttendanceProperties.RosterOrderIsIrrelevant | backend/src/modules/attendance-rules/attendance-rules-engine.service.ts:74-83 | Any two orders of one roster store the same tables up to review ids |
| Config.CascadeIsMostSpecific | backend/src/modules/config/tenant-config.service.ts:45-75 | Resolution gives the first configured scope among class group, course and institution with its own factors, and fails iff none is configured |
| Config.GroupBeatsCourseBeatsInstitution | backend/src/modules/config/tenant-config.service.ts:48-62 | Scope by scope: the class group's own config, else its course's, else the institution's, else an error |
| Config.ConfiguredIsResolved | backend/src/modules/config/tenant-config.service.ts:45-138 | Configuring a scope and its factors, then resolving, gives back those values and factors in exactly the class groups the scope governs, and changes nothing for the others |
| Campus.ConfigIdsStayUnique | backend/src/modules/config/tenant-config.service.ts:84-105 | In every run different scopes have different configs, so setting one scope's factors never touches another's |
| Config.TenantConfigService.ResolveEffectiveConfig | backend/src/modules/config/tenant-config.service.ts:45-75 | The step-by-step lookup agrees with the cascade, error cases included |
| Config.TenantConfigService.UpsertConfig | backend/src/modules/config/tenant-config.service.ts:77-164 | Refused iff the percentage is outside 0 to 100, the tolerance is negative, the behaviour is not one of the three or a narrower scope lacks its id; otherwise only that scope's row changes, under its old id if it had one |
| Config.TenantConfigService.SetRequiredFactors | backend/src/modules/config/tenant-config.service.ts:125-138 | The config's factors become exactly the given ones and no other config's change, iff the factors are known, do not repeat and the config exists or none are given; otherwise nothing changes |
| Config.ClassSessionService.CreateSession | backend/src/modules/class-session/class-session.service.ts:24-52 | A new session carries the given class, room and schedule and the config in force; without one nothing is stored |
| Campus.SnapshotIsMostSpecific | backend/src/modules/class-session/class-session.service.ts:24-52 | A created session's four snapshot values are those of the most specific config at that moment |
| SnapshotReads.InterleavedSnapshot | backend/src/modules/class-session/class-session.service.ts:24-49 | Whatever commits between the statements of one creation: the config found was most specific when found iff no more specific scope was configured since its lookup, and the snapshot is the effective config of its last read iff none is by then and the found row is unchanged |
| SnapshotReads.QuietReadsAreAtomic | backend/src/modules/config/tenant-config.service.ts:45-75 | With nothing committed in between, the statements read what one moment gives |
| SnapshotReads.SnapshotCanMixVersions | backend/src/modules/config/tenant-config.service.ts:53-66 | A change of both committed between the lookup and the read of the factors gives a minimum and a set of factors that were never configured together |
| Campus.OnlyRelevantEventsMatter | backend/src/modules/attendance-rules/attendance-rules-engine.service.ts:61-79 | In every run, an existing session's row, grades, intervals and reviews depend only on its own evaluations and resolutions |
| Campus.ConfigChangesDoNotReachSessions | backend/src/modules/class-session/class-session.service.ts:13-16 | Two runs that differ only in configuration calls made after a session exists store the same snapshot, grades, intervals and reviews for it |
| Campus.OneChangeIsInvisible | backend/src/modules/class-session/class-session.service.ts:13-16 | One configuration call more or less, anywhere in a run, changes nothing of a session that existed before it |
| Campus.SessionsAreFrozen | backend/src/modules/class-session/class-session.service.ts:31-41 | No run changes a stored session's row |
| Campus.GradedIffEvaluatedAfterTheEnd | backend/src/modules/attendance-rules/attendance-rules-engine.service.ts:55-83 | In every run a session gains a grade for a person iff some evaluation with that person on its roster ran at or after the session's end |
| Campus.ReviewLifecycle | backend/src/modules/attendance-rules/attendance-rules-engine.service.ts:170-226 | In every run: at most one review ever per session, person and reason; a consolidation behind each; a resolved one decided by a human; an unresolved review behind each pending row |
| Campus.StepKeepsDecision | backend/src/modules/attendance-rules/attendance-rules-engine.service.ts:102-110 | No single event changes a decided person's minutes, percentage or intervals or opens a review for them; only resolving another review of theirs changes the row |
| Campus.HumanDecisionSurvives | backend/src/modules/pending-review/pending-review.service.ts:114-124 | The same over any later run |
| EvaluationRaces.DecisionSurvives | backend/src/modules/attendance-rules/attendance-rules-engine.service.ts:102-110 | With evaluations split into reads, writes and commits, a decision no evaluation has read past survives every later run: row, intervals and reviews stay and none is opened |
| EvaluationRuns.DecisionIsSafeIff | backend/src/modules/attendance-rules/attendance-rules-engine.service.ts:102-110 | Right after a resolution, no later run publishes an evaluation over the person iff no evaluation has read them as undecided and not written them yet |
| EvaluationRuns.LateWriteOverwrites | backend/src/modules/attendance-rules/attendance-rules-engine.service.ts:197-214 | Such an evaluation, whatever others do before its write and its commit, leaves the decided row with its own verdict under the resolver's name |
| EvaluationRuns.EvaluationCanOverwriteDecision | backend/src/modules/attendance-rules/attendance-rules-engine.service.ts:86-195 | A run in which a leader's present, resolved between an evaluation's read and its write, becomes pending again and the same reason gets a second review |
| EvaluationRuns.SerialEvaluationIsARun | backend/src/modules/attendance-rules/attendance-rules-engine.service.ts:81-83 | Alone, reading, writing and committing a roster stores what `EvaluateSession` stores |
| ReviewRaces.InterleavedLifecycle | backend/src/modules/attendance-rules/attendance-rules-engine.service.ts:170-195 | In every interleaving of evaluations and resolutions: at most one unresolved review per person and reason, a consolidation behind every review, and an unresolved review behind every pending row |
| RefreshTokens.MobileAuthService.Login | backend/src/modules/auth/mobile-auth.service.ts:46-57 | A login adds one live token of the person that expires thirty days later, and touches no other |
| RefreshTokens.MobileAuthService.Refresh | backend/src/modules/auth/mobile-auth.service.ts:59-113 | A token is returned iff the presented one is known, unrevoked and not past its expiry; then it is revoked and points at its thirty-day successor. An expired one ends revoked without a successor, a revoked one revokes exactly the person's live tokens, an unknown one changes nothing |
| RefreshTokens.MobileAuthService.Logout | backend/src/modules/auth/mobile-auth.service.ts:115-127 | A live token is revoked; an unknown or revoked one is a silent no-op |
| RefreshTokens.MobileAuthService.RotateTo | backend/src/modules/auth/refresh-token.service.ts:109-114 | The presented row is revoked and points at its successor; nothing else changes |
| RefreshTokens.MobileAuthService.RevokeAllForPerson | backend/src/modules/auth/refresh-token.service.ts:126-131 | Exactly the person's live tokens become revoked; earlier revocation times stay |
| RefreshTokens.SessionsLive | backend/src/modules/auth/mobile-auth.service.ts:46-127 | One after another: a login's token is exchanged within thirty days of its issue and not later, its successor takes its place, and a logout ends it |
| RefreshTokens.BurnedUntilLogin | backend/src/modules/auth/mobile-auth.service.ts:46-127 | A person without live tokens stays without one over any calls but their own login |
| RefreshTokens.ReuseBurnsTheFamily | backend/src/modules/auth/mobile-auth.service.ts:75-112 | Presenting a revoked token rejects, leaves the person no live token, and no refresh of theirs succeeds until they log in again |
| RefreshTokens.ThrowingInsideLosesTheBurn | backend/src/database/tenant-context.service.ts:22-30 | Returning before rejecting keeps the burn; throwing inside the transaction would lose it iff there was a live token to burn |
| RefreshLineage.ExchangedAtMostOnce | backend/src/modules/auth/mobile-auth.service.ts:75-107 | In every interleaving each token is exchanged at most once, no token succeeds two, and each accepted exchange is recorded on a revoked row |
| RefreshLineage.ExchangesAreForever | backend/src/modules/auth/refresh-token.service.ts:105-114 | A recorded successor is never replaced by any later run |
| RefreshLineage.NoExchangeAfterExpiry | backend/src/modules/auth/mobile-auth.service.ts:95-106 | In every interleaving an exchange is made no later than the exchanged token's expiry and no more than thirty days after its issue |
| RefreshLineage.RootIsALogin | backend/src/modules/auth/refresh-token.service.ts:87-114 | Every token descends from a login of the same person |
| RefreshLineage.ChainsAreLinear | backend/src/modules/auth/refresh-token.service.ts:109-114 | Of two tokens of one chain, the later is reached from the earlier by successors |
| RefreshLineage.OneLiveTokenPerChain | backend/src/modules/auth/refresh-token.service.ts:63-83 | In every interleaving a chain has at most one live token |
| RefreshLineage.LiveTokensNeverExceedLogins | backend/src/modules/auth/mobile-auth.service.ts:46-113 | In every interleaving a person has no more live tokens than logins |
| RefreshLineage.RotatingKeepsLineage | backend/src/modules/auth/mobile-auth.service.ts:103-106 | Issuing and rotating a live row keeps links ordered, injective, same-person and rooted in logins |
| RefreshLineage.StepKeepsWorker | backend/src/modules/auth/refresh-token.service.ts:76-83 | A transaction's locked copy of a row stays current, and its lock exclusive, whatever statement runs next |
| RefreshLineage.EveryRunIsSound | backend/src/modules/auth/mobile-auth.service.ts:46-127 | Lineage, recorded exchanges and row locks are sound after every event sequence |
| RefreshLineage.SerialRefreshIsARun | backend/src/modules/auth/mobile-auth.service.ts:59-113 | Alone, a refresh's statements store what `Refresh` stores and grant an exchange exactly when it returns a token |
| RefreshLineage.SerialLogoutIsARun | backend/src/modules/auth/mobile-auth.service.ts:115-127 | Alone, a logout's statements store what `Logout` stores |
| RefreshBurns.BurnLeavesOnlyNewer | backend/src/modules/auth/refresh-token.service.ts:126-131 | Whatever logins and other transactions do while a burn is under way, when it finishes the person's live tokens are exactly the live ones issued since it started |
| RefreshBurns.SuccessorOutlivesBurn | backend/src/modules/auth/mobile-auth.service.ts:87-106 | A run in which a refresh of the person's other token, already holding its row when the burn starts, leaves its successor live |
| MobileClient.ApiClient.RefreshAccessToken | mobile/src/lib/api-client.ts:96-103 | A refresh starts only when none is in flight; every caller then waits for the same one |
| MobileClient.ApiClient.ContinueWithStoredToken | mobile/src/lib/api-client.ts:105-112 | What is posted is the stored token; without one the client gives up |
| MobileClient.ApiClient.ContinueWithAnswer | mobile/src/lib/api-client.ts:112-123 | A granted pair replaces the stored one and releases all waiters; a rejection clears it and logs out |
| MobileClient.ApiClient.HandleUnrecoverableAuthFailure | mobile/src/lib/api-client.ts:125-128 | The stored token is gone, the listener has fired once and no refresh is in flight |
| MobileRuns.NeverPresentsRotatedToken | mobile/src/lib/api-client.ts:89-123 | With any number of overlapping 401s, and the client's request interleaved with other transactions statement by statement, neither the posted token nor the row the server locks for it has been exchanged, and with no refresh in flight the client stores the tip of its chain |
| MobileRuns.OthersProceed | backend/src/modules/auth/mobile-auth.service.ts:59-113 | Nothing in the composition holds back logins, open transactions or transactions opened for tokens the client does not hold |
| MobileRuns.ClientNeverLooksLikeAReplay | mobile/src/lib/api-client.ts:89-94 | Unless the reuse of another token of the client's own person is detected elsewhere, what the client has posted is live and the row locked for it is never judged a reuse, in every interleaving |
| MobileRuns.SerialRefreshIsARun | mobile/src/lib/api-client.ts:96-123 | With nobody else at work, a 401 leads to exactly what `Refresh` stores, and the client ends with the successor of its token or logged out |
| MobileClient.OverlappingRefreshesBurnTheFamily | mobile/src/lib/api-client.ts:89-94 | Without the guard, posting one token twice is rejected and leaves its owner no live token, the one just granted included |
| Areas.AreaAuthorizationService.ResolveAreaAndAncestors | backend/src/modules/area-authorization/area-authorization.service.ts:61-76 | On every parent map, cycles included, the walk ends and visits exactly the area and its transitive parents |
| Areas.AreaAuthorizationService.IsAuthorized | backend/src/modules/area-authorization/area-authorization.service.ts:26-55 | Authorised iff some grant of the category on an ancestor-or-self area has begun, if it has a beginning, and has not run out, if it has an end, both moments included |
| Areas.AuthorizationIsInherited | backend/src/modules/area-authorization/area-authorization.service.ts:16-20 | Whatever is authorised in an area is authorised in everything nested below it |
| Areas.LapsedGrantsAdmitNobody | backend/src/modules/area-authorization/area-authorization.service.ts:47-55 | When every grant that reaches the area has run out or not begun, nobody of the category is authorised in it |
| Areas.GrantsOnlyInTheirTime | backend/src/modules/area-authorization/area-authorization.service.ts:47-55 | Before all grants of a category begin and after all have run out, nobody of it is authorised anywhere |
| Areas.AncestorsAreTheLeastClosedSet | backend/src/modules/area-authorization/area-authorization.service.ts:57-76 | The ancestors-or-self of an area are the least set that holds it and every parent of its members |
| Areas.AreaService.Create | backend/src/modules/area/area.service.ts:19-32 | Refused iff a parent is named and missing; otherwise the one new area has that parent and every other keeps its own |
| Areas.BuiltHierarchiesAreAcyclic | backend/src/modules/area/area.service.ts:19-32 | A hierarchy built only by creations has no cycle, and every way up ends |
| Areas.CreationRanks | backend/src/modules/area/area.service.ts:23-31 | Creations only ever put an area below an existing one |
| Incidents.SecurityService.ProcessRawEvent | backend/src/modules/intrusion-detection/intrusion-detection.service.ts:34-52 | One entry more iff the event shows nobody on record or someone without a grant in force there; the entry carries the event's own tenant, area and time, on the open incident, which moves there, or on a new one that names whoever was identified |
| Incidents.SecurityService.EvaluateCandidate | backend/src/modules/intrusion-detection/intrusion-detection.service.ts:64-85 | An intrusion iff it is a barrier crossing, or the tag is empty or unknown, or no grant of the holder's category on an ancestor-or-self area is in force at the capture time; person and category are the holder's iff a known tag was scanned |
| Incidents.SecurityService.CorrelateIntoIncident | backend/src/modules/intrusion-detection/intrusion-detection.service.ts:93-116 | Open incident: it moves and gains the entry; none: one is opened with the entry |
| Incidents.SecurityService.OpenNewIncident | backend/src/modules/intrusion-detection/intrusion-detection.service.ts:143-176 | Never a second open incident: a refused insert joins the winner, whose area stays |
| Incidents.SecurityService.Close | backend/src/modules/security-incident/security-incident.service.ts:61-94 | Succeeds iff the incident is the tenant's and open, and then stores the closure and changes nothing else; any failure changes nothing and says which of the two it was |
| Incidents.OpenIncident | backend/src/modules/intrusion-detection/intrusion-detection.service.ts:99-100 | The lookup finds an open incident of the tenant iff there is one |
| IncidentRuns.OpenedMinusClosed | backend/src/database/migrations/1755849000000-AddIntrusionIncident.ts:88-93 | In every committed state a tenant's opened incidents exceed its closed ones by nought or one |
| IncidentRuns.CommittedSignalsAreRecorded | backend/src/modules/intrusion-detection/intrusion-detection.service.ts:93-116 | Every logged commit of a job, lost races included, left exactly one entry for its signal on an incident of its tenant |
| IncidentRuns.CurrentAreaIsLastSeen | backend/src/modules/intrusion-detection/intrusion-detection.service.ts:118-125 | In every run an incident's current area is that of its last entry not written through a lost race |
| IncidentRuns.OneClosurePerIncident | backend/src/modules/security-incident/security-incident.service.ts:70-93 | In every interleaving at most one closure of an incident succeeds |
| IncidentRuns.ClosuresAreForever | backend/src/modules/security-incident/security-incident.service.ts:81-90 | Outcome, note, closer and closing time never change afterwards |
| IncidentRuns.RefusedInsertHasAWinner | backend/src/database/migrations/1755849000000-AddIntrusionIncident.ts:90-93 | An insert is refused iff the tenant has a committed open incident |
| IncidentRuns.LookupDecides | backend/src/modules/intrusion-detection/intrusion-detection.service.ts:171-172 | Whatever others do after the fallback lookup, closing that very incident included, the incident it found gains the entry and nothing else changes; with none open nothing is written |
| IncidentRuns.LostRaceRecovers | backend/src/modules/intrusion-detection/intrusion-detection.service.ts:143-176 | A job that loses the insert race commits its entry on the winner, whatever others do after the refused insert, the rollback and the lookup, unless a closure of the winner itself commits before the lookup |
| IncidentRuns.EveryRunIsSound | backend/src/modules/intrusion-detection/intrusion-detection.service.ts:93-176 | One open incident per tenant, one entry per job, one record per closure, and exclusive holders after every event sequence |
| IncidentRuns.SerialJobIsARun | backend/src/modules/intrusion-detection/intrusion-detection.service.ts:93-116 | Alone, a job's statements store what `CorrelateIntoIncident` stores |
| IncidentRuns.SerialCloseIsARun | backend/src/modules/security-incident/security-incident.service.ts:61-94 | Alone, a closure's statements store what `Close` stores, under the same condition |
| Outbox.Table.InsertOrIgnore | backend/src/modules/ingestion/ingestion.service.ts:37-77 | A new key adds one row and one job; a known key adds neither and answers with the existing row |
| Outbox.ReceiptsAgree | backend/src/modules/ingestion/ingestion.service.ts:55-77 | All accepted sends of a key name the same row, and at most one of them created it |
| Outbox.OneJobPerRow | backend/src/modules/ingestion/ingestion.service.ts:56-64 | Every row has exactly one job and no job lacks its row |
| Outbox.StepKeepsInv | backend/src/modules/ingestion/ingestion.service.ts:37-77 | Any statement of any sender keeps keys unique, rows and jobs paired and receipts truthful |
| Outbox.SerialInsertIsARun | backend/src/modules/ingestion/ingestion.service.ts:37-77 | Alone, an insert's steps store what `InsertOrIgnore` stores |
| Pipeline.CheckinPipeline.Ingest | backend/src/modules/ingestion/event-data.validator.ts:16-62 | Accepted iff the field its type requires is there and, unless CUSTOM, no other; then the event and its job exist once, otherwise nothing is stored |
| Pipeline.CheckinPipeline.Submit | backend/src/modules/app-checkin/app-checkin.service.ts:58-149 | Accepted iff exactly one session is in progress among the person's classes and the factor is registered; each refusal names its own condition and stores nothing |
| Pipeline.CheckinPipeline.ResolveActiveClassSession | backend/src/modules/app-checkin/app-checkin.service.ts:160-184 | None, exactly this one, or several sessions of the tenant and of classes the person is enrolled in contain the moment, both ends included |
| Pipeline.CheckinPipeline.ProcessRawEvent | backend/src/modules/identification/identification.service.ts:44-109 | An unresolvable event stores nothing; any other leaves one check-in and one job however often it is delivered; the job fails, storing nothing, iff a check-in to be created names no existing session |
| Pipeline.CheckinPipeline.ResolveClassSession | backend/src/modules/identification/identification.service.ts:78-83 | With a room, some session of that room covering the capture time, or none iff there is none; without, the event's own claim |
| Pipeline.IdentifiedInsideWindow | backend/src/modules/identification/identification.service.ts:78-95 | What identification may insert belongs to its raw event, and it falls inside its session unless the event bypasses the window |
| Pipeline.InsideIff | backend/src/modules/identification/identification.service.ts:78-83 | Whatever the room query answers, a check-in falls inside its session iff its event does not bypass the window or was captured inside the session it claims |
| Pipeline.OneRawEventPerKey | backend/src/modules/ingestion/ingestion.service.ts:37-77 | In every run of resends, each tenant and idempotency key has one raw event, returned by every accepted send, with exactly one identify job |
| Pipeline.OneCheckinPerRawEvent | backend/src/modules/identification/identification.service.ts:85-108 | In every run of redeliveries, a raw event has at most one check-in, of its own tenant and time, with exactly one deduplication job |
| Pipeline.CheckinsAreInsideTheirSession | backend/src/modules/identification/identification.service.ts:167-177 | In every run a check-in's session exists, and it was taken while that was scheduled iff its raw event does not bypass the window or was captured inside the session it claims |
| Provenance.CheckinsNameTheirHolder | backend/src/modules/identification/identification.service.ts:61-95 | In every run a check-in's person and factor are what the registries answered for its raw event at one of that event's own deliveries |
| Provenance.IdentifiedIff | backend/src/modules/identification/identification.service.ts:54-96 | An event becomes a check-in iff the registries name someone for it and something it shows, type by type; the check-in is theirs, of that factor, at the capture time, in the session found |
| Provenance.AppCheckinsAreTheCallers | backend/src/modules/app-checkin/app-checkin.service.ts:58-184 | In every run an app check-in was submitted by its own person, at its own server time, for a session then in progress of a class they are enrolled in |
| Provenance.SerialAppSendIsARun | backend/src/modules/app-checkin/app-checkin.service.ts:97-134 | Alone, an app submission with one session in progress stores the app's event for that session and its job |
| Pipeline.GradesAreSoundEndToEnd | backend/src/modules/attendance-rules/attendance-rules-engine.service.ts:112-163 | From device to grade, in all runs of identification and deduplication: no factor is lost to deduplication, and a person whose bypassing room check-ins were all captured inside the session they claim is graded in [0, 100] with a permanence inside the session |
| BypassRun.BypassIsStored | backend/src/modules/identification/identification.service.ts:81-83 | A run from two device sends stores an in-window entry and, through a roomless CUSTOM event, an exit an hour after the session it claims |
| BypassRun.BypassOverflowsAGrade | backend/src/modules/attendance-rules/attendance-rules-engine.service.ts:147-161 | Continuing that run through both deduplication jobs, both check-ins survive and the one-hour session grades the person at 200% |
| BypassRun.SerialCheckinIsARun | backend/src/modules/identification/identification.service.ts:44-109 | Alone, a new valid event's send and delivery, under any registries, store the event with its identify job and the check-in identification writes for it with its deduplication job |

## Left out

- PermanenceFitsSession: needs the person's room check-ins to lie inside the window; `InsideIff` says exactly which events the code lets past it.
- GradesAreSoundEndToEnd: check-in insertions into deduplication come from one run of identification, without fixing which of the two is ahead.
- GradesAreBounded: exact rationals; rounding of doubles and of the `numeric(5,2)` column is not modelled.
- TimelineIgnoresArrival: distinct times only; rows of the same millisecond keep the scan's order, which the query leaves open.
- ReuseBurnsTheFamily: for calls one after another; `BurnLeavesOnlyNewer` says exactly what a burn leaves live beside other transactions.
- RevokeAllForPerson: in interleaved runs its row locks are taken together at its end rather than one by one.
- LostRaceRecovers: no closure of the winner commits before the fallback lookup; otherwise the lookup finds another open incident or the job fails and is redelivered (`LookupDecides`).
- NeverPresentsRotatedToken: nobody else presents the client's own token, no answer of a committed refresh is lost, the app is not killed during a refresh, and no login or logout overlaps one; failures of secure storage and of parsing are not modelled.
- ReviewLifecycle: each evaluation and each resolution is one event; `InterleavedLifecycle` is what holds when they interleave.
- HumanDecisionSurvives: the same events; `DecisionIsSafeIff` is the exact condition when they interleave.
- StepKeepsDecision: the same events.
- InterleavedLifecycle: an evaluation writes one person's rows in one step once it has the row lock, and a resolution is one step at its commit; interval rows of two evaluations that both delete and reinsert them before either takes that lock, and two resolutions of one review at once, are not covered.
- RebuildForPerson: a method of the register class, since the interval rows it deletes and reinserts belong to the same session's tables; the ids of those rows are not kept.
- EvaluateSession: roster and check-ins are read at one moment; registers are kept per session, with a review's id its position in the session.
- SnapshotIsMostSpecific: the configuration is read at one moment; `InterleavedSnapshot` covers separate statements.
- UpsertConfig: one call at a time; two first inserts of one scope racing against the unique index are not interleaved.
- AreaService.Create: the generated key is a parameter.
- SecurityService and CheckinPipeline: several services share one class because they share tables.
- The `confidence` field of facial matches and the `count` of camera events; other shape checks of request bodies.
- Tolerance minutes and post-tolerance behaviour: snapshotted, never read by grading.
- Row-level security: queries are assumed to see their own tenant's rows.
- Password checks, token hashing, JWT signing and access tokens: a token is a fresh opaque value.
- The queue and the ORM beyond jobs, redelivery, locks, constraints and savepoints.
- Controllers, guards, throttling, DTOs, screens, storage wrappers.
- Plain CRUD (courses, rooms, cameras, devices, wristbands, persons, permission groups), listings and the suggested camera of an incident.
