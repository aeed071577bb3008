# A Dafny model of the backend's state machines

The backend keeps accounts, sessions, one-time codes, donated books, study documents and rate limits. Most
of its hard logic is a handful of small state machines over database rows, Redis keys and in-process maps.
This project models them, one file per component, and proves what they promise over every run.

Time is an integer number of milliseconds that never goes back. Identifiers are numbers or strings; the ones
a database generates are taken to be new. Hashes are taken to be injective, and a signed token verifies only
if this service issued it and its whole-second expiry lies ahead. A Redis key is live exactly while the clock
is before its expiry. A service class appears as a class whose methods are proved equal to a step function on
values; the theorems are about runs of that function.

| file | what it models |
|---|---|
| `Prelude.dfy` | options, finite counting, sums over piles, entries in a sliding window |
| `RedisKeys.dfy`, `Throttle.dfy` | the Lua throttle script and the guard's rule loop |
| `UploadQuota.dfy` | the byte budget: Lua scripts and their in-process twin |
| `DevAlerts.dfy` | the developer-alert queue: dedupe, ceiling, pruning |
| `RefreshTokens.dfy` | the token table and the statements run on it |
| `RefreshInterleavings.dfy` | refresh, sign-in and sign-out split into statements, any number in flight (section 4.14.2 of RFC 9700) |
| `AuthSessions.dfy`, `AuthRefinement.dfy`, `SessionAnswers.dfy` | the same service by whole calls, how the two fit, and what each call is answered |
| `EmailCodes.dfy`, `EmailTokens.dfy`, `LiveCodes.dfy`, `EmailAnswers.dfy` | one-time codes by statement and by whole call, how many are live, and what they are answered for how long |
| `BookHandover.dfy`, `BookAnswers.dfy` | books and their requests, and what each call is answered |
| `YearLevels.dfy`, `PromotionSettings.dfy`, `YearPromotion.dfy`, `PromotionAnswers.dfy` | years, the promotion schedule and its cache by statement and by whole call, the lazy yearly advance, profile edits |
| `DocumentVisibility.dfy` | the visibility rule in its three copies |
| `DocumentReview.dfy`, `DocumentHistory.dfy`, `DocumentTypes.dfy`, `DocumentAnswers.dfy` | uploads, staged and sent files and their review: the calls with their invariant, what holds over every run, and what each call is answered and stores |
| `Luhn.dfy` | the check-digit loop (ISO/IEC 7812-1, Annex B) |
| `ClamFraming.dfy` | the INSTREAM framing loop |
| `StorageRef.dfy` | object refs and their grouping for deletion |

Where the code and its own words differ, the model follows the code:

- Comments at `src/modules/auth/auth.service.ts:786` and `:903` speak of a ten-minute code window; the code
  gives three minutes (`:53-61`). The header of
  `src/database/migrations/1789862400000-EmailVerificationAndPasswordReset.ts:19` says codes are stored as
  SHA-256; they are stored with bcrypt.
- `src/modules/users/users.service.ts:97-98` says an account never seen before is stamped and not moved. That
  holds for a first visit before the scheduled instant; a first visit after it advances the student
  (`FirstVisitDecides`).
- `src/common/rate-limit/upload-quota.service.ts:59-62` says a refund must not extend the window. The refund
  itself does not (`RefundKeepsExpiry`), but the next consume after a refund that emptied the key starts the expiry afresh, which
  the in-process window does not do (`EmptyingRefundDiverges`; `TamenessIsExact` says when the two agree).
- The alert channel's "more than 20 in a minute" is a fixed window (`FixedWindowBound`): a sliding minute can
  hold 40, and no more (`MinuteBoundIsReached`, `MinuteBound`).
- `src/modules/auth/auth.service.ts:882-883` says three requests for a reset mail do not leave three working
  codes. Requests that overlap do: as many as were under way at once, and no more (`LiveBoundIsReached`,
  `LiveCodesBounded`).
- `src/modules/settings/promotion-settings.service.ts:102` empties the cache because the next read must see the
  new schedule. A read that was already answered by the database writes the old instant back
  (`OvertakenReadHappens`; `AcceptedIsSeenExactly` says exactly when, `CacheSettles` for how long).
- `src/modules/documents/documents.service.ts:566-568` says a bad payload cannot produce an upload with no
  files. The row is saved before the claim or the first sent file is refused, and stays (`EmptyUploadHappens`,
  `EmptyUploadHappensOverQuota`; `RefusalsLeaveExactly` says exactly when, `EmptyUploadsExactly` for how long).
- `src/modules/documents/documents.service.ts:313-318` says no document type of the wrong kind reaches the
  database. An edit that moves an upload to another kind of department without sending a type is not checked
  (`DocTypeIsLost`; `DocTypeSuitsExactly` and `UnsuitedUploadsExactly` say exactly when).

## Model

Theorems first, module by module; then what each call is answered and leaves, stated from the rows, the clock and
the request alone; the operations with loops or many branches last. Each of the other methods of the service classes (refunding, issuing, signing out, resetting, banning, listing and editing books, answering
requests, scheduling, visiting, removing, deleting and judging) equals its step function by its `ensures`, and
reaches the reader through the theorems, which range over all of those steps.

| member | source | states |
|---|---|---|
| Throttle.SlidingBound | src/common/rate-limit/redis-throttler.storage.ts:30-59 | any half-open interval of one window length admits at most 2·limit − 1 calls |
| Throttle.SlidingBoundIsReached | src/common/rate-limit/redis-throttler.storage.ts:30-59 | for every limit some caller gets exactly that many |
| Throttle.PoliteCallerNeverRefused | src/common/rate-limit/redis-throttler.storage.ts:30-59 | a caller who never exceeds the limit in any window length is never refused |
| Throttle.RetryAfterIsEnough | src/common/rate-limit/redis-throttler.storage.ts:119-125 | the seconds a refused caller is told are enough and less than one second too many: until the block itself ends every call is refused without effect, and a call at or after the told wait is admitted |
| Throttle.BudgetToldIsLeft | src/common/rate-limit/rate-limit.guard.ts:88-112 | the budget told to a caller who passes counts the admissions since the window opened, this one included, and the reset told is that window's end in seconds, rounded up |
| Throttle.CallsKeepInv | src/common/rate-limit/redis-throttler.storage.ts:30-59 | over any run of calls, a blocked counter has always expired by the time its block ends, and admitted calls stay spaced |
| Throttle.CountStaysBounded | src/common/rate-limit/redis-throttler.storage.ts:44-56 | the count never exceeds the limit by more than one |
| Throttle.EveryRuleMustPass | src/common/rate-limit/rate-limit.guard.ts:74-101 | a request passes exactly when each rule, judged on its own counter, lets it |
| Throttle.ChargedUpToTheRefusal | src/common/rate-limit/rate-limit.guard.ts:74-101 | each rule up to the refusal is charged one call, later rules none |
| Throttle.OtherKeysUntouched | src/common/rate-limit/rate-limit.guard.ts:74-101 | keys of no rule of the tier keep their counters |
| Throttle.RejectionEndsTheLoop | src/common/rate-limit/rate-limit.guard.ts:98-100 | nothing is counted after the first refusal |
| Throttle.KeyNamesItsRule | src/common/rate-limit/rate-limit.guard.ts:75-76 | two charges share a counter exactly when rule and tracker are the same |
| UploadQuota.TwinsAgree | src/common/rate-limit/upload-quota.service.ts:123-199 | on every tame run both implementations give the same decision, remaining bytes and wait; tame: nothing but a positive consume opens a window, and no refund empties one, unless windows last one millisecond |
| UploadQuota.TamenessIsExact | src/common/rate-limit/upload-quota.service.ts:36-199 | that proviso is exact: the two answer alike at every point of a run, for any next two consumes, if and only if the run is tame |
| UploadQuota.EmptyingRefundDiverges | src/common/rate-limit/upload-quota.service.ts:36-71 | after a refund into an open window they stay alike if and only if it leaves the window something, or windows last one millisecond |
| UploadQuota.EmptyConsumeDiverges | src/common/rate-limit/upload-quota.service.ts:36-54 | after a consume of no bytes they stay alike if and only if the window was open already, or windows last one millisecond |
| UploadQuota.WindowHoldsTheBalance | src/common/rate-limit/upload-quota.service.ts:157-225 | an open window holds exactly the bytes admitted less the bytes refunded, at most the maximum, on every run |
| UploadQuota.KeyHoldsTheBalance | src/common/rate-limit/upload-quota.service.ts:36-71 | the same for the key |
| UploadQuota.RefundKeepsExpiry | src/common/rate-limit/upload-quota.service.ts:59-71 | the refund script moves no expiry and revives no dead key |
| UploadQuota.PruneNeverMatters | src/common/rate-limit/upload-quota.service.ts:234-244 | pruning at any moments changes no later decision |
| DevAlerts.EveryAlertIsAccountedFor | src/common/alerts/dev-alert.service.ts:339-384 | alerts raised = delivered + reported as suppressed + held + pruned + dropped, for each signature |
| DevAlerts.MinuteBound | src/common/alerts/dev-alert.service.ts:342-372 | any closed span of 60 000 ms holds at most 40 alerts, 42 messages with throttle notices |
| DevAlerts.MinuteBoundIsReached | src/common/alerts/dev-alert.service.ts:342-372 | the bounds of 40 and 42 are reached, from any start |
| DevAlerts.FixedWindowBound | src/common/alerts/dev-alert.service.ts:342-372 | a stretch of calls during which the counting window stays the same sends at most 20 alerts, 21 messages with the notice |
| DevAlerts.RepeatsAreFolded | src/common/alerts/dev-alert.service.ts:351-356 | two deliveries of one signature are at least 60 000 ms apart |
| DevAlerts.RepeatIsDeliveredAfterAMinute | src/common/alerts/dev-alert.service.ts:339-376 | after any number of repeats within a minute of its delivery, the first repeat after that minute is delivered and reports exactly how many were held |
| DevAlerts.MemoryHolds | src/common/alerts/dev-alert.service.ts:370-384 | every delivery is remembered for a minute, and every entry is a delivery |
| DevAlerts.MapStaysSmall | src/common/alerts/dev-alert.service.ts:371-384 | the map holds at most 499 signatures after any call |
| RefreshTokens.SignedExpiryIsNotLater | src/modules/auth/auth.service.ts:968-983 | the signed expiry never falls after the stored one, so a token that verifies has a row the purge keeps |
| RefreshInterleavings.NoGraceOneHolder | src/modules/auth/auth.service.ts:502-531 | with a grace window of zero, under every interleaving a family has at most one live row or request about to insert one |
| RefreshInterleavings.OneHolderPlusGrants | src/modules/auth/auth.service.ts:488-531 | with any grace window, at most one and one more for each replay the window let through |
| RefreshInterleavings.RevivedOnlyByPending | src/modules/auth/auth.service.ts:506-531 | a family without rows never has one again in any continuation if and only if no request that was already let through is still to insert its child |
| RefreshInterleavings.NoRowClaimedTwice | src/modules/auth/auth.service.ts:506-509 | no row is ever claimed twice |
| RefreshInterleavings.FamilyHasOneUser | src/modules/auth/auth.service.ts:959-983 | all rows of a family belong to one user, the one their tokens name |
| RefreshInterleavings.StepKeepsInv | src/modules/auth/auth.service.ts:475-605 | every statement of every request keeps ownership of rows and requests, the claim log free of repeats, and the count of holders of each family |
| AuthSessions.RefreshIssuesExactly | src/modules/auth/auth.service.ts:475-533 | in every reachable state a refresh issues a token exactly when its own verifies, has a row, and that row is unclaimed or claimed within the grace window; otherwise it is refused, and only a late replay deletes anything |
| SessionAnswers.FirstExchangeExactly | src/modules/auth/auth.service.ts:968-983 | a token from any sign-in is good for its first exchange any time later if and only if its whole-second expiry lies ahead |
| SessionAnswers.SecondExchangeExactly | src/modules/auth/auth.service.ts:548-587 | an exchanged token is good for another child, any time later, if and only if less than the grace window has passed and it has not expired |
| AuthSessions.LateReplayIsFinal | src/modules/auth/auth.service.ts:511-515 | after a late replay no token of the family is exchanged again and the family never has a row again |
| AuthSessions.LogoutIsFinal | src/modules/auth/auth.service.ts:597-605 | the same after signing out |
| AuthSessions.ResetIsFinal | src/modules/auth/auth.service.ts:752-771 | no earlier token of a user is exchanged after a password reset |
| AuthSessions.OnlyTheNewPassword | src/modules/auth/auth.service.ts:752-771 | after a password reset, in any continuation without another one, a sign-in opens a session if and only if it names the new password and the account is not banned |
| SessionAnswers.LoginsAreConfirmed | src/modules/auth/auth.service.ts:245-262 | over any run, a password opens a session only for an account confirmed from the start or by a code redeemed earlier in the run |
| AuthSessions.BanIsFinal | src/modules/admin/admin.service.ts:495-532 | nor is any earlier token of a user exchanged after a ban, even when it is later lifted |
| AuthSessions.BannedHaveNoRows | src/modules/admin/admin.service.ts:526-527 | in every reachable state a banned user has no stored token |
| AuthSessions.DeadIsNeverExchanged | src/modules/auth/auth.service.ts:488-500 | a token without a row is never exchanged again in any run |
| AuthSessions.OthersUntouched | src/modules/auth/auth.service.ts:475-605 | rows of other families and users survive every call unchanged |
| AuthSessions.PurgingChangesNoAnswer | src/database/migrations/1789862400000-EmailVerificationAndPasswordReset.ts:77 | purging expired rows at any moments changes no answer, while sign-outs use unexpired tokens |
| AuthSessions.ExpiredLogoutTellsThemApart | src/modules/auth/auth.service.ts:597-605 | the proviso is needed: signing out with a token whose row only the purged table has lost tells the two apart, for a token of the same family, exactly when that one could still be exchanged |
| AuthSessions.ExpiredLogoutHappens | src/modules/auth/auth.service.ts:597-605 | it happens in a run from one account: sign in, refresh, outlive the first token, purge, sign out with it, and its sibling still refreshes |
| AuthSessions.CallKeepsInv | src/modules/auth/auth.service.ts:475-605 | every call keeps rows owned as signed and banned users without rows |
| AuthRefinement.RefreshCallIsItsSteps | src/modules/auth/auth.service.ts:475-587 | a refresh whose statements run without interruption is the whole call, on every branch |
| AuthRefinement.SignInIsItsSteps | src/modules/auth/auth.service.ts:202-304 | so is a sign-in of any kind, refused or not: its statements are the whole call |
| AuthRefinement.SignOutIsItsSteps | src/modules/auth/auth.service.ts:597-605 | so is a sign-out, with a stored token or an unknown one |
| AuthRefinement.RevocationIsOneStep | src/modules/auth/auth.service.ts:752-771 | a reset, a ban and the retention job are one statement each, as far as the tokens go |
| EmailCodes.WrongGuessesBounded | src/modules/auth/auth.service.ts:827-863 | with at most k calls in flight on a code, at most 4 + k wrong guesses are ever compared with it |
| EmailCodes.GuessBoundIsReached | src/modules/auth/auth.service.ts:827-863 | for every k ≥ 1 some interleaving compares exactly that many |
| EmailAnswers.ThreeMinutesExactly | src/modules/auth/auth.service.ts:827-876 | under any interleaving, a call that finds a code unspent compares a guess with it, and a whole call accepts its secret, if and only if it was stored less than 180 000 ms ago and is under the cap; from then on it is expired |
| EmailCodes.SpentAtMostOnce | src/modules/auth/auth.service.ts:867-873 | under any interleaving at most one consuming call succeeds on a code |
| EmailCodes.ClosedAuthorisesNothing | src/modules/auth/auth.service.ts:827-830 | a consumed, superseded, burned or purged code is never spent or compared by a later call |
| EmailTokens.RedeemIsItsSteps | src/modules/auth/auth.service.ts:827-876 | the statements run alone do to the row what the whole call does, and a refused guess is counted |
| EmailTokens.FiveGuessesOneAtATime | src/modules/auth/auth.service.ts:842-863 | one call at a time, at most five wrong guesses are ever compared with a code |
| EmailTokens.IssueIsItsSteps | src/modules/auth/auth.service.ts:889-922 | the two statements of issuing run alone are the whole call |
| LiveCodes.LiveCodesBounded | src/modules/auth/auth.service.ts:893-922 | with at most k codes of one account and purpose on their way at once, at most k of them are ever live, under any interleaving with redeeming and purging |
| LiveCodes.LiveBoundIsReached | src/modules/auth/auth.service.ts:893-922 | for every k some interleaving of issuing leaves exactly k live |
| BookHandover.DonatedEqualsReceived | src/modules/books/books.service.ts:1018-1042 | over all users, donated adds up to received |
| BookHandover.StatusIsTheRequests | src/modules/books/books.service.ts:336-810 | in every reachable state: reserved exactly with one accepted request, donated exactly with one completed request and then nothing active |
| BookHandover.CallKeepsInv | src/modules/books/books.service.ts:336-810 | every call keeps a book's status equal to its requests, timestamps equal to statuses, and no active request of a refused pair |
| BookHandover.OneActive | src/database/migrations/1788912000000-BookHandoverFlow.ts:72-75 | two active requests of one book are the same request, so the unique index never has to refuse |
| BookHandover.NoRivals | src/modules/books/books.service.ts:501-519 | the loop over rivals never finds one |
| BookHandover.ChangesAreAuthorised | src/modules/books/books.service.ts:447-810 | every status change is one of the allowed ones, by the party entitled to it |
| BookHandover.RequestsAreAsked | src/modules/books/books.service.ts:336-407 | a request appears only for an available, visible book of someone else's (and exactly when `AskIsAnswered` says) |
| BookHandover.TerminalIsFinal | src/modules/books/books.service.ts:447-810 | a declined, cancelled, expired or completed row never changes again |
| BookHandover.DeclineIsFinal | src/modules/books/books.service.ts:368-385 | a requester turned away from a book never has an active request on it again |
| BookAnswers.CancelledCanAskAgain | src/modules/books/books.service.ts:336-631 | a requester whose request was called off can ask for the book again at once |
| BookAnswers.ExpiredCanAskAgain | src/modules/books/books.service.ts:336-691 | so can one whose reservation ran out |
| BookHandover.DonatedIsFinal | src/modules/books/books.service.ts:702-756 | donated is left only by deletion |
| BookHandover.WantedIsFrozen | src/modules/books/books.service.ts:254-297 | no call changes the donor or department of a book with a pending, accepted or completed request |
| BookHandover.OnlyDeletionRemoves | src/modules/admin/admin.service.ts:417-447 | a book leaves only by its donor's or an admin's delete |
| BookHandover.RemoveDropsNothingLive | src/modules/books/books.service.ts:254-309 | the donor's delete never drops an active request or a completed handover |
| BookHandover.RefusalsChangeNothing | src/modules/books/books.service.ts:336-810 | a refused call changes nothing |
| BookHandover.ReservationsCanEnd | src/modules/books/books.service.ts:573-756 | a reserved book is never stuck: either side can cancel, the receiver can confirm, and after three days the sweep frees it |
| BookHandover.RequestsCanBeAnswered | src/modules/books/books.service.ts:447-810 | a pending request can be accepted and declined by its donor and taken back by its requester |
| BookHandover.NothingStaleRemains | src/modules/books/books.service.ts:646-671 | after the sweep no accepted request is older than three days |
| BookHandover.SweepTouchesOnlyTheStale | src/modules/books/books.service.ts:651-671 | exactly the stale requests expire, every other row is unchanged |
| BookHandover.SweepReleasesExactly | src/modules/books/books.service.ts:651-671 | a book comes back exactly when its own reservation was stale |
| YearLevels.YearsByKind | src/modules/documents/utils/year-levels.ts:13-31 | years 1 and 2 for foundation and language majors, 3 to 5 for every other, whatever the letter case |
| PromotionSettings.WrongAnswersAreExplained | src/modules/settings/promotion-settings.service.ts:42-102 | under every interleaving of reads and schedules, while no schedule is halfway, an answer differs from what is stored only if its read failed, and then it is "nothing scheduled", or if a schedule returned after the database had answered its read |
| PromotionSettings.SettledExactly | src/modules/settings/promotion-settings.service.ts:42-62 | all later answers are right, until a schedule is written or a read fails, if and only if neither the fresh cache nor a read the database has answered holds anything but what is stored |
| PromotionSettings.AcceptedIsSeenExactly | src/modules/settings/promotion-settings.service.ts:84-102 | a schedule that returns is what every later read answers, in that sense, if and only if no read under way was answered with something else |
| PromotionSettings.CacheSettles | src/modules/settings/promotion-settings.service.ts:32-62 | ten seconds without a new schedule, a failure or a read under way with an old answer make every later answer right, whatever went before |
| PromotionSettings.OvertakenReadHappens | src/modules/settings/promotion-settings.service.ts:42-102 | a read overtaken by a schedule lets the old instant be answered 9 999 ms later |
| PromotionSettings.CallsAreTheirSteps | src/modules/settings/promotion-settings.service.ts:42-102 | the statements of a read or of a schedule run alone are the whole call, answer and state |
| PromotionSettings.CacheIsTransparent | src/modules/settings/promotion-settings.service.ts:32-102 | when calls do not overlap, a read answers with what is stored unless it failed or the cache holds, for under ten seconds, the nothing a failed one left; and an accepted schedule is what the very next read answers |
| YearPromotion.NoInstantTwice | src/modules/users/users.service.ts:103-144 | over any run, under any schedules, the instants that moved a student strictly increase |
| PromotionAnswers.EveryScheduleCounts | src/modules/users/users.service.ts:103-144 | none is lost either: a student outside the foundation programme who visits after each of a rising series of schedules is moved by each of them once, up to the last year, whatever the stamp before |
| YearPromotion.StampNeverFalls | src/modules/users/users.service.ts:103-144 | no visit lowers a stamp, and a settled rollover raises it to the scheduled instant, which has passed |
| YearPromotion.FirstVisitDecides | src/modules/users/users.service.ts:110-143 | an unstamped student is moved by an instant exactly when the first visit comes at or after it |
| YearPromotion.GetMeTwice | src/modules/users/users.service.ts:103-144 | repeating a visit at the same time and schedule changes nothing |
| YearPromotion.VisitKeepsYearValid | src/modules/users/users.service.ts:133-140 | a year valid for its department stays valid and rises by at most one |
| YearPromotion.PromotedYearIsReal | src/modules/users/users.service.ts:103-144 | one visit leaves a year its department has if and only if it was one, or a due promotion makes it one |
| YearPromotion.EditKeepsYearValidExactly | src/modules/users/users.service.ts:216-239 | a successful edit leaves a year its department has if and only if the placement it writes has one, or the promotion applied in the same call moves it there: down to 2 in a foundation or language major, up from 2 elsewhere |
| YearPromotion.PlacementIsTakenAsSent | src/modules/users/users.service.ts:216-239 | so a held year need not be real: a first-time profile in TC with year 5 is stored, and the next promotion moves that student down |
| YearPromotion.AdvanceMeans | src/modules/users/utils/promotion.ts:67-75 | one promotion adds one year up to the department's last; it lowers a year exactly when that lies beyond the last |
| YearPromotion.YearMovesWithItsStamp | src/modules/users/users.service.ts:130-143 | a visit changes a year only together with the stamp |
| YearPromotion.PlacementIsGuarded | src/modules/users/users.service.ts:216-232 | a complete student who owes no answer cannot change department or year |
| YearPromotion.OnlyAnAnswerMovesThem | src/modules/users/users.service.ts:103-128 | no run of plain visits, under any schedules, touches a stamped student in the year the question is about |
| YearPromotion.AnswerSettles | src/modules/users/users.service.ts:234-239 | naming another department settles the rollover, and the same call advances nobody again |
| YearPromotion.YearAloneIsNoAnswer | src/modules/users/users.service.ts:216-239 | a year sent without another department leaves the student in year 2, and the question stays open exactly when that year is 2 |
| YearPromotion.HandlesCoherentFromTheStart | src/modules/users/users.service.ts:154-199 | from an account without handles, over any run of visits and edits, the handle in use is one of the saved ones |
| YearPromotion.EditKeepsHandlesCoherent | src/modules/users/users.service.ts:154-199 | in one edit a sent list replaces the saved one, keeps the selection it holds and otherwise falls back to its first entry; a lone handle becomes the selection |
| YearPromotion.OrphanIsNotInUse | src/modules/users/users.service.ts:246-274 | an edit hands over the old avatar for deletion exactly when the row no longer shows it; its file goes if a key can be read from its URL |
| DocumentVisibility.AudienceTestsDiffer | src/modules/documents/documents.service.ts:258-303 | the SQL condition and the in-memory check differ exactly for an incomplete profile whose fallback pair is in the list |
| DocumentVisibility.BrowseFilterIsCanView | src/modules/documents/documents.service.ts:222-304 | on resolved audiences the browse filter accepts an upload exactly when canView does and it is neither expired nor hidden |
| DocumentVisibility.BrowseFilterDisagrees | src/modules/documents/documents.service.ts:222-304 | on arbitrary audiences, the exact condition for that |
| DocumentVisibility.FeedIsGranted | src/modules/documents/documents.service.ts:1052-1127 | every file the feed shows a viewer is one signing grants to that viewer at that moment, as far as its ref can be used |
| DocumentVisibility.DetailIsGranted | src/modules/documents/documents.service.ts:1213-1236 | for files of active uploads with a usable ref, the detail page shows exactly what signing grants |
| DocumentVisibility.DetailShowsOnlyItsOwn | src/modules/documents/documents.service.ts:1041-1048 | a detail page shows only files of its upload, each granted |
| DocumentVisibility.FeedIsInDetail | src/modules/documents/documents.service.ts:1052-1236 | what the browse feed shows of an upload its detail page shows too |
| DocumentVisibility.StrangersAreGranted | src/modules/documents/documents.service.ts:830-895 | the exact condition under which someone other than uploader or admin is granted a file |
| DocumentAnswers.GrantsExactly | src/modules/documents/documents.service.ts:830-895 | signing grants a file to its uploader and to admins in any state, to others exactly when it is published and open to them, and which of its two objects it signs |
| DocumentAnswers.FeedExactly | src/modules/documents/documents.service.ts:1052-1127 | the exact files on a list, on one's own and on any other |
| DocumentAnswers.DetailExactly | src/modules/documents/documents.service.ts:1213-1236 | when the detail page exists and exactly what it shows |
| DocumentReview.AllFound | src/modules/documents/documents.service.ts:576-581 | comparing the number of rows found with the number asked for tells whether any was missing or someone else's |
| DocumentReview.CallKeepsInv | src/modules/documents/documents.service.ts:635-1583 | every call keeps: pending and rejected files only inside active uploads, active files of active uploads cleared since they arrived, every arrival in the history, audiences resolved |
| DocumentHistory.NothingUnreviewedIsGranted | src/modules/documents/documents.service.ts:830-867 | in every reachable state, what signing grants to a stranger arrived, and was cleared afterwards, alone or with its upload |
| DocumentAnswers.AudienceIsHonoured | src/modules/documents/documents.service.ts:635-673 | over any run without an edit of it, an upload is granted to a stranger only before its expiry, and only if its owner asked for everyone or for the stranger's cohort, or the department is a language course |
| DocumentHistory.FilesAreReviewed | src/modules/admin/admin.service.ts:1083-1263 | in every reachable state an active file of an active upload arrived and was cleared afterwards, alone or with its upload; pending and rejected files sit in active uploads only |
| DocumentHistory.FeedIsGrantedAndReviewed | src/modules/documents/documents.service.ts:1052-1127 | in every reachable state, the feed shows only what signing grants, and on anyone else's list only what was cleared |
| DocumentHistory.ClearancesAreAuthorised | src/modules/admin/moderation.service.ts:52-60 | a clearance enters the history only by a reviewer of the upload's department, on something pending |
| DocumentHistory.UploadChanges | src/modules/admin/admin.service.ts:1083-1263 | an upload becomes active or rejected only from pending, by a moderator's verdict, and pending again only from rejected, by its owner |
| DocumentHistory.ActiveIsFinal | src/modules/documents/documents.service.ts:1304-1308 | an active upload never becomes pending or rejected again |
| DocumentHistory.FileChanges | src/modules/admin/admin.service.ts:1140-1205 | a file changes status at most once, by a moderator's verdict on a pending one; its upload and objects never change |
| DocumentHistory.RefusalsLeaveExactly | src/modules/documents/documents.service.ts:635-745 | a refused call leaves a trace if and only if it is a new upload in order whose claim or one of whose sent files is refused, or an addition one of whose sent files is refused after something was saved |
| DocumentHistory.RefusalsLeaveTheRowsSaved | src/modules/documents/documents.service.ts:635-745 | the trace is the new upload's row, the claimed files and the sent ones before the first refused, and the claimed staged files gone; nothing else changes |
| DocumentHistory.EmptyUploadHappens | src/modules/documents/documents.service.ts:566-581 | an upload without files is left by a first call with an unknown staged file |
| DocumentHistory.EmptyUploadHappensOverQuota | src/modules/documents/documents.service.ts:678-732 | and by a first call whose one sent file is refused |
| DocumentHistory.RefusedAdditionHappens | src/modules/documents/documents.service.ts:1355-1370 | a refused addition keeps the file sent before the refused one |
| DocumentHistory.EmptyUploadsExactly | src/modules/documents/documents.service.ts:566-745 | in every reachable state an upload has no file if and only if its creation was refused by the claim or, with nothing to claim, at its first sent file, and nothing was added since |
| DocumentHistory.RemovalLeavesNoEmptyUpload | src/modules/documents/documents.service.ts:1405-1436 | the upload goes exactly with its last file, so no removal leaves an empty one |
| DocumentHistory.ClaimIsAllOrNothing | src/modules/documents/documents.service.ts:576-606 | a claim succeeds exactly when every staged file is the caller's, each becomes a file with its object, and none can be claimed again |
| DocumentHistory.ClaimedRefResolves | src/modules/documents/documents.service.ts:585-597 | the ref written for a claimed file leads to its object exactly when the object's key is safe |
| DocumentHistory.EditIsBounded | src/modules/documents/documents.service.ts:1240-1321 | an edit touches one upload, keeps owner and hiding, and moves an expiry only into the future |
| DocumentHistory.FolderFollowsItsFiles | src/modules/documents/documents.service.ts:1464-1487 | showing a file brings its folder back, hiding the last visible one hides it, nothing else moves it |
| DocumentTypes.UnsuitedUploadsExactly | src/modules/documents/documents.service.ts:313-329 | in every reachable state an upload's type is one its department does not offer if and only if only one kind of department offers it and the upload crossed between the kinds an odd number of times since the type was last sent |
| DocumentTypes.DocTypeSuitsExactly | src/modules/documents/documents.service.ts:1270-1291 | a successful edit leaves a type the department offers if and only if it sends one, or both kinds offer the one there, or that one suited before and the upload does not cross, or did not and it does |
| DocumentTypes.DocTypeIsLost | src/modules/documents/documents.service.ts:1270-1291 | it happens in a run of two calls: lecture notes moved to the language department stay notes |
| DocumentTypes.NewUploadSuits | src/modules/documents/documents.service.ts:320-329 | a new upload has a type its department offers |
| Luhn.SingleDigitErrorCaught | src/common/logging/redact.ts:98-112 | a passing string fails after any single-digit change, at any length |
| Luhn.SwapCaught | src/common/logging/redact.ts:98-112 | swapping neighbours goes unnoticed exactly when they are equal or are 0 and 9 |
| Luhn.OneCheckDigit | src/common/logging/redact.ts:98-112 | every payload has exactly one check digit |
| ClamFraming.FramesReadBack | src/common/security/clamav.service.ts:132-143 | reading the frames gives back the buffer and stops exactly at their end |
| ClamFraming.OnlyTheLastIsZero | src/common/security/clamav.service.ts:134-142 | every chunk length is between 1 and 65 536 and the only zero is the last |
| ClamFraming.FramesInjective | src/common/security/clamav.service.ts:132-143 | two buffers never share a wire image |
| StorageRef.ParsedPrintsBack | src/modules/storage/storage-ref.util.ts:22-36 | a ref that parses prints back to itself |
| StorageRef.PrintedParsesBack | src/modules/storage/storage-ref.util.ts:22-55 | bucket and key joined by a slash parse back exactly for flat labels without ".." and safe keys |
| StorageRef.PublicUrlRoundTrip | src/modules/storage/storage.service.ts:206-218 | URL, extraction and parsing give back bucket and key exactly for flat labels without ".." and safe keys |
| StorageRef.DeletesExactlyTheUsableRefs | src/modules/storage/storage.service.ts:176-203 | a key is deleted from a bucket exactly when a given ref parses to that bucket and key |
| StorageRef.BatchesConcatenate | src/modules/storage/storage.service.ts:178-187 | grouping keeps order and repeats |
| Throttle.ScriptIsAnswered | src/common/rate-limit/redis-throttler.storage.ts:30-59 | the script on any two keys: what it answers and leaves, a count without an expiry included |
| Throttle.CallIsAnswered | src/common/rate-limit/redis-throttler.storage.ts:30-59 | a call is refused exactly while a block lasts or when the open window has had its limit; what the two keys become; the budget and reset told |
| UploadQuota.RunsAreAnswered | src/common/rate-limit/upload-quota.service.ts:123-199 | after any run, both implementations admit exactly what fits, and tell what is left and the wait until the window resets, in seconds rounded up |
| UploadQuota.ConsumeLocallyIsAnswered | src/common/rate-limit/upload-quota.service.ts:157-199 | the same for any window, and the window it leaves |
| UploadQuota.ConsumeInRedisIsAnswered | src/common/rate-limit/upload-quota.service.ts:36-54 | the same for any key, and the key it leaves |
| UploadQuota.RefundsLeave | src/common/rate-limit/upload-quota.service.ts:64-71 | a refund gives bytes back, never more than are there, and moves no reset |
| UploadQuota.PruneLeaves | src/common/rate-limit/upload-quota.service.ts:234-244 | pruning drops exactly the windows whose reset has come |
| DevAlerts.AlertIsAnswered | src/common/alerts/dev-alert.service.ts:339-376 | folded exactly within a minute of a delivery, else delivered while the window has sent fewer than twenty, else dropped, the first time with a notice; and what the counters become |
| DevAlerts.AlertLeaves | src/common/alerts/dev-alert.service.ts:351-384 | what the map becomes |
| SessionAnswers.LoginIsAnswered | src/modules/auth/auth.service.ts:202-281 | a password opens a session exactly for a known, confirmed, unbanned account; each refusal has its exact case |
| SessionAnswers.VerifyEmailIsAnswered | src/modules/auth/auth.service.ts:624-660 | so does a verification code, for an unconfirmed one, and confirms it |
| SessionAnswers.SignInsLeave | src/modules/auth/auth.service.ts:959-992 | a session is one unclaimed row and one signature, with their expiries |
| SessionAnswers.RefreshIsAnswered | src/modules/auth/auth.service.ts:475-587 | in every reachable state, the exact case of each answer to a refresh, by row and clock |
| SessionAnswers.RefreshLeaves | src/modules/auth/auth.service.ts:502-533 | the row it claims and the child it stores |
| SessionAnswers.LogoutLeaves | src/modules/auth/auth.service.ts:597-605 | signing out takes exactly the rows of the token's family |
| SessionAnswers.ResetIsAnswered | src/modules/auth/auth.service.ts:752-771 | a reset needs a redeemed code of a known, unbanned account; it sets the password, confirms, and takes exactly the user's rows |
| SessionAnswers.BanIsAnswered | src/modules/admin/admin.service.ts:495-532 | each refusal of a ban, and what it takes |
| SessionAnswers.UnbanIsAnswered | src/modules/admin/admin.service.ts:591-617 | an unban lifts the ban and nothing else |
| SessionAnswers.PurgeLeaves | src/database/migrations/1789862400000-EmailVerificationAndPasswordReset.ts:77 | the purge takes exactly the expired rows |
| EmailAnswers.RedeemIsAnswered | src/modules/auth/auth.service.ts:832-876 | accepted, expired, too many and refused, each with its exact case, whether the code is spent or only checked |
| EmailAnswers.RedeemLeaves | src/modules/auth/auth.service.ts:832-876 | what a redeemed row becomes |
| EmailAnswers.IssueLeaves | src/modules/auth/auth.service.ts:889-922 | issuing consumes exactly the codes of that account and purpose, and the new one lasts 180 000 ms |
| EmailAnswers.PurgeLeaves | src/database/migrations/1789862400000-EmailVerificationAndPasswordReset.ts:87 | the purge takes exactly the expired codes |
| BookAnswers.AskIsAnswered | src/modules/books/books.service.ts:336-390 | a request succeeds exactly for a visible, available, unwanted book of someone else's that never turned this user down; each refusal has its exact case |
| BookAnswers.AskLeaves | src/modules/books/books.service.ts:403-413 | one pending row |
| BookAnswers.AcceptIsAnswered | src/modules/books/books.service.ts:447-500 | each answer to an acceptance, the missing Telegram handle included |
| BookAnswers.DeclineIsAnswered | src/modules/books/books.service.ts:760-810 | each answer to a decline |
| BookAnswers.CancelIsAnswered | src/modules/books/books.service.ts:573-631 | each answer to a cancellation |
| BookAnswers.CompleteIsAnswered | src/modules/books/books.service.ts:702-756 | each answer to a confirmation, in every reachable state |
| BookAnswers.AnswersLeave | src/modules/books/books.service.ts:447-810 | what these four leave of the request, its rivals, its book and every other row |
| BookAnswers.SweepLeaves | src/modules/books/books.service.ts:646-691 | what the sweep leaves of every row, by its age |
| BookAnswers.DonateIsAnswered | src/modules/books/books.service.ts:84-105 | a listing is refused only for an unknown department |
| BookAnswers.EditIsAnswered | src/modules/books/books.service.ts:276-297 | each answer to an edit |
| BookAnswers.RemoveIsAnswered | src/modules/books/books.service.ts:299-332 | each answer to the donor's delete, and what it takes |
| BookAnswers.AdminIsAnswered | src/modules/admin/admin.service.ts:396-447 | what an admin may do to a book |
| PromotionSettings.SetIsAnswered | src/modules/settings/promotion-settings.service.ts:84-102 | what is no date is refused, and anything else stored as sent |
| PromotionSettings.AnsweredForTenSeconds | src/modules/settings/promotion-settings.service.ts:42-62 | a read that went to the database is answered again for 10 000 ms, and not longer |
| PromotionAnswers.PromotesExactly | src/modules/users/users.service.ts:103-144 | a visit moves a student, stamped or not, exactly when the schedule is set, has passed and is later than the stamp, by one year up to the last |
| PromotionAnswers.AsksExactly | src/modules/users/users.service.ts:123-128 | the question is open exactly for a foundation student in year 2 with such a schedule |
| PromotionAnswers.EditsAreAnswered | src/modules/users/users.service.ts:216-244 | each refusal of an edit |
| PromotionAnswers.EditStoresTheProfile | src/modules/users/users.service.ts:150-153 | names and avatar as sent, or as they were |
| PromotionAnswers.EditStoresThePlacement | src/modules/users/users.service.ts:216-268 | department and year as sent, or as they were, and the promotion that follows |
| PromotionAnswers.SentHandlesAreStored | src/modules/users/users.service.ts:158-190 | a sent list replaces the saved one, stripped and without repeats, and which handle is then in use |
| PromotionAnswers.LoneHandleJoins | src/modules/users/users.service.ts:190-199 | a lone handle joins the list |
| PromotionAnswers.TrimStrips | src/modules/users/users.service.ts:158-168 | trimming takes all the white space at both ends and nothing else |
| DocumentAnswers.UploadIsAnswered | src/modules/documents/documents.service.ts:635-732 | each answer to a new upload |
| DocumentAnswers.UploadIsStored | src/modules/documents/documents.service.ts:652-673 | an upload that is written has the owner, department, type, expiry and audience sent, none in a language course; it is pending and visible |
| DocumentAnswers.FilesAreStored | src/modules/documents/documents.service.ts:570-745 | which files are stored, as what, and in which status |
| DocumentAnswers.AdditionIsAnswered | src/modules/documents/documents.service.ts:1324-1378 | each answer to an addition, and when the review is reopened |
| DocumentAnswers.EditIsAnswered | src/modules/documents/documents.service.ts:1240-1308 | in every reachable state, each answer to an edit |
| DocumentAnswers.EditIsStored | src/modules/documents/documents.service.ts:1262-1308 | an accepted edit stores each field as sent or as it was, and the audience of the department it leaves |
| DocumentAnswers.UploadCallsAreAnswered | src/modules/documents/documents.service.ts:1536-1583 | who may hide and delete an upload, and what goes with it |
| DocumentAnswers.FileCallsAreAnswered | src/modules/documents/documents.service.ts:1388-1492 | who may remove and hide a file |
| DocumentAnswers.VerdictsAreAnswered | src/modules/admin/admin.service.ts:1083-1244 | each answer to the four verdicts, and the one row each changes |
| Luhn.ShortNumbers | src/common/logging/redact.ts:98-112 | the doubling starts at the second digit from the right |
| ClamFraming.OnTheWire | src/common/security/clamav.service.ts:132-143 | the header is big-endian and the command is spelled out |
| StorageRef.KeyIsExtracted | src/modules/storage/storage.service.ts:206-218 | the key of a URL is what follows the base and a slash |
| StorageRef.RefsAreSpelled | src/modules/storage/storage-ref.util.ts:8-36 | which bucket and key make a ref, character by character |
| Throttle.RedisThrottlerStorage.Increment | src/common/rate-limit/redis-throttler.storage.ts:30-59 | the script, statement by statement, leaves the two keys and the reply of the specification, and no other key changes |
| Throttle.CanActivate | src/common/rate-limit/rate-limit.guard.ts:74-101 | rules are counted in order until one refuses, the block length passed is the window length, and a request that passes is told of the rule with the least budget left, the first of equals |
| UploadQuota.UploadQuotaService.ConsumeInRedis | src/common/rate-limit/upload-quota.service.ts:36-54 | the consume script leaves the key and gives the answer of the specification |
| UploadQuota.UploadQuotaService.ConsumeLocally | src/common/rate-limit/upload-quota.service.ts:157-199 | the in-process branch does the same on its map |
| UploadQuota.UploadQuotaService.Prune | src/common/rate-limit/upload-quota.service.ts:234-244 | exactly the windows that are over are dropped |
| DevAlerts.DevAlertService.Queue | src/common/alerts/dev-alert.service.ts:339-376 | one alert moves the queue and is delivered, folded or dropped as specified; a disabled service does nothing |
| DevAlerts.DevAlertService.PruneOld | src/common/alerts/dev-alert.service.ts:379-384 | a map of 500 or more loses exactly the entries older than a minute |
| AuthSessions.AuthService.Refresh | src/modules/auth/auth.service.ts:475-533 | the whole exchange equals its specification on every branch |
| AuthSessions.AuthService.SignInWith | src/modules/auth/auth.service.ts:202-304 | the refusals of a password sign-in, wrong and missing password, ban and unverified address, in source order; otherwise a new family |
| AuthSessions.AuthService.VerifyEmailCode | src/modules/auth/auth.service.ts:624-660 | a redeemed code verifies the address and signs in, unless the account is banned |
| EmailTokens.EmailTokenService.IssueEmailToken | src/modules/auth/auth.service.ts:889-922 | the new code is the only live one of its account and purpose, lasts three minutes, and no other row changes |
| EmailTokens.EmailTokenService.RedeemCode | src/modules/auth/auth.service.ts:801-876 | the answer and the one row changed, for a missing, expired, capped, wrongly or rightly guessed code; one live code per account and purpose is kept |
| BookHandover.BooksService.AcceptRequest | src/modules/books/books.service.ts:447-561 | the refusals in source order, then the accepted request, the reserved book and the rivals turned away |
| BookHandover.BooksService.DeclineRivals | src/modules/books/books.service.ts:501-519 | the loop turns away exactly the other pending requests of the book |
| BookHandover.BooksService.SweepReservations | src/modules/books/books.service.ts:646-691 | the loop releases exactly the stale reservations, returns their number, and leaves the tables consistent after every iteration |
| PromotionSettings.PromotionSettingsService.ReadRolloverAt | src/modules/settings/promotion-settings.service.ts:42-62 | a read answers from the fresh cache, else from the row, else with nothing |
| YearPromotion.UsersService.UpdateMe | src/modules/users/users.service.ts:146-268 | the whole edit: its guard, names, handles and placement, the promotion that follows it, and the avatar left over |
| YearPromotion.DistinctHandles | src/modules/users/users.service.ts:158-168 | the loop keeps each non-blank handle once, in order of first occurrence |
| DocumentVisibility.ResolveAudience | src/modules/documents/documents.service.ts:346-378 | what is stored is duplicate-free and lists only real cohorts, all of those asked for, or the request is refused |
| DocumentReview.DocumentsService.ClaimStagedFiles | src/modules/documents/documents.service.ts:570-606 | staged files become rows in order, all of them or none, decided by counting the rows found |
| DocumentReview.DocumentsService.CreateUpload | src/modules/documents/documents.service.ts:635-745 | the refusals in source order, then the pending row and its files; when the claim or a sent file is refused, what was saved before stays |
| DocumentReview.DocumentsService.SaveSent | src/modules/documents/documents.service.ts:683-732 | the loop saves the sent files in order until the first that quota, vetting or storage refuses |
| DocumentReview.DocumentsService.AddMoreFiles | src/modules/documents/documents.service.ts:1324-1378 | files added to an active upload land pending, others land active; the review is reopened only when none was refused |
| DocumentReview.DocumentsService.Edit | src/modules/documents/documents.service.ts:1240-1321 | the edit, its refusals in source order, and the reopened review |
| DocumentReview.DocumentsService.HideFile | src/modules/documents/documents.service.ts:1449-1492 | hiding one file, and what it does to its folder |
| Luhn.PassesLuhn | src/common/logging/redact.ts:98-112 | the right-to-left loop accepts exactly what the recursive sum of the standard accepts |
| ClamFraming.Scan | src/common/security/clamav.service.ts:132-143 | the loop writes the command and the frames of the whole buffer |
| StorageRef.GroupForRemoval | src/modules/storage/storage.service.ts:176-187 | the loop files each usable key under its own bucket, in order |

## Left out

- HTTP controllers, request validation, interceptors, module wiring, response shapes, list ordering and paging: framework plumbing. A list's other filters and its page are one given set of uploads.
- `class-validator` lets an explicit null through optional fields; edits are modelled with the declared types, where a field is sent with a value or not at all.
- bcrypt, JWT signatures, SHA-256, UUIDs and six-digit randomness: injective hashes, signatures that verify only when issued here and unexpired, fresh identifiers. Comparing a guess with a hash is comparing it with the secret.
- Registration, the identity check of Google sign-in, profile completion, mail, Telegram, S3, clamd sockets, LibreOffice, image processing, WebSockets and notifications: foreign I/O that feeds no modelled state. Whether an emailed code was redeemed is given to the calls that depend on it; the codes have a model of their own.
- The in-memory fallback of the throttler, the health of the Redis connection, and switching between the two quota implementations in the middle of a window: code not in the repository, or connection handling.
- Clock skew between processes: each model has one clock. Lower-casing and trimming are modelled on ASCII letters and white space.
- Throttle.CanActivate: reads the clock once for all rules of a tier, where each script call reads its own.
- Interleavings inside book, review, staged-file and profile calls: each call is one step, and one schedule reading serves a whole profile call. The statement-level models cover refresh tokens, email codes and the schedule cache.
- Which file quota, vetting or storage refuses is given with the file; `UploadQuota.dfy` says when the quota does. A database that fails between two writes of one call is not modelled.
- BookHandover.DonatedEqualsReceived: assumes users are not deleted, because the database cascade of a deleted user removes rows the totals rely on.
- AuthSessions.RefreshIssuesExactly: takes the set of accounts as fixed; deleting an account is not a modelled call.
- YearPromotion.NoInstantTwice: covers visits and profile edits, not an admin's placement of a student, which writes the current schedule value and can move the stamp back or clear it.
- DocumentVisibility.BrowseFilterIsCanView: takes the table of majors as fixed; renaming a department's acronym later is not modelled.
- DocumentReview.DocumentsService.Edit: titles, descriptions, subjects, academic years and an upload's own year level are not part of the rows, so an invalid subject is not a modelled refusal.
- YearPromotion.UsersService.UpdateMe: the deletion of the old avatar is reported as a result and never fails; storage is not part of this model.
- PromotionSettings.CacheIsTransparent: one process; a second replica has a cache of its own, up to ten seconds behind.
- Pins, quotas of staged files, stale staged-file sweeps and the objects in storage: deletions work from URLs and some paths skip previews, so no invariant ties objects to rows.
- Regex redaction and `redactObject`, user-agent matching, acronyms and message rendering: pattern tables and plain recursion over log data.
