# Sessions, coupons and counters

A formal model of the session and coupon workers: how sessions open, go LIVE and end,
how coupons are applied to them under a slot limit and a win cap, how the batch workers
keep the database and Redis in step, and how coupon codes are built and encrypted.

The database is a set of maps of rows, Redis a set of maps of keys, the job queue a
sequence (`Schema.dfy`).  Handlers are methods over the mutable `Store`, proved equal to
pure functions on `World` values; the theorems are about those functions and about runs
of them.  The lemmas named `...InColumns` say of each operation which columns of which rows
it changes, and when, without using those functions.

| file | subject |
|---|---|
| `StartLiveProtocol.dfy` | the start-live transaction among any number of competitors, under PostgreSQL's Read Committed (section 13.2.1 of its documentation): statements as steps, row by row locking from a possibly stale list, aborts, and writes of the rest of the system |
| `StartLive.dfy`, `SyncOpening.dfy`, `Durations.dfy` | the same function run alone, the recurring job that calls it, and how a duration ends |
| `ApplyCoupon.dfy` | the apply job, one step for each database statement or Redis command |
| `ApplyQueue.dfy`, `ApplyFifo.dfy` | serial, crash-free: refinement of a specification, and of a first-come-first-served closed form |
| `ApplyCrashes.dfy` | serial, with a crash at any await and lost counters |
| `ApplyCompletion.dfy` | what a crash does to the completion of a session |
| `ApplyInterleaved.dfy`, `ApplyRaces.dfy` | any number of jobs, freely interleaved; runs that go wrong |
| `Requests.dfy` | the request that queues apply jobs, and the follow-up expiry job |
| `SyncSales.dfy`, `Orphans.dfy`, `Expiry.dfy` | the batch workers, with faults |
| `SessionCreation.dfy`, `StopSession.dfy` | creation, opening and stopping of sessions |
| `Lifecycle.dfy` | all handlers together, behind the worker's switch |
| `Base62.dfy`, `Base64Url.dfy`, `FernetToken.dfy`, `CouponCode.dfy` | the coupon code formats |

Which result needs what of the environment:

- Mutual exclusion, in a profile that starts with at most one LIVE session, and the
  promoted session being first, from any rows, need nothing beyond Read Committed and
  what `EnvironmentWrite` says of other writers: nobody moves a session back or makes it
  LIVE, un-deletes or un-stops it, or changes the sort columns of one that has left
  UPCOMING.  Freedom from deadlock needs lists of candidates without ties, and that a due
  profile gets a LIVE session needs a strictly first OPENING row.
- Exactly-once application needs nothing: any interleaving, crash or counter loss.
- The slot limit of a session under interleaving needs its resyncs kept apart from its
  jobs between the slot step and the end of their DECR, which serial jobs
  (`concurrency: 1`) provide, and a counter that starts no lower than the applied count
  and is not lost.  Nothing is asked of other sessions.
- Exact positions under crashes need serial jobs and a reachable Redis during resyncs.
- The two-run result of invalidation needs serial jobs without crashes.  Refinement and the
  first-come-first-served result need besides a true counter for those sessions of the
  queue that are LIVE and without a slot limit, and for its coupons that redeemed means
  applied.
- In whole-system runs, serial and without crashes, that sessions never go back and that
  refunds are never repeated need nothing of the counters; the other invariants need the
  counter of a session without a slot limit to be nobody else's until it has ended.
- That a refund is never repeated needs also the write that marks the coupon to succeed.

## What the proofs found

- A resync is unsafe not only between another job's slot step and its update, but until
  that job's DECR: two coupons can be applied at one position
  (`ApplyRaces.ResyncBeforeGiveBackRepeatsPosition`).
- A job that dies after applying a coupon leaves a winner without a reward for good, if it
  had not created it (`ApplyRaces.UnpaidStarts`), and a full session LIVE that no later
  job completes, if it held the last slot (`ApplyCompletion.StuckStarts`).
- `applied_late` is reachable only with a negative `max_slots`; and where `max_slots` is
  not positive nothing ever corrects a wrong counter.
- Two OPENING rows with equal start and creation times can deadlock two transactions,
  wherever they are in the order (`StartLiveProtocol.TiedKeysCanDeadlock`); if they are
  first in their profile, every pass of the recurring job can pass them over.
- Two resyncs that both count before either writes let a session end with one applied
  coupon more than it has slots (`ApplyRaces.StaleResyncOverbooks`).
- A session created by the service and opened by the worker has no start time, so the
  recurring job never finds it due (`SessionCreation.MixedCreatorsLeaveNoStart`).
- An assignment that finds the trigger reached answers that the coupon should be refunded;
  its caller counts an error and leaves the coupon for the next run.
- A requested expiry batch size between 0 and 1 becomes 0, and the job then expires
  nothing and reports that nothing was pending.
- If the mark after a refund fails, the next pass refunds the coupon again.
- When the sync-opening job cannot list the sessions because the connection is lost, it
  returns checked 0 and errors 1, so its tally does not add up.
- The sales sync is documented to raise counts only and to keep its keys; the code
  writes whatever differs, lower counts too, and deletes the keys of missing and
  completed sessions.  The model follows the code.  The fallback for a failed
  transaction passes over negative counts without reporting them, so the bound on what is
  left excludes those.
- Two overlapping session creations pass `max_sessions` and repeat a number.
- Coupon codes of different sessions and users coincide whenever their digits, put
  together, do (`CouponCode.CodesCoincide`).

## Model

| member | source | states |
|---|---|---|
| `StartLiveProtocol.MutualExclusion` | src/app/jobs/workers/session-transition.helper.ts:135-314 | For any number of transactions that start, interleave, commit and abort, and whatever else is written meanwhile: a profile that starts with at most one row that is LIVE in any letter case, not deleted and not force-stopped never has two, whatever the other profiles look like. |
| `StartLiveProtocol.StepKeeps` | src/app/jobs/workers/session-transition.helper.ts:135-314 | Every statement of every transaction, every abort and every write of the rest of the system keeps the invariant behind mutual exclusion: lock ownership, what each transaction has locked so far, and the relation of any two snapshots. |
| `StartLiveProtocol.CriticalExcludes` | src/app/jobs/workers/session-transition.helper.ts:216-303 | Two transactions of one profile are never both between their position check and their commit. |
| `StartLiveProtocol.LaterHolds` | src/app/jobs/workers/session-transition.helper.ts:216-230 | Of two competitors, the one whose locking statement took the later snapshot has the other one's session among its candidates, and once past locking holds it if it is still OPENING; this is why the critical sections are disjoint although the first LIVE check runs without a lock. |
| `StartLiveProtocol.CommitPromotes` | src/app/jobs/workers/session-transition.helper.ts:297-314 | A commit turns exactly its own session, OPENING until then, LIVE, and changes no other row. |
| `StartLiveProtocol.PromotedIsFirst` | src/app/jobs/workers/session-transition.helper.ts:216-270 | Among the rows of its profile that were OPENING and undeleted at the lock statement's snapshot and still are, none starts before the promoted session, nulls last, or starts with it and was created before it, nulls last. |
| `StartLiveProtocol.NoWaitCycle` | src/app/jobs/workers/session-transition.helper.ts:216-230 | Unless some transaction's list of candidates has two rows with one sort key, the wait-for graph among the transactions has no cycle. |
| `StartLiveProtocol.NoDeadlock` | src/app/jobs/workers/session-transition.helper.ts:216-303 | In every reachable state in which no list of candidates has a tie and a transaction waits, some transaction can execute its next statement. |
| `StartLiveProtocol.TiedKeysCanDeadlock` | src/app/jobs/workers/session-transition.helper.ts:216-230 | Ties do deadlock, at any place of the order: from any initial state in which two OPENING rows of a usable profile without an active LIVE session tie, a run leads to two transactions that wait for each other, the rows before the tie leaving OPENING between the snapshots and the locks. |
| `StartLive.SoloRun` | src/app/jobs/workers/session-transition.helper.ts:61-338 | The state machine run for one transaction alone ends with exactly the outcome and the rows of the closed form `OutcomeOf`. |
| `StartLive.StartLiveSession` | src/app/jobs/workers/session-transition.helper.ts:61-338 | The function over the store: the closed form for the order in which the lock statement returns the rows; a promoted session was OPENING, in an active, undeleted profile whose other LIVE, undeleted rows are all force-stopped, with no OPENING row before it; such a session with every other OPENING row after it is promoted; only its status changes. |
| `StartLive.PromotionInColumns` | src/app/jobs/workers/session-transition.helper.ts:165-303 | The session that heads the list is promoted exactly if its profile is active and undeleted and every other row of the profile that is LIVE and undeleted is force-stopped; nothing else ever is. |
| `StartLive.ListInColumns` | src/app/jobs/workers/session-transition.helper.ts:216-230 | A list of the lock statement holds exactly the OPENING, undeleted rows of the profile, each once, and none after one that it precedes. |
| `StartLive.OrderInColumns` | src/app/jobs/workers/session-transition.helper.ts:228 | What preceding means in the two date columns, nulls last. |
| `StartLive.OrderByStart` | src/app/jobs/workers/session-transition.helper.ts:216-230 | The row list of the lock statement: exactly the requested rows, each once, sorted by (start_time, created_at), nulls last. |
| `Durations.DelayIsEndMinusStart` | src/app/jobs/workers/session-transition.helper.ts:481-523 | Stepping a field of a date, as the recurring job does, and adding milliseconds, as the scheduler does, agree for every start and every unit of fixed length, and are undefined for the same inputs. |
| `Durations.DelayInMilliseconds` | src/app/jobs/workers/session-transition.helper.ts:15-50 | A delay needs a value that is not zero and a known unit; each unit has its number of milliseconds, a year 365 days. |
| `Durations.EndIsMonotone` | src/app/jobs/workers/session-transition.helper.ts:481-523 | A later start never ends earlier, for one duration, if adding years has that property. |
| `SyncOpening.SyncOne` | src/app/jobs/workers/session-transition.helper.ts:580-643 | One listed session: it becomes LIVE only if due and no other row of its profile is LIVE, undeleted and not force-stopped; without faults a due session that is strictly first becomes LIVE exactly then. |
| `SyncOpening.DueInColumns` | src/app/jobs/workers/session-transition.helper.ts:594-620 | A session is due exactly when its start time, and the duration of its active, undeleted profile, are set and that many seconds, minutes, hours, days or years have passed. |
| `SyncOpening.SyncListed` | src/app/jobs/workers/session-transition.helper.ts:580-645 | The loop over the listed sessions: every count of the tally is exact, each due, strictly first session that met no fault is LIVE itself or has another LIVE, undeleted, not force-stopped one in its profile, and without faults the rows are some that legal lock orders lead to. |
| `SyncOpening.SyncOpeningSessionsToLive` | src/app/jobs/workers/session-transition.helper.ts:529-672 | checked = transitioned + skipped + errors, exactly when the listing succeeded; a session made LIVE and not force-stopped is the only active LIVE one of its profile; where a due OPENING session has a strictly first one before it that met no fault, that one is LIVE afterwards or another LIVE, undeleted, not force-stopped one is, whatever happens in other profiles. |
| `SyncOpening.PromotionIsSureIffStrict` | src/app/jobs/workers/session-transition.helper.ts:216-270 | In a usable profile whose LIVE, undeleted rows are all force-stopped, some session is promoted whatever the order of the locked rows exactly when one of the OPENING rows is strictly first. |
| `SyncOpening.TiesCanStarve` | src/app/jobs/workers/session-transition.helper.ts:580-643 | If none is, a whole faultless pass of the job may leave every session of the profile as it was. |
| `SyncOpening.RefusingOrder` | src/app/jobs/workers/session-transition.helper.ts:216-270 | For a session that is not strictly first the database may return a legal order of the locked rows under which it is refused. |
| `SyncOpening.EarlierIsDue` | src/app/jobs/workers/session-transition.helper.ts:481-523 | A session that starts no later than a due one of its profile is due as well. |
| `ApplyCoupon.HandleApplyCoupon` | src/app/jobs/workers/session/handlers/apply-coupon.handler.ts:96-386 | The handler over the store: its result and every table and counter it leaves are those of the statement-by-statement machine run to its end. |
| `ApplyCoupon.ValidateJob` | src/app/jobs/workers/session/handlers/apply-coupon.handler.ts:119-167 | The checks before the slot: session, status, coupon, owner, validity, use, win cap, in this order, with the invalidation at the cap. |
| `ApplyCoupon.ValidateCoupon` | src/app/coupon/utils/coupon-validator.util.ts:27-76 | Ownership, validity and use of the coupon decide as the machine does. |
| `ApplyCoupon.ValidateUserWinCount` | src/app/coupon/utils/coupon-validator.util.ts:129-165 | A positive cap refuses exactly the user with that many wins; then, if configured and not otherwise, the coupons of this user in this session that are not redeemed become invalid, and no other row changes. |
| `ApplyCoupon.AssignPosition` | src/app/jobs/workers/session/handlers/apply-coupon.handler.ts:170-222 | Profile, resync and the atomic slot step together leave the counter and the position of the machine. |
| `ApplyCoupon.SyncCounter` | src/app/jobs/workers/session/handlers/apply-coupon.handler.ts:181-209 | After the resync the counter is the number of applied coupons in the database. |
| `ApplyCoupon.TakeSlotAtomically` | src/app/jobs/workers/session/handlers/apply-coupon.handler.ts:388-440 | The Lua script: refuse at the limit, else increment and return the new value. |
| `ApplyCoupon.RecordApplication` | src/app/jobs/workers/session/handlers/apply-coupon.handler.ts:224-270 | The conditional update on `applied_at`, the DECR if it matched no row, and the reason then given. |
| `ApplyCoupon.RewardWinner` | src/app/jobs/workers/session/handlers/apply-coupon.handler.ts:273-292 | One reward row for the winner, and, exactly if configured and the cap is reached, no valid unredeemed coupon of his left in the session; no other coupon changes. |
| `ApplyCoupon.InvalidateIfAtCap` | src/app/coupon/utils/coupon-validator.util.ts:171-203 | After a win, the unredeemed coupons of the user in the session become invalid exactly if the cap is reached, and no other row changes. |
| `ApplyCoupon.CloseSession` | src/app/jobs/workers/session/handlers/apply-coupon.handler.ts:304-320 | The participant count, and completion with the last slot. |
| `ApplyCoupon.StepProgress` | src/app/jobs/workers/session/handlers/apply-coupon.handler.ts:96-386 | A job ends after at most fourteen statements, whatever it reads. |
| `ApplyCoupon.StepFrame` | src/app/jobs/workers/session/handlers/apply-coupon.handler.ts:96-386 | No statement of a job moves a session to another profile, a coupon to another session, or adds or removes rows. |
| `ApplyCoupon.WithoutRedis` | src/app/jobs/workers/session/handlers/apply-coupon.handler.ts:180-251 | When Redis does not answer: the resync is passed over, the slot is refused, the DECR is lost, and no counter changes. |
| `ApplyQueue.ChecksInColumns` | src/app/jobs/workers/session/handlers/apply-coupon.handler.ts:119-151 | Session, status, coupon, owner, validity, use: each failing check, the first that applies, gives its own reason and changes nothing. |
| `ApplyQueue.CapInColumns` | src/app/coupon/utils/coupon-validator.util.ts:129-165 | The job is refused at the cap exactly if the cap is positive and the user has that many applied, winning coupons in the session; then exactly his unredeemed ones there become invalid if configured, and nothing else changes. |
| `ApplyQueue.NotAtCap` | src/app/jobs/workers/session/handlers/apply-coupon.handler.ts:158-270 | Below the cap: no profile, no slot, or applied already, each with its reason and changing nothing but the counter of a limited session, which is right afterwards; otherwise the job is accepted. |
| `ApplyQueue.AcceptedInColumns` | src/app/jobs/workers/session/handlers/apply-coupon.handler.ts:181-320 | An accepted job, column by column: position and winner, the coupon, the reward row, the other coupons of the user, the counter, participants, and status, end time and flag of a session that is full. |
| `ApplyQueue.ValidityAfterCap` | src/app/coupon/utils/coupon-validator.util.ts:99-203 | After a win that reaches the cap, and after a refusal at it, with invalidation on no coupon of the user and session that was not redeemed is valid, but for the one just applied; every other coupon keeps its validity, and with invalidation off all do. |
| `ApplyQueue.QueueRefines` | src/app/jobs/workers/session/handlers/apply-coupon.handler.ts:119-320 | Refinement: for every queue, draining it with the handler gives the rows, the outcomes and the positions of a specification without counters, validity flags or invalidation. Of the tables it asks, for the coupons the queue names, redeemed exactly if applied, and, for the LIVE sessions without a limit that it names, a true counter. |
| `ApplyQueue.OneJobRefines` | src/app/jobs/workers/session/handlers/apply-coupon.handler.ts:119-320 | One job: accepted exactly when its coupon is eligible, at the next position of its session; the simulation is kept, and no other session, nor its counter, is touched. |
| `ApplyQueue.AcceptedAt` | src/app/jobs/workers/session/handlers/apply-coupon.handler.ts:181-320 | What an accepted job leaves in every table, whatever the counter was; the position is the applied count plus one under a limit, and the counter plus one without. |
| `ApplyQueue.AcceptedResult` | src/app/jobs/workers/session/handlers/apply-coupon.handler.ts:181-320 | With a true counter that is the grant of the specification. |
| `ApplyQueue.RejectedAtCap` | src/app/coupon/utils/coupon-validator.util.ts:129-165 | A user at the cap is refused with that reason; what becomes of the coupons is `CapInColumns`. |
| `ApplyQueue.RejectedFull` | src/app/jobs/workers/session/handlers/apply-coupon.handler.ts:181-222 | A job refused for want of a slot changes nothing but a counter that was off. |
| `ApplyQueue.InvalidationChangesNoWinner` | src/app/coupon/utils/coupon-validator.util.ts:99-203 | Two runs, from any tables and counters: turning COUPON_INVALIDATE on or off changes no winner, position, reward, session or counter, only `is_valid` and the reason of a rejection. |
| `ApplyFifo.FifoTheorem` | src/app/jobs/workers/session/handlers/apply-coupon.handler.ts:119-320 | First come, first served: draining a queue applies exactly the coupons that a closed form accepts, in queue order, until slots or wins are used up, each at its index plus one within its session and as a winner unless the limit is negative; the winners get their rewards in that order, a session ends COMPLETED exactly if its last slot went, and every other coupon keeps everything but `is_valid`. It asks of the tables what `QueueRefines` does. |
| `ApplyFifo.ServedIsAccepts` | src/app/jobs/workers/session/handlers/apply-coupon.handler.ts:119-320 | The jobs the stateful specification serves are those the closed form accepts. |
| `ApplyFifo.AcceptedWinsUnlessNegative` | src/app/jobs/workers/session/handlers/apply-coupon.handler.ts:224-239 | Unless the counter is negative, an accepted application is a winner exactly when max_slots is not: `applied_late` needs a negative limit. |
| `ApplyFifo.UnlimitedPositionNeedsCounter` | src/app/jobs/workers/session/handlers/apply-coupon.handler.ts:181-222 | Without a slot limit nothing corrects the counter: the position is the next index exactly when the counter equals the applied count. |
| `ApplyCrashes.PositionsSurviveCrashes` | src/app/jobs/workers/session/handlers/apply-coupon.handler.ts:181-239 | Serial jobs, crashes at any await, counters lost between jobs, successful resyncs: a limited session whose positions are exactly 1..n, without gap or duplicate, with n <= max_slots, stays so, whatever the other sessions look like. |
| `ApplyCrashes.RunKeeps` | src/app/jobs/workers/session/handlers/apply-coupon.handler.ts:181-239 | Every statement of any job, every crash and every loss of counters keeps the invariant behind it, session by session. |
| `ApplyCrashes.StepKeepsPositions` | src/app/jobs/workers/session/handlers/apply-coupon.handler.ts:211-239 | No single statement of a job in good standing, of the session or of another, breaks the positions of a limited session. |
| `ApplyInterleaved.AppliedExactlyOnce` | src/app/jobs/workers/session/handlers/apply-coupon.handler.ts:225-302 | Arbitrary interleaving, resyncs, crashes and counter losses: no two jobs apply one coupon, an applied coupon keeps its time, position and applier for the rest of the run, and every reward is the only one of an applied winner. |
| `ApplyInterleaved.TraceKeepsOnce` | src/app/jobs/workers/session/handlers/apply-coupon.handler.ts:225-302 | Every move of any job keeps the invariant behind it. |
| `ApplyInterleaved.SlotsNeverExceeded` | src/app/jobs/workers/session/handlers/apply-coupon.handler.ts:181-251 | For one session, with its resyncs kept apart from its jobs that hold a slot: applied coupons plus slots in flight never exceed its counter or max_slots, whatever interleaves or crashes; other sessions and their counters, expired ones included, are free. |
| `ApplyInterleaved.MoveKeepsSlots` | src/app/jobs/workers/session/handlers/apply-coupon.handler.ts:181-251 | Each statement of any job, a disciplined resync, a crash, and a loss of counters that leaves this one covering, keeps counter >= applied + in flight. |
| `ApplyRaces.StaleResyncOverbooks` | src/app/jobs/workers/session/handlers/apply-coupon.handler.ts:181-222 | The discipline is needed: from any idle state with a free slot and a counter that is off, two valid jobs of different unapplied coupons, their users below the cap, have a run of overlapping resyncs after which both coupons are applied at one position; with one slot left that makes max_slots + 1 applied coupons. |
| `ApplyRaces.ResyncBeforeGiveBackRepeatsPosition` | src/app/jobs/workers/session/handlers/apply-coupon.handler.ts:181-251 | The window lasts until the DECR: from any idle state with two free slots, two jobs of one coupon and one of another have a run, its third job resyncing before the second one's DECR, after which two coupons of the session are applied at one position. |
| `ApplyRaces.UnpaidStarts` | src/app/jobs/workers/session/handlers/apply-coupon.handler.ts:225-292 | A winner is left without a reward, and without a job about to create it, exactly when the job that applied it dies before it creates the reward. |
| `ApplyRaces.UnpaidForGood` | src/app/jobs/workers/session/handlers/apply-coupon.handler.ts:225-292 | Such a winner stays without a reward in every continuation. |
| `ApplyRaces.CrashLosesReward` | src/app/jobs/workers/session/handlers/apply-coupon.handler.ts:225-292 | Such a crash is possible wherever a job can be accepted under a slot limit. |
| `ApplyCompletion.StuckStarts` | src/app/jobs/workers/session/handlers/apply-coupon.handler.ts:304-320 | Serial jobs with crashes: a session becomes full and LIVE, with no job to complete it, exactly when the job that took its last slot dies between applying the coupon and updating the session. |
| `ApplyCompletion.StuckForGood` | src/app/jobs/workers/session/handlers/apply-coupon.handler.ts:181-320 | Such a session stays so in every continuation of jobs, crashes and lost counters: its row and its applied coupons never change. |
| `ApplyCompletion.CrashStrandsSession` | src/app/jobs/workers/session/handlers/apply-coupon.handler.ts:181-320 | Such a crash is possible wherever a job takes a last slot. |
| `ApplyCompletion.LastSlotCompletes` | src/app/jobs/workers/session/handlers/apply-coupon.handler.ts:304-320 | A job that is not interrupted completes its session exactly if it took the last slot, and then sets the end time and clears the flag. |
| `Requests.QueueApplication` | src/app/coupon/coupon.service.ts:81-272 | The method over store and queue: its answer is that of `Answer`, and exactly a queued job is appended to the queue. |
| `Requests.TakenInColumns` | src/app/coupon/coupon.service.ts:115-244 | A request is taken exactly if the coupon exists, is the user's, valid, unredeemed and linked to a LIVE, active session, and the user is below the cap; queued exactly if no waiting job is for the same coupon and user, else answered with that one; refused as inactive exactly if only the flag is missing. |
| `Requests.RefusedInColumns` | src/app/coupon/coupon.service.ts:99-190 | Every other refusal and its condition; only the one at the cap may strike out coupons, and then exactly those the user has left in the session. |
| `Requests.QueuedWouldSucceed` | src/app/coupon/coupon.service.ts:94-189 | A queued job passes every check of the handler; if its turn came at once it would be accepted exactly when its profile exists and a slot is free. |
| `Requests.RefusedWouldFail` | src/app/coupon/coupon.service.ts:94-189 | A request refused for another reason than the flag would be refused by the handler too; when it is refused for the flag is `TakenInColumns`. |
| `Lifecycle.QueuedJobsStayFit` | src/app/coupon/coupon.service.ts:236-244 | In every run of the whole system, a job queued in one state names the session of its coupon in every later state. |
| `Requests.FollowUpFits` | src/app/jobs/workers/session/session.worker.ts:160-174 | The expiry job follows exactly the job that completes its session, names that session and its profile, and passes every check but those of the trigger. |
| `SyncSales.HandleSyncSales` | src/app/jobs/workers/session/handlers/sync-sales.handler.ts:61-723 | The contract `Reports`: without faults Redis overrides the database, `updated` counts the rows that differed, and the keys of missing and completed sessions are gone; with faults each row is as before or overridden, and what was left is at most `errors`, negative counts apart. |
| `SyncSales.ReportsInColumns` | src/app/jobs/workers/session/handlers/sync-sales.handler.ts:61-715 | The same in columns: which rows get which number, which keys go and which stay, and what total, updated and errors count. |
| `SyncSales.ScanKeys` | src/app/jobs/workers/session/handlers/sync-sales.handler.ts:78-104 | All pages are concatenated in order; every key of a page is there (`FlattenHasAll`). |
| `SyncSales.ReadCounts` | src/app/jobs/workers/session/handlers/sync-sales.handler.ts:151-189 | The batched reads give, for every key that parses, its count, once. |
| `SyncSales.SelectItems` | src/app/jobs/workers/session/handlers/sync-sales.handler.ts:298-358 | Exactly the sessions that exist, are not completed and differ, each once; keys of missing and completed sessions are removed, all of them if no call fails. |
| `SyncSales.RunTransaction` | src/app/jobs/workers/session/handlers/sync-sales.handler.ts:383-453 | The batched transaction: all of its writes or none, negative counts included. |
| `SyncSales.WriteIndividually` | src/app/jobs/workers/session/handlers/sync-sales.handler.ts:462-594 | Both fallbacks: afterwards every item is in step, or its failure is counted, or its count is negative. |
| `SyncSales.SyncAllBatches` | src/app/jobs/workers/session/handlers/sync-sales.handler.ts:365-602 | All batches: rows outside the items are untouched, and every item not in step is accounted for by an error or has a negative count. |
| `SyncSales.VerifySample` | src/app/jobs/workers/session/handlers/sync-sales.handler.ts:603-661 | Only items that differ are rewritten and none is undone; with a hundred items or fewer, and no failing call, all are in sync afterwards. |
| `SyncSales.OnlyReportedLeft` | src/app/jobs/workers/session/handlers/sync-sales.handler.ts:365-661 | From the batches and the repair to the bound on what is left different. |
| `SyncSales.BatchSize` | src/app/jobs/workers/session/config/sync-sales.config.ts:24-48 | The value itself from 1 to 1000, 1000 above, and 50 when missing or invalid. |
| `Orphans.FindOrphanCoupons` | src/app/jobs/workers/session/services/orphan-coupon.service.ts:39-85 | The skip/take loop ends and returns every orphan of the table, in order, once. |
| `Orphans.OrphansAreOrphans` | src/app/jobs/workers/session/services/orphan-coupon.service.ts:39-85 | The rows returned are exactly those that are valid and have no session, each once. |
| `Orphans.FindUpcoming` | src/app/jobs/workers/session/services/orphan-coupon.service.ts:224-294 | The first session in the priority order that is upcoming, active, undeleted and of an active profile for the term; none only if there is none. |
| `Orphans.AssignCouponToSession` | src/app/jobs/workers/session/services/orphan-coupon.service.ts:302-402 | Profile, second check of the trigger, link, count, publish, in this order: what each failure leaves behind, and when the answer is that the coupon should be refunded. |
| `Orphans.SecondCheckOnlyRefuses` | src/app/jobs/workers/session/services/orphan-coupon.service.ts:313-335 | The second check refuses exactly when the trigger is reached by the count it reads, and then changes nothing. |
| `Orphans.ProcessRefund` | src/app/jobs/workers/session/services/orphan-coupon.service.ts:681-794 | Routing by gateway, and the mark that follows a successful refund. |
| `Orphans.ProcessOrphanCoupons` | src/app/jobs/workers/session/services/orphan-coupon.service.ts:803-979 | The run over the store is the fold of the per-coupon decision over the orphans found at its start; the decision is `ProcessInColumns`. |
| `Orphans.ProcessInColumns` | src/app/jobs/workers/session/services/orphan-coupon.service.ts:828-963 | A coupon with a term goes to the first session in the priority order that takes it, whose count grows by one, unless that session is sold out; then, and if there is none, it is refunded and struck out if its order has a Razorpay or Stripe payment, and an error that changes nothing otherwise; what each failing call changes. |
| `Orphans.RunDealsWithOrphans` | src/app/jobs/workers/session/services/orphan-coupon.service.ts:803-979 | After a faultless run every coupon that was an orphan with a term is linked to a session that takes it, or refunded and struck out, unless its order cannot be paid back; then it is as it was. |
| `Orphans.ProcessFrame` | src/app/jobs/workers/session/services/orphan-coupon.service.ts:828-963 | Processing a coupon changes that coupon only: linked to an upcoming session, struck out, or as before. |
| `Orphans.RunProcessesEachOrphan` | src/app/jobs/workers/session/services/orphan-coupon.service.ts:828-963 | The four tallies count the verdicts on the orphans, each orphan once: processed = assigned + refunded + errors + coupons without a term = the number of orphans; and refunded is the number of refunds made. |
| `Orphans.RunConservesCounts` | src/app/jobs/workers/session/services/orphan-coupon.service.ts:302-402 | Each session's sales counter, if it is a number, grows by exactly the coupons linked to it (at most, if an increment failed) and never passes the larger of its initial value and the trigger. |
| `Orphans.RefundedOnceNeverLinked` | src/app/jobs/workers/session/services/orphan-coupon.service.ts:757-779 | Over any sequence of runs with a stable order and successful marks: no coupon is refunded twice, none is both linked and refunded, and no link is undone. |
| `Lifecycle.RefundedOnceInRun` | src/app/jobs/workers/session/services/orphan-coupon.service.ts:757-779 | The same in every run of the whole system with all its other steps in between, whatever the counters, caps and rewards: refunds are never repeated or forgotten, and a refunded coupon is never linked or applied. |
| `Orphans.MarkingPreventsSecondRefund` | src/app/jobs/workers/session/services/orphan-coupon.service.ts:757-779 | A refunded coupon is an orphan no longer exactly if the mark was written; if not, the next pass refunds it again. |
| `Expiry.BatchSizeRange` | src/app/jobs/workers/session/handlers/expire-session-coupons.handler.ts:31-48 | A resolved batch size is between 0 and 2000, and 0 exactly for a requested fraction below one; a usable request is rounded down, and without one the configured size applies, from 100 to 2000, 500 by default. |
| `Expiry.FindPage` | src/app/jobs/workers/session/handlers/expire-session-coupons.handler.ts:163-172 | The page query: the least ids, ascending, as many as asked for or all. |
| `Expiry.ExpireInBatches` | src/app/jobs/workers/session/handlers/expire-session-coupons.handler.ts:154-202 | The loop ends; for a batch size b >= 1 it expires exactly the n pending coupons of the session, reports n, and takes ceil(n / b) batches; for b = 0 it does nothing. |
| `Expiry.HandleExpireSessionCoupons` | src/app/jobs/workers/session/handlers/expire-session-coupons.handler.ts:50-219 | The job over the store: `Handled`, that is, every refusal without effect, else the loop on the session's pending coupons, reported as skipped exactly if it expired none. |
| `Expiry.HandledInColumns` | src/app/jobs/workers/session/handlers/expire-session-coupons.handler.ts:93-219 | In columns: coupons expire exactly if the session is completed and of the named profile, its positive trigger is reached by the stored count or a number in the payload, the batch size is not zero and some coupon is valid, unredeemed and unapplied; then all those get status expired and become invalid, and no other row changes. |
| `Expiry.RefusalInColumns` | src/app/jobs/workers/session/handlers/expire-session-coupons.handler.ts:67-152 | Each refusal and its exact condition; the threshold is max(stored, payload) >= trigger. |
| `Expiry.SecondRunChangesNothing` | src/app/jobs/workers/session/handlers/expire-session-coupons.handler.ts:154-219 | Afterwards exactly the valid, unredeemed, unapplied coupons of the session are expired and invalid; nothing is pending, and a second run changes nothing. |
| `Base62.Encode` | src/app/coupon/utils/coupon-generator.util.ts:69-84 | The loop, with every division rounded to a double, yields the exact base-62 digits of every integer below 2^53. |
| `Base62.Decode` | src/app/coupon/utils/coupon-generator.util.ts:89-104 | Fails exactly on strings with a foreign character; exact, with every operation rounded, for values up to 2^53. |
| `Base62.DivisionIsExact` | src/app/coupon/utils/coupon-generator.util.ts:80 | `Math.floor(num / 62)` on doubles is the integer quotient for every safe integer. |
| `Base62.AlphabetIsDigits` | src/app/coupon/utils/coupon-generator.util.ts:24-25 | The digits are the characters of the alphabet constant, in its order. |
| `Base62.DecodeEncode` | src/app/coupon/utils/coupon-generator.util.ts:69-104 | decode(encode(n)) = n. |
| `Base62.EncodeDecode` | src/app/coupon/utils/coupon-generator.util.ts:69-104 | encode(decode(s)) = s exactly for the strings without a leading zero. |
| `Base62.DigitCount` | src/app/coupon/utils/coupon-generator.util.ts:69-84 | At most k digits exactly for numbers below 62^k. |
| `Base62.AtMostNineDigits` | src/app/coupon/utils/coupon-generator.util.ts:69-84 | At most nine digits for every number below 2^53. |
| `Base64Url.Base64urlDecode` | src/app/coupon/utils/coupon-generator.util.ts:182-189 | The padding loop completes the length to a multiple of four and decodes. |
| `Base64Url.StandardIsPadded` | src/app/coupon/utils/coupon-generator.util.ts:171-177 | Standard base64 is its letters followed by the padding their number calls for (section 4 of RFC 4648). |
| `Base64Url.LettersAreTheAlphabet` | src/app/coupon/utils/coupon-generator.util.ts:171-177 | The letters are those of table 1 of RFC 4648, in its order. |
| `Base64Url.EncodeIsUrlSafe` | src/app/coupon/utils/coupon-generator.util.ts:171-177 | The encoded form has URL-safe characters only, four for every three bytes, rounded up (section 5 of RFC 4648). |
| `Base64Url.KnownVectors` | src/app/coupon/utils/coupon-generator.util.ts:171-177 | Two test vectors of section 10 of RFC 4648 fix the alphabet and the order of the bits. |
| `Base64Url.RepaddingRestores` | src/app/coupon/utils/coupon-generator.util.ts:182-189 | Replacing and padding again restores the standard form of every encoding, whatever its length (section 3.2 of RFC 4648). |
| `Base64Url.DecodeEncode` | src/app/coupon/utils/coupon-generator.util.ts:171-189 | Decoding inverts encoding for all bytes. |
| `FernetToken.DecryptEncrypt` | src/app/coupon/utils/coupon-generator.util.ts:194-278 | decrypt(encrypt(p)) = p for every plaintext, timestamp, IV and 32-byte key, through slicing and base64url. |
| `FernetToken.TokenInBytes` | src/app/coupon/utils/coupon-generator.util.ts:194-226 | Byte by byte: 0x80, the time, the IV, the ciphertext under the second half of the key, and the digest of all that under the first half. |
| `FernetToken.DecryptInBytes` | src/app/coupon/utils/coupon-generator.util.ts:235-278 | Which bytes decryption takes for what, which half of the key it uses for what, and the order of its refusals. |
| `FernetToken.AcceptsExactlyTheLayout` | src/app/coupon/utils/coupon-generator.util.ts:235-278 | Decryption succeeds exactly on version, 8 bytes, IV, ciphertext and the right HMAC; short tokens, whose slices clamp or overlap, are all refused. |
| `FernetToken.SlicesAreParts` | src/app/coupon/utils/coupon-generator.util.ts:239-257 | The slices of a token of that layout are its parts. |
| `FernetToken.TimestampReads` | src/app/coupon/utils/coupon-generator.util.ts:202-205 | The timestamp of an encrypted code can be read back. |
| `FernetToken.BigEndianReads` | src/app/coupon/utils/coupon-generator.util.ts:202-205 | Big-endian bytes give the number back if it fits them. |
| `FernetToken.FirstByteWeighsMost` | src/app/coupon/utils/coupon-generator.util.ts:202-205 | The first byte of the timestamp is the most significant one. |
| `CouponCode.UniqueTimestamp` | src/app/coupon/utils/coupon-generator.util.ts:294-297 | The timestamp formula equals 1000 times the epoch milliseconds. |
| `CouponCode.GenerateUniqueCode` | src/app/coupon/utils/coupon-generator.util.ts:289-315 | The code is the prefix, session, user and 1000 times the milliseconds in base 62, and the suffix, in this order, exactly, for numbers below 2^53. |
| `CouponCode.CodesDiffer` | src/app/coupon/utils/coupon-generator.util.ts:289-315 | Two codes of one session and user with suffixes of one length are equal exactly if made in the same millisecond with the same suffix. |
| `CouponCode.CodesCoincide` | src/app/coupon/utils/coupon-generator.util.ts:310-312 | Two pairs of session and user share their codes exactly when their digits, put together, are the same. |
| `CouponCode.PartsRunTogether` | src/app/coupon/utils/coupon-generator.util.ts:310-312 | Every session number of two digits or more that does not end in zero shares its codes with a shorter one, for every user of it. |
| `CouponCode.ParseGenerated` | src/app/coupon/utils/coupon-generator.util.ts:349-382 | A generated code parses exactly if the configured prefix has three characters, and into its own parts exactly if its suffix has the configured length. |
| `CouponCode.GenerateEncryptDecryptParse` | src/app/coupon/utils/coupon-generator.util.ts:320-382 | Generate, encrypt, decrypt and parse gives the code back, and its suffix. |
| `SessionCreation.CreateSession` | src/app/session/session.service.ts:100-271 | The service's call over the store: result, sessions and profiles are those of the specification. |
| `SessionCreation.CreateSessionInWorker` | src/app/jobs/workers/session/services/session-creation.service.ts:47-151 | The worker's call: the same, but for the start time of the opened session, which it leaves alone, and the times of the successor, which it sets. |
| `SessionCreation.AnswerInColumns` | src/app/session/session.service.ts:108-213 | Each answer and its exact condition. |
| `SessionCreation.OpeningInColumns` | src/app/session/session.service.ts:128-168 | Of the existing rows exactly the named one changes, if it is upcoming and of the usable profile of the call: status, and by the service the start time. |
| `SessionCreation.CreationInColumns` | src/app/session/session.service.ts:204-256 | The inserted row column by column, and the profile's count, exactly if the call created a session; nothing else changes. |
| `SessionCreation.RunNumbers` | src/app/session/session.service.ts:204-256 | Over any sequence of calls of either kind, repetitions included: a profile's count grows by exactly its new sessions, these carry consecutive numbers, each once, the limit is kept, and older rows change only by opening. |
| `SessionCreation.OnlyNamedChange` | src/app/session/session.service.ts:128-168 | Over any sequence of calls a session changes only by one that names it and is for its own profile. |
| `SessionCreation.LimitHolds` | src/app/session/session.service.ts:204-213 | A profile that starts within max_sessions stays within it. |
| `SessionCreation.NamedSessionOpens` | src/app/session/session.service.ts:128-213 | An upcoming session named for its own usable profile is OPENING afterwards, even when the limit is hit. |
| `SessionCreation.SuccessorIsUpcoming` | src/app/session/session.service.ts:204-271 | A successor is created exactly for a usable profile below its limit and a session of its own, if one is named; it is upcoming, active, numbered next, without sales or participants, and has times exactly if the worker created it. |
| `SessionCreation.OpeningHappensOnce` | src/app/session/session.service.ts:144-168 | A repeated call, of either kind, does not change a session that is open already. |
| `SessionCreation.MixedCreatorsLeaveNoStart` | src/app/jobs/workers/session/services/session-creation.service.ts:84-89 | A session created by the service and opened by the worker is OPENING without a start time, for which no duration ever ends. |
| `SessionCreation.OverlappingCallsBreakTheLimit` | src/app/session/session.service.ts:108-256 | Two calls that both read the profile first pass the limit and use one number twice. |
| `StopSession.HandleStopSession` | src/app/jobs/workers/session/handlers/stop-session.handler.ts:32-120 | A LIVE session, in any letter case, is stopped; the other answers and their conditions. |
| `StopSession.StopInColumns` | src/app/jobs/workers/session/handlers/stop-session.handler.ts:66-88 | Of the stopped row exactly status, end time and flag change, to time_reached, now and false; no other row changes. |
| `StopSession.StopIsFinal` | src/app/jobs/workers/session/handlers/stop-session.handler.ts:66-88 | Stopping twice is stopping once, and afterwards every apply job of the session is refused without effect. |
| `Lifecycle.Dispatch` | src/app/jobs/workers/session/session.worker.ts:135-160 | The switch over the job names: whatever handler runs over the store, what it does is a step of the shop, so that the results about runs are about the handlers. |
| `Lifecycle.RunKeepsOpen` | src/app/jobs/workers/session/session.worker.ts:135-174 | In every serial, crash-free run of all handlers, requests and expiring keys no session's rank UPCOMING < OPENING < LIVE < ended ever decreases, and coupons are applied only in sessions that have been LIVE, whatever the counters, caps and rewards are. |
| `Lifecycle.NoSessionGoesBack` | src/app/jobs/workers/session/session.worker.ts:135-174 | In the status column: an OPENING session is never UPCOMING again, a LIVE one only LIVE or ended, and an ended one ended. |
| `Lifecycle.RunKeepsInv` | src/app/jobs/workers/session/session.worker.ts:135-174 | In every such run the whole invariant holds in every state: the one before, true counters where nothing resets them, participants, caps, free slots and rewards. |
| `Lifecycle.ReachableStates` | src/app/jobs/workers/session/handlers/apply-coupon.handler.ts:131-320 | In every reachable state, in the columns of the tables: no applied coupon in a session UPCOMING or OPENING, participants = applied coupons, wins per user and session within the cap, rewards exactly for the applied, winning coupons, and a free slot in every LIVE session with a limit. |
| `Lifecycle.StepIsQuiet` | src/app/jobs/workers/session/session.worker.ts:135-174 | Every step but the apply job applies nothing, redeems nothing, moves no linked coupon, revives no invalid one, sends no session back, and changes no counter but that of an ended session. |
| `Lifecycle.ApplyIsMild` | src/app/jobs/workers/session/handlers/apply-coupon.handler.ts:119-320 | The apply job, in any state of the tables and counters, unlinks nothing, revives no invalid coupon, sends no session back, and applies coupons in LIVE sessions only. |
| `Lifecycle.ApplyKeepsInv` | src/app/jobs/workers/session/handlers/apply-coupon.handler.ts:119-320 | The apply job keeps the invariant. |
| `Lifecycle.QueuedStaysInRun` | src/app/jobs/workers/session/session.worker.ts:135-174 | A queued job keeps naming the session of its coupon while other jobs run. |
| `Lifecycle.RunsOfNewShop` | src/app/jobs/workers/session/session.worker.ts:135-174 | All of this holds of every run of a shop without sessions and coupons, whatever its profiles. |

## Left out

- Logging, pub/sub messages, Socket.IO, metrics, connections and retry policies: they do not change rows.
- Payment gateways are a flag that says whether the refund succeeded.
- Redis values that parse only in part, such as "12abc": a value is a number or it is not.
- Columns no modelled decision reads: `updated_at`, `suid`, `name`, the start and stop trigger columns, reward columns copied from the profile.
- Calendar years and daylight saving: dates are in UTC, and adding years is an unknown function; that a session which starts earlier is due earlier takes it to be monotone.
- Other writers of the sales counters (`handleSalesUpdate`, the FastAPI service) while an orphan run or a sales sync is at work; in `Lifecycle` such a write is a step between jobs.
- Administrators who reopen, un-delete or un-stop a session, or change `max_slots` of a profile with sessions, and other writers of the applied counters: excluded from the runs.
- `getCouponStatus`, the DTOs, guards, rate limits and templates; the look-up of a coupon by its encrypted code is the coupon's id in `Requests`.
- `applyCouponWithRedisAtomic` follows the same protocol as the handler and is not modelled a second time.
- The sales-sync `skipped` tally and success rate: an item can be counted twice across the fallbacks.
- The status key that the threshold handler keeps in Redis around the creation, and `schedule-stop-sessions`, which only computes delays for stop jobs; `rotate-session` does nothing.
- AES and HMAC are unknown functions, with decryption inverting encryption and digests of 32 bytes; no secrecy or unforgeability is claimed.
- `getEncryptionKey`, `validateCouponCodeFormat`, `generateScuid` and the reading of environment variables into `CouponConfig`: easy members.
- Lone surrogates in a plain code: `FernetToken.DecryptEncrypt` assumes the text survives UTF-8.
- Base62.Encode: numbers of 2^53 and above, which are not exact in the original either, are outside its contract; fractions are not modelled.
- Base62.Decode: says nothing about the number returned beyond 2^53, where the original rounds.
- Requests.QueueApplication: which waiting jobs the look-up returns is an input, since the queue library pages them by state.
