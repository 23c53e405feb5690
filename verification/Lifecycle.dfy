/** All handlers together, one after the other and without crashes: what every run
    keeps, whatever the jobs and their order. */
module Lifecycle {
  import opened Schema
  import StartLiveProtocol
  import StartLive
  import SyncOpening
  import SyncSales
  import SessionCreation
  import StopSession
  import Orphans
  import Expiry
  import Requests
  import opened ApplyCoupon
  import opened ApplyQueue

  /** One job, or one step of the shop, of Redis or of an administrator. */
  datatype Event =
    | Threshold(e: SessionCreation.Event)
    | StartLiveJob(session: int)
    | SyncOpeningJob
    | StopJob(session: int, now: int)
    | ApplyJob(job: Job)
    | ExpireJob(expire: Expiry.Job, configured: Option<int>)
    | OrphanRun(ctx: Orphans.Context, faults: int -> Orphans.Faults)
    | SyncSalesJob
    | Requested(user: int, coupon: int, at: int, seen: seq<Job>)
    | KeysExpired(session: int)
    | Sold(coupon: int, row: Coupon)
    | SaleCounted(session: int, count: Text)
    | Flagged(session: int, forceStop: bool, isDeleted: bool)

  // ----- Steps --------------------------------------------------------------------------

  function RankOf(w: World, session: int): int
    requires session in w.sessions
  {
    Rank(w.sessions[session].status.kind)
  }

  function Expired(w: World, j: Expiry.Job, configured: Option<int>): World {
    if Expiry.Refusal(w, j).Some? || Expiry.ResolveBatchSize(j.batchSize, configured) == 0 then w
    else w.(coupons := Expiry.Expire(w.coupons, Expiry.PendingIn(w.coupons, j.session)))
  }

  ghost predicate Promotes(w: World, session: int, w': World) {
    exists order: seq<int> ::
      && (session in w.sessions ==> StartLiveProtocol.IsCandidateList(w.sessions, w.sessions[session].profile, order))
      && var r := StartLive.OutcomeOf(w.profiles, w.sessions, session, order);
         w' == w.(sessions := StartLive.After(w.sessions, session, r))
  }

  /** The keys of a session that has ended may expire, one by one. */
  predicate KeysMayExpire(w: World, session: int, w': World) {
    && session in w.sessions && RankOf(w, session) == 3
    && w' == w.(applied := w'.applied, sales := w'.sales)
    && (w'.applied == w.applied || w'.applied == w.applied - {session})
    && (w'.sales == w.sales || w'.sales == w.sales - {session})
  }

  /** The contracts of the handlers, as steps between two states of the tables. */
  ghost predicate Changes(c: Config, w: World, e: Event, w': World)
    requires !e.OrphanRun?
  {
    match e
    case Threshold(e) =>
      // keys are assigned once, so no counter exists under a new one
      e.id !in w.sessions && e.id !in w.applied && w' == SessionCreation.Create(w, e).0
    case StartLiveJob(session) => Promotes(w, session, w')
    case SyncOpeningJob =>
      w' == w.(sessions := w'.sessions) && SyncOpening.PromotedSome(w.sessions, w'.sessions, w.sessions.Keys)
    case StopJob(session, now) => w' == w.(sessions := StopSession.Stop(w.sessions, session, now))
    case ApplyJob(j) => WellQueued(w, j) && w' == Handle(c, w, j).0
    case ExpireJob(j, configured) => w' == Expired(w, j, configured)
    case SyncSalesJob =>
      w' == w.(sessions := w'.sessions, sales := w'.sales)
      && SyncSales.Between(w.sessions, SyncSales.Counts(w.sales), w'.sessions)
    case Requested(user, coupon, at, seen) => w' == Requests.Answer(c, w, user, coupon, at, seen).0
    case KeysExpired(session) => KeysMayExpire(w, session, w')
    case Sold(id, k) =>
      id !in w.coupons && k.appliedAt.None? && !k.isRedeemed && w' == w.(coupons := w.coupons[id := k])
    case SaleCounted(session, count) => w' == w.(sales := w.sales[session := count])
    case Flagged(session, forceStop, isDeleted) =>
      session in w.sessions
      && w' == w.(sessions := w.sessions[session := w.sessions[session].(
           forceStop := w.sessions[session].forceStop || forceStop,
           isDeleted := w.sessions[session].isDeleted || isDeleted)])
  }

  /** One step of the whole shop: its tables, and what the gateways have refunded. */
  ghost predicate Step(c: Config, sh: Orphans.Shop, e: Event, sh': Orphans.Shop) {
    if e.OrphanRun? then
      Orphans.StableOrder(e.ctx) && sh' == Orphans.RunOrphans(sh, e.ctx, e.faults).0
    else
      Changes(c, sh.w, e, sh'.w) && sh'.refunds == sh.refunds
  }

  // ----- The worker --------------------------------------------------------------------------

  /** What a job does not carry itself: the clock, the calendar, faults, and Redis pages. */
  datatype Inputs = Inputs(
    now: int, addYears: (int, int) -> int, listing: SyncOpening.ListFault, faults: int -> SyncOpening.Fault,
    pages: seq<seq<SyncSales.Key>>, batchSize: Option<Text>, reliable: bool)

  /** What is asked of an event at its turn: fresh keys, and what its queue and Redis promise. */
  ghost predicate CanRun(w: World, e: Event, x: Inputs) {
    match e
    case Threshold(e) => e.id !in w.sessions && e.id !in w.applied
    case ApplyJob(j) => WellQueued(w, j)
    case OrphanRun(ctx, _) => Orphans.StableOrder(ctx)
    case SyncSalesJob => SyncSales.Covers(x.pages, w.sales)
    case KeysExpired(_) => false
    case Sold(_, _) => false
    case SaleCounted(_, _) => false
    case Flagged(_, _, _) => false
    case _ => true
  }

  /** The worker's switch over the job names, and the two calls of the API: whatever handler
      runs, what it does to the store is a step of the shop. */
  method Dispatch(
    store: Store, refunds: Orphans.Refunds, queue: Requests.Queue, c: Config, e: Event, x: Inputs)
    requires CanRun(store.W(), e, x)
    modifies store, refunds, queue
    ensures Step(c, old(Orphans.Shop(store.W(), refunds.done)), e, Orphans.Shop(store.W(), refunds.done))
  {
    match e {
      case Threshold(e) =>
        if e.creator.Service? {
          var _ := SessionCreation.CreateSession(store, e);
        } else {
          var _ := SessionCreation.CreateSessionInWorker(store, e);
        }
      case StartLiveJob(session) =>
        var _ := StartLive.StartLiveSession(store, session);
      case SyncOpeningJob =>
        var _ := SyncOpening.SyncOpeningSessionsToLive(store, x.now, x.addYears, x.listing, x.faults);
      case StopJob(session, now) =>
        var _ := StopSession.HandleStopSession(store, session, now);
      case ApplyJob(j) =>
        var _ := HandleApplyCoupon(store, c, j);
      case ExpireJob(j, configured) =>
        var r := Expiry.HandleExpireSessionCoupons(store, j, configured);
      case OrphanRun(ctx, faults) =>
        var _ := Orphans.ProcessOrphanCoupons(store, refunds, ctx, faults);
      case SyncSalesJob =>
        var _ := SyncSales.HandleSyncSales(store, x.pages, x.batchSize, x.reliable);
      case Requested(user, coupon, at, seen) =>
        var _ := Requests.QueueApplication(store, queue, c, user, coupon, at, seen);
      case _ => assert false;
    }
  }

  // ----- The invariant --------------------------------------------------------------------

  /** A coupon is applied only in a session that has been LIVE. */
  ghost predicate AppliedWhereOpen(w: World) {
    forall id :: id in w.coupons && w.coupons[id].appliedAt.Some? ==>
      && w.coupons[id].session.Some? && w.coupons[id].session.value in w.sessions
      && RankOf(w, w.coupons[id].session.value) >= 2
  }

  ghost predicate WinsCapped(c: Config, w: World) {
    HasCap(c) ==> forall u, s :: |WinsOf(w.coupons, u, s)| <= c.cap.value
  }

  ghost predicate ParticipantsCounted(w: World) {
    forall s :: s in w.sessions ==> w.sessions[s].participants == |AppliedIn(w.coupons, s)|
  }

  /** A LIVE session with a slot limit has a free slot. */
  ghost predicate FreeSlot(w: World) {
    forall s :: s in w.sessions && w.sessions[s].status.kind == Live
                && w.sessions[s].profile in w.profiles && SlotsOf(w, s) > 0 ==>
      |AppliedIn(w.coupons, s)| < SlotsOf(w, s)
  }

  predicate HasWon(coupons: map<int, Coupon>, id: int) {
    id in coupons && coupons[id].appliedAt.Some? && coupons[id].status == Winner
  }

  predicate RewardFor(coupons: map<int, Coupon>, r: Reward) {
    HasWon(coupons, r.coupon) && coupons[r.coupon].user == r.user && coupons[r.coupon].session == Some(r.session)
  }

  /** Every winning coupon has exactly one reward, and every reward is for one. */
  ghost predicate RewardsMatch(w: World) {
    && (forall i :: 0 <= i < |w.rewards| ==> RewardFor(w.coupons, w.rewards[i]))
    && (forall i, j :: 0 <= i < j < |w.rewards| ==> w.rewards[i].coupon != w.rewards[j].coupon)
    && (forall id :: HasWon(w.coupons, id) ==> HasReward(w.rewards, id))
  }

  ghost predicate HasReward(rewards: seq<Reward>, coupon: int) {
    exists i :: 0 <= i < |rewards| && rewards[i].coupon == coupon
  }

  /** Coupons are redeemed exactly when applied, and the Redis counter of a session without
      a slot limit is right until the session has ended. */
  ghost predicate Consistent(w: World) {
    && (forall id :: CouponFit(w, id))
    && (forall s :: s in w.sessions && RankOf(w, s) <= 2
                    && w.sessions[s].profile in w.profiles && SlotsOf(w, s) <= 0 ==>
          Counter(w.applied, s) == |AppliedIn(w.coupons, s)|)
  }

  ghost predicate Inv(c: Config, w: World) {
    && Consistent(w) && AppliedWhereOpen(w) && WinsCapped(c, w) && ParticipantsCounted(w) && FreeSlot(w)
    && RewardsMatch(w)
  }

  /** No session goes back, and none disappears. */
  ghost predicate RanksKept(w: World, w': World) {
    forall s :: s in w.sessions ==> s in w'.sessions && RankOf(w, s) <= RankOf(w', s)
  }

  // ----- Steps that apply nothing ------------------------------------------------------------

  ghost predicate QuietSessions(w: World, w': World) {
    && (forall s :: s in w.sessions ==>
          && s in w'.sessions && RankOf(w, s) <= RankOf(w', s)
          && w'.sessions[s].profile == w.sessions[s].profile
          && w'.sessions[s].participants == w.sessions[s].participants)
    && (forall s :: s in w'.sessions && s !in w.sessions ==>
          RankOf(w', s) == 0 && w'.sessions[s].participants == 0 && s !in w.applied)
  }

  predicate QuietRow(k: Coupon, k': Coupon) {
    && k'.appliedAt == k.appliedAt && k'.isRedeemed == k.isRedeemed && k'.user == k.user
    && (k.session.Some? || !k.isValid ==> k'.session == k.session)
    && (!k.isValid ==> !k'.isValid)
    && (k.appliedAt.Some? ==> k'.session == k.session && k'.status == k.status)
  }

  ghost predicate QuietCoupons(a: map<int, Coupon>, b: map<int, Coupon>) {
    && (forall id :: id in a ==> id in b && QuietRow(a[id], b[id]))
    && (forall id :: id in b && id !in a ==> b[id].appliedAt.None? && !b[id].isRedeemed)
  }

  ghost predicate QuietProfiles(a: map<int, Profile>, b: map<int, Profile>) {
    a.Keys == b.Keys && forall p :: p in a ==> b[p].maxSlots == a[p].maxSlots
  }

  /** Only the counter of a session that has ended may change. */
  ghost predicate QuietCounters(w: World, w': World) {
    forall s :: (s in w.sessions && RankOf(w, s) == 3) || Counter(w'.applied, s) == Counter(w.applied, s)
  }

  ghost predicate Quiet(w: World, w': World) {
    && QuietProfiles(w.profiles, w'.profiles) && QuietSessions(w, w') && QuietCoupons(w.coupons, w'.coupons)
    && QuietCounters(w, w') && w'.rewards == w.rewards
  }

  lemma QuietCounts(a: map<int, Coupon>, b: map<int, Coupon>)
    requires QuietCoupons(a, b)
    ensures forall s :: AppliedIn(b, s) == AppliedIn(a, s)
    ensures forall u, s :: WinsOf(b, u, s) == WinsOf(a, u, s)
  {
    forall s ensures AppliedIn(b, s) == AppliedIn(a, s) {
      forall id ensures id in AppliedIn(b, s) <==> id in AppliedIn(a, s) {
        if id in a {
          assert QuietRow(a[id], b[id]);
        }
      }
    }
    forall u, s ensures WinsOf(b, u, s) == WinsOf(a, u, s) {
      forall id ensures id in WinsOf(b, u, s) <==> id in WinsOf(a, u, s) {
        if id in a {
          assert QuietRow(a[id], b[id]);
        }
      }
    }
  }

  /** Nothing is applied in a session that has not been LIVE, or does not exist. */
  lemma NothingApplied(w: World, s: int)
    requires AppliedWhereOpen(w) && (s in w.sessions ==> RankOf(w, s) < 2)
    ensures AppliedIn(w.coupons, s) == {}
  {
    forall id ensures id !in AppliedIn(w.coupons, s) {
      if id in w.coupons && w.coupons[id].appliedAt.Some? {
        assert w.coupons[id].session.value in w.sessions;
      }
    }
  }

  lemma QuietKeepsConsistent(w: World, w': World)
    requires Consistent(w) && AppliedWhereOpen(w) && Quiet(w, w')
    ensures Consistent(w')
  {
    QuietCounts(w.coupons, w'.coupons);
    forall s | s in w'.sessions && Rank(w'.sessions[s].status.kind) <= 2
               && w'.sessions[s].profile in w'.profiles && SlotsOf(w', s) <= 0
      ensures Counter(w'.applied, s) == |AppliedIn(w'.coupons, s)|
    {
      assert Counter(w'.applied, s) == Counter(w.applied, s);
      if s in w.sessions {
        assert SlotsOf(w, s) <= 0;
      } else {
        NothingApplied(w, s);
      }
    }
    forall id ensures CouponFit(w', id) {
      assert CouponFit(w, id);
      if id in w.coupons && id in w'.coupons {
        assert QuietRow(w.coupons[id], w'.coupons[id]);
      }
    }
  }

  lemma QuietKeepsApplied(w: World, w': World)
    requires AppliedWhereOpen(w) && Quiet(w, w')
    ensures AppliedWhereOpen(w')
  {
    forall id | id in w'.coupons && w'.coupons[id].appliedAt.Some?
      ensures w'.coupons[id].session.Some? && w'.coupons[id].session.value in w'.sessions
              && RankOf(w', w'.coupons[id].session.value) >= 2
    {
      assert id in w.coupons && QuietRow(w.coupons[id], w'.coupons[id]);
    }
  }

  lemma QuietKeepsCounts(c: Config, w: World, w': World)
    requires Inv(c, w) && Quiet(w, w')
    ensures WinsCapped(c, w') && ParticipantsCounted(w') && FreeSlot(w')
  {
    QuietCounts(w.coupons, w'.coupons);
    forall s | s in w'.sessions ensures w'.sessions[s].participants == |AppliedIn(w'.coupons, s)| {
      if s !in w.sessions {
        NothingApplied(w, s);
      }
    }
    forall s | s in w'.sessions && w'.sessions[s].status.kind == Live
               && w'.sessions[s].profile in w'.profiles && SlotsOf(w', s) > 0
      ensures |AppliedIn(w'.coupons, s)| < SlotsOf(w', s)
    {
      if s in w.sessions && RankOf(w, s) >= 2 {
        assert w.sessions[s].status.kind == Live && SlotsOf(w, s) == SlotsOf(w', s);
      } else {
        NothingApplied(w, s);
      }
    }
  }

  lemma QuietKeepsRewards(w: World, w': World)
    requires RewardsMatch(w) && Quiet(w, w')
    ensures RewardsMatch(w')
  {
    forall id ensures HasWon(w'.coupons, id) <==> HasWon(w.coupons, id) {
      if id in w.coupons {
        assert QuietRow(w.coupons[id], w'.coupons[id]);
      }
    }
    forall i | 0 <= i < |w.rewards| ensures RewardFor(w'.coupons, w.rewards[i]) {
      assert RewardFor(w.coupons, w.rewards[i]);
      assert QuietRow(w.coupons[w.rewards[i].coupon], w'.coupons[w.rewards[i].coupon]);
    }
  }

  lemma QuietKeepsInv(c: Config, w: World, w': World)
    requires Inv(c, w) && Quiet(w, w')
    ensures Inv(c, w')
  {
    QuietKeepsConsistent(w, w');
    QuietKeepsApplied(w, w');
    QuietKeepsCounts(c, w, w');
    QuietKeepsRewards(w, w');
  }

  // ----- Which steps are quiet -----------------------------------------------------------------

  lemma OnlySessions(w: World, w': World)
    requires w'.profiles == w.profiles && w'.coupons == w.coupons && w'.applied == w.applied
    requires w'.rewards == w.rewards && QuietSessions(w, w')
    ensures Quiet(w, w')
  {
  }

  lemma OnlyCoupons(w: World, w': World)
    requires w'.profiles == w.profiles && w'.sessions == w.sessions && w'.applied == w.applied
    requires w'.rewards == w.rewards && QuietCoupons(w.coupons, w'.coupons)
    ensures Quiet(w, w')
  {
  }

  lemma ThresholdIsQuiet(w: World, e: SessionCreation.Event)
    requires e.id !in w.sessions && e.id !in w.applied
    ensures Quiet(w, SessionCreation.Create(w, e).0)
  {
    var w' := SessionCreation.Create(w, e).0;
    SessionCreation.StepRows(w, w, e);
    SessionCreation.StepAdds(w, e);
    assert w'.coupons == w.coupons && w'.applied == w.applied && w'.rewards == w.rewards;
    forall s | s in w'.sessions && s !in w.sessions
      ensures RankOf(w', s) == 0 && w'.sessions[s].participants == 0 && s !in w.applied
    {
      assert s == e.id;
    }
  }

  lemma SyncSalesIsQuiet(w: World, w': World)
    requires w' == w.(sessions := w'.sessions, sales := w'.sales)
    requires SyncSales.Between(w.sessions, SyncSales.Counts(w.sales), w'.sessions)
    ensures Quiet(w, w')
  {
    OnlySessions(w, w');
  }

  lemma ExpireIsQuiet(w: World, j: Expiry.Job, configured: Option<int>)
    ensures Quiet(w, Expired(w, j, configured))
  {
    OnlyCoupons(w, Expired(w, j, configured));
  }

  lemma QuietCouponsTransitive(a: map<int, Coupon>, b: map<int, Coupon>, d: map<int, Coupon>)
    requires QuietCoupons(a, b) && QuietCoupons(b, d)
    ensures QuietCoupons(a, d)
  {
    forall id | id in a ensures id in d && QuietRow(a[id], d[id]) {
      assert QuietRow(a[id], b[id]) && QuietRow(b[id], d[id]);
    }
  }

  lemma FramedIsQuiet(w: World, w': World, id: int)
    requires Orphans.Framed(w, w', id) && id in w.coupons
    requires w.coupons[id].appliedAt.None? && Orphans.IsOrphan(w.coupons[id])
    ensures QuietCoupons(w.coupons, w'.coupons)
  {
  }

  lemma OrphanIsQuiet(
    sh: Orphans.Shop, mid: Orphans.Shop, ctx: Orphans.Context, o: Orphans.Orphan, f: Orphans.Faults)
    requires AppliedWhereOpen(sh.w) && Orphans.Untouched(sh, mid, o.id)
    requires QuietCoupons(sh.w.coupons, mid.w.coupons)
    ensures QuietCoupons(sh.w.coupons, Orphans.Process(mid, ctx, o, f).0.w.coupons)
  {
    var after := Orphans.Process(mid, ctx, o, f).0.w;
    Orphans.ProcessFrame(mid, ctx, o, f);
    FramedIsQuiet(mid.w, after, o.id);
    QuietCouponsTransitive(sh.w.coupons, mid.w.coupons, after.coupons);
  }

  lemma {:induction false} OrphansAreQuiet(
    sh: Orphans.Shop, ctx: Orphans.Context, list: seq<Orphans.Orphan>, n: nat, faults: int -> Orphans.Faults)
    requires n <= |list| && Orphans.Listable(sh.w, list) && AppliedWhereOpen(sh.w)
    ensures QuietCoupons(sh.w.coupons, Orphans.ProcessFirst(sh, ctx, list, n, faults).0.w.coupons)
    decreases n
  {
    if n > 0 {
      OrphansAreQuiet(sh, ctx, list, n - 1, faults);
      NextIsQuiet(sh, ctx, list, n, faults);
    }
  }

  lemma NextIsQuiet(
    sh: Orphans.Shop, ctx: Orphans.Context, list: seq<Orphans.Orphan>, n: nat, faults: int -> Orphans.Faults)
    requires 0 < n <= |list| && Orphans.Listable(sh.w, list) && AppliedWhereOpen(sh.w)
    requires QuietCoupons(sh.w.coupons, Orphans.ProcessFirst(sh, ctx, list, n - 1, faults).0.w.coupons)
    ensures QuietCoupons(sh.w.coupons, Orphans.ProcessFirst(sh, ctx, list, n, faults).0.w.coupons)
  {
    Orphans.NextUntouched(sh, ctx, list, n, faults);
    var mid := Orphans.ProcessFirst(sh, ctx, list, n - 1, faults).0;
    OrphanIsQuiet(sh, mid, ctx, list[n - 1], faults(list[n - 1].id));
  }

  lemma OrphanRunIsQuiet(sh: Orphans.Shop, ctx: Orphans.Context, faults: int -> Orphans.Faults)
    requires Orphans.StableOrder(ctx) && AppliedWhereOpen(sh.w)
    ensures Quiet(sh.w, Orphans.RunOrphans(sh, ctx, faults).0.w)
  {
    var list := Orphans.OrphansIn(sh.w.coupons, ctx.byCreation);
    Orphans.OrphansAreOrphans(sh.w.coupons, ctx.byCreation);
    OrphansAreQuiet(sh, ctx, list, |list|, faults);
    Orphans.Unreached(sh, ctx, list, |list|, faults);
    OnlyCoupons(sh.w, Orphans.RunOrphans(sh, ctx, faults).0.w);
  }

  lemma RequestIsQuiet(c: Config, w: World, user: int, coupon: int, at: int, seen: seq<Job>)
    ensures Quiet(w, Requests.Answer(c, w, user, coupon, at, seen).0)
  {
    OnlyCoupons(w, Requests.Answer(c, w, user, coupon, at, seen).0);
  }

  lemma ExpiryOfKeysIsQuiet(w: World, session: int, w': World)
    requires KeysMayExpire(w, session, w')
    ensures Quiet(w, w')
  {
  }

  lemma PromotionIsQuiet(w: World, session: int, w': World)
    requires Promotes(w, session, w')
    ensures Quiet(w, w')
  {
    OnlySessions(w, w');
  }

  lemma SyncOpeningIsQuiet(w: World, w': World)
    requires w' == w.(sessions := w'.sessions)
    requires SyncOpening.PromotedSome(w.sessions, w'.sessions, w.sessions.Keys)
    ensures Quiet(w, w')
  {
    OnlySessions(w, w');
  }

  lemma StopIsQuiet(w: World, session: int, now: int)
    ensures Quiet(w, w.(sessions := StopSession.Stop(w.sessions, session, now)))
  {
    OnlySessions(w, w.(sessions := StopSession.Stop(w.sessions, session, now)));
  }

  /** The steps that are no jobs. */
  lemma OutsideIsQuiet(c: Config, w: World, e: Event, w': World)
    requires (e.Sold? || e.SaleCounted? || e.Flagged?) && Changes(c, w, e, w')
    ensures Quiet(w, w')
  {
    if e.Flagged? {
      OnlySessions(w, w');
    } else {
      OnlyCoupons(w, w');
    }
  }

  lemma ChangesAreQuiet(c: Config, w: World, e: Event, w': World)
    requires !e.OrphanRun? && !e.ApplyJob? && Changes(c, w, e, w')
    ensures Quiet(w, w')
  {
    match e {
      case Threshold(e) => ThresholdIsQuiet(w, e);
      case StartLiveJob(session) => PromotionIsQuiet(w, session, w');
      case SyncOpeningJob => SyncOpeningIsQuiet(w, w');
      case StopJob(session, now) => StopIsQuiet(w, session, now);
      case ExpireJob(j, configured) => ExpireIsQuiet(w, j, configured);
      case SyncSalesJob => SyncSalesIsQuiet(w, w');
      case Requested(user, coupon, at, seen) => RequestIsQuiet(c, w, user, coupon, at, seen);
      case KeysExpired(session) => ExpiryOfKeysIsQuiet(w, session, w');
      case Sold(_, _) => OutsideIsQuiet(c, w, e, w');
      case SaleCounted(_, _) => OutsideIsQuiet(c, w, e, w');
      case Flagged(_, _, _) => OutsideIsQuiet(c, w, e, w');
    }
  }

  lemma StepIsQuiet(c: Config, sh: Orphans.Shop, e: Event, sh': Orphans.Shop)
    requires Step(c, sh, e, sh') && AppliedWhereOpen(sh.w) && !e.ApplyJob?
    ensures Quiet(sh.w, sh'.w)
  {
    if e.OrphanRun? {
      OrphanRunIsQuiet(sh, e.ctx, e.faults);
    } else {
      ChangesAreQuiet(c, sh.w, e, sh'.w);
    }
  }

  // ----- Applying a coupon -----------------------------------------------------------------------

  /** Granting an eligible coupon keeps everything but the counters. */
  lemma GrantKeeps(c: Config, w: World, j: Job)
    requires Inv(c, w) && WellQueued(w, j) && Eligible(c, w, j)
    ensures var g := Grant(w, j);
      && AppliedWhereOpen(g) && WinsCapped(c, g) && ParticipantsCounted(g) && FreeSlot(g)
      && RewardsMatch(g)
  {
    GrantKeepsRewards(c, w, j);
    GrantKeepsApplied(w, j);
    GrantKeepsCap(c, w, j);
    GrantKeepsSessions(c, w, j);
  }

  lemma GrantKeepsCap(c: Config, w: World, j: Job)
    requires Consistent(w) && WinsCapped(c, w) && WellQueued(w, j) && Eligible(c, w, j)
    ensures WinsCapped(c, Grant(w, j))
  {
    var slots, n := SlotsOf(w, j.session), |AppliedIn(w.coupons, j.session)|;
    assert CouponFit(w, j.coupon);
    if HasCap(c) {
      forall u, s ensures |WinsOf(Grant(w, j).coupons, u, s)| <= c.cap.value {
        MarkWins(w.coupons, j.coupon, slots, n + 1, j.at, u, s);
      }
    }
  }

  /** The one session that changes counts its new participant, and ends with the last slot. */
  lemma GrantKeepsSessions(c: Config, w: World, j: Job)
    requires Consistent(w) && ParticipantsCounted(w) && FreeSlot(w) && WellQueued(w, j) && Eligible(c, w, j)
    ensures ParticipantsCounted(Grant(w, j)) && FreeSlot(Grant(w, j))
  {
    var g := Grant(w, j);
    assert CouponFit(w, j.coupon);
    GrantKeepsSlots(w, j);
    forall s | s in w.sessions && s != j.session ensures g.sessions[s] == w.sessions[s] {
    }
    forall s | s in g.sessions && g.sessions[s].status.kind == Live
               && g.sessions[s].profile in g.profiles && SlotsOf(g, s) > 0
      ensures |AppliedIn(g.coupons, s)| < SlotsOf(g, s)
    {
      assert SlotsOf(g, s) == SlotsOf(w, s);
    }
  }

  lemma GrantKeepsRewards(c: Config, w: World, j: Job)
    requires Consistent(w) && RewardsMatch(w) && WellQueued(w, j) && Eligible(c, w, j)
    ensures RewardsMatch(Grant(w, j))
  {
    var g := Grant(w, j);
    var wins := IsWinner(SlotsOf(w, j.session), |AppliedIn(w.coupons, j.session)| + 1);
    assert CouponFit(w, j.coupon) && !HasWon(w.coupons, j.coupon);
    forall id ensures HasWon(g.coupons, id) <==> HasWon(w.coupons, id) || (wins && id == j.coupon) {
    }
    forall i | 0 <= i < |g.rewards| ensures RewardFor(g.coupons, g.rewards[i]) {
      if i < |w.rewards| {
        assert RewardFor(w.coupons, w.rewards[i]) && w.rewards[i].coupon != j.coupon;
      }
    }
    forall id | HasWon(g.coupons, id) ensures HasReward(g.rewards, id) {
      if id == j.coupon {
        assert g.rewards[|w.rewards|].coupon == id;
      } else {
        assert HasReward(w.rewards, id);
        var i :| 0 <= i < |w.rewards| && w.rewards[i].coupon == id;
        assert g.rewards[i].coupon == id;
      }
    }
  }

  lemma GrantKeepsApplied(w: World, j: Job)
    requires AppliedWhereOpen(w) && j.coupon in w.coupons && w.coupons[j.coupon].session == Some(j.session)
    requires j.session in w.sessions && w.sessions[j.session].profile in w.profiles
    requires w.sessions[j.session].status == Written(Live)
    ensures AppliedWhereOpen(Grant(w, j))
  {
    var g := Grant(w, j);
    forall id | id in g.coupons && g.coupons[id].appliedAt.Some?
      ensures g.coupons[id].session.Some? && g.coupons[id].session.value in g.sessions
              && RankOf(g, g.coupons[id].session.value) >= 2
    {
      if id != j.coupon {
        assert g.coupons[id] == w.coupons[id];
      }
    }
  }

  lemma SimulatesKeepsRewards(c: Config, v: World, w: World)
    requires Simulates(c, v, w) && RewardsMatch(v)
    ensures RewardsMatch(w)
  {
    forall id ensures HasWon(w.coupons, id) <==> HasWon(v.coupons, id) {
      if id in v.coupons {
        assert StruckOut(c, v, w, id);
      }
    }
    forall i | 0 <= i < |w.rewards| ensures RewardFor(w.coupons, w.rewards[i]) {
      assert RewardFor(v.coupons, v.rewards[i]);
      assert StruckOut(c, v, w, v.rewards[i].coupon);
    }
  }

  /** Striking out coupons, and the counters, matter to none of this. */
  lemma SimulatesKeeps(c: Config, v: World, w: World)
    requires Simulates(c, v, w)
    requires AppliedWhereOpen(v) && WinsCapped(c, v) && ParticipantsCounted(v) && FreeSlot(v) && RewardsMatch(v)
    ensures AppliedWhereOpen(w) && WinsCapped(c, w) && ParticipantsCounted(w) && FreeSlot(w) && RewardsMatch(w)
  {
    SimulatesKeepsRewards(c, v, w);
    SimulatesCounts(c, v, w);
    forall id | id in w.coupons && w.coupons[id].appliedAt.Some?
      ensures w.coupons[id].session.Some? && w.coupons[id].session.value in w.sessions
              && RankOf(w, w.coupons[id].session.value) >= 2
    {
      assert StruckOut(c, v, w, id);
    }
    forall s | s in w.sessions && w.sessions[s].profile in w.profiles
      ensures SlotsOf(w, s) == SlotsOf(v, s)
    {
    }
  }

  /** The job keeps the counters right, its own session's and all others'. */
  lemma ApplyKeepsConsistent(c: Config, w: World, j: Job)
    requires Consistent(w) && WellQueued(w, j) && Kept(w, Handle(c, w, j).0, j.session)
    requires Simulates(c, Serve(c, w, j), Handle(c, w, j).0)
    ensures Consistent(Handle(c, w, j).0)
  {
    var w' := Handle(c, w, j).0;
    forall id ensures CouponFit(w', id) {
      assert CouponFit(w, id);
    }
    forall s | s in w'.sessions && RankOf(w', s) <= 2
               && w'.sessions[s].profile in w'.profiles && SlotsOf(w', s) <= 0
      ensures Counter(w'.applied, s) == |AppliedIn(w'.coupons, s)|
    {
      if s == j.session {
        if w.sessions[s].status == Written(Live) {
          assert CounterFit(w', s);
        } else {
          RejectedEarly(c, w, j);
        }
      }
    }
  }

  lemma ApplyKeepsInv(c: Config, w: World, j: Job)
    requires Inv(c, w) && WellQueued(w, j)
    ensures Inv(c, Handle(c, w, j).0)
  {
    SimulatesSelf(c, w);
    assert CouponFit(w, j.coupon);
    OneJobRefines(c, w, w, j);
    ApplyKeepsConsistent(c, w, j);
    if Eligible(c, w, j) {
      GrantKeeps(c, w, j);
    }
    SimulatesKeeps(c, Serve(c, w, j), Handle(c, w, j).0);
  }

  // ----- What holds whatever the counters are ---------------------------------------------------------

  /** The rows keep their links, what is struck out stays so, and coupons get applied only
      where a session is LIVE. */
  ghost predicate Mild(w: World, w': World) {
    && RanksKept(w, w') && w'.coupons.Keys == w.coupons.Keys
    && forall id :: id in w.coupons ==> MildRow(w, w.coupons[id], w'.coupons[id])
  }

  predicate MildRow(w: World, k: Coupon, k': Coupon) {
    && k'.session == k.session && (!k.isValid ==> !k'.isValid)
    && (k'.appliedAt.Some? && k.appliedAt.None? ==>
          k.session.Some? && k.session.value in w.sessions && RankOf(w, k.session.value) >= 2)
  }

  /** An apply job is mild in any state of the tables. */
  lemma ApplyIsMild(c: Config, w: World, j: Job)
    requires WellQueued(w, j)
    ensures Mild(w, Handle(c, w, j).0)
  {
    if !Valid(w, j) {
      RejectedEarly(c, w, j);
    } else if !UnderCap(c, w, j) {
      RejectedAtCap(c, w, j);
    } else if !Eligible(c, w, j) {
      RejectedFull(c, w, j);
    } else if w.coupons[j.coupon].appliedAt.Some? {
      RejectedApplied(c, w, j);
    } else {
      AcceptedIsMild(c, w, j);
    }
  }

  lemma AcceptedIsMild(c: Config, w: World, j: Job)
    requires WellQueued(w, j) && Eligible(c, w, j) && w.coupons[j.coupon].appliedAt.None?
    ensures Mild(w, Handle(c, w, j).0)
  {
    AcceptedAt(c, w, j);
    var w' := Handle(c, w, j).0;
    forall id | id in w.coupons ensures MildRow(w, w.coupons[id], w'.coupons[id]) {
    }
    forall s | s in w.sessions ensures s in w'.sessions && RankOf(w, s) <= RankOf(w', s) {
    }
  }

  lemma MildKeepsOpen(w: World, w': World)
    requires AppliedWhereOpen(w) && Mild(w, w')
    ensures AppliedWhereOpen(w')
  {
    forall id | id in w'.coupons && w'.coupons[id].appliedAt.Some?
      ensures w'.coupons[id].session.Some? && w'.coupons[id].session.value in w'.sessions
              && RankOf(w', w'.coupons[id].session.value) >= 2
    {
      assert MildRow(w, w.coupons[id], w'.coupons[id]);
    }
  }

  // ----- Runs --------------------------------------------------------------------------------------

  ghost predicate IsRun(c: Config, shs: seq<Orphans.Shop>, es: seq<Event>) {
    |shs| == |es| + 1 && forall i :: 0 <= i < |es| ==> Step(c, shs[i], es[i], shs[i + 1])
  }

  lemma RanksKeptTransitive(a: World, b: World, d: World)
    requires RanksKept(a, b) && RanksKept(b, d)
    ensures RanksKept(a, d)
  {
  }

  lemma StepKeepsOpen(c: Config, sh: Orphans.Shop, e: Event, sh': Orphans.Shop)
    requires AppliedWhereOpen(sh.w) && Step(c, sh, e, sh')
    ensures AppliedWhereOpen(sh'.w) && RanksKept(sh.w, sh'.w)
  {
    if e.ApplyJob? {
      ApplyIsMild(c, sh.w, e.job);
      MildKeepsOpen(sh.w, sh'.w);
    } else {
      StepIsQuiet(c, sh, e, sh');
      QuietKeepsApplied(sh.w, sh'.w);
    }
  }

  /** No session ever goes back, and coupons are applied only in sessions that have been
      LIVE: this needs nothing of the counters, the caps or the rewards. */
  lemma {:induction false} RunKeepsOpen(c: Config, shs: seq<Orphans.Shop>, es: seq<Event>, n: nat)
    requires IsRun(c, shs, es) && AppliedWhereOpen(shs[0].w) && n <= |es|
    ensures AppliedWhereOpen(shs[n].w)
    ensures forall i :: 0 <= i <= n ==> RanksKept(shs[i].w, shs[n].w)
    decreases n
  {
    if n > 0 {
      RunKeepsOpen(c, shs, es, n - 1);
      StepKeepsOpen(c, shs[n - 1], es[n - 1], shs[n]);
      forall i | 0 <= i < n ensures RanksKept(shs[i].w, shs[n].w) {
        RanksKeptTransitive(shs[i].w, shs[n - 1].w, shs[n].w);
      }
    }
  }

  lemma StepKeepsInv(c: Config, sh: Orphans.Shop, e: Event, sh': Orphans.Shop)
    requires Inv(c, sh.w) && Step(c, sh, e, sh')
    ensures Inv(c, sh'.w)
  {
    if e.ApplyJob? {
      ApplyKeepsInv(c, sh.w, e.job);
    } else {
      StepIsQuiet(c, sh, e, sh');
      QuietKeepsInv(c, sh.w, sh'.w);
    }
  }

  /** In every run of any jobs, from any state in which the invariant holds: it holds
      in every state, and no session ever goes back. */
  lemma {:induction false} RunKeepsInv(c: Config, shs: seq<Orphans.Shop>, es: seq<Event>, n: nat)
    requires IsRun(c, shs, es) && Inv(c, shs[0].w) && n <= |es|
    ensures Inv(c, shs[n].w)
    ensures forall i :: 0 <= i <= n ==> RanksKept(shs[i].w, shs[n].w)
    decreases n
  {
    RunKeepsOpen(c, shs, es, n);
    if n > 0 {
      RunKeepsInv(c, shs, es, n - 1);
      StepKeepsInv(c, shs[n - 1], es[n - 1], shs[n]);
    }
  }

  /** No session goes back, in the words of the status column. */
  lemma NoSessionGoesBack(c: Config, shs: seq<Orphans.Shop>, es: seq<Event>, i: nat, n: nat, s: int)
    requires IsRun(c, shs, es) && AppliedWhereOpen(shs[0].w) && i <= n <= |es| && s in shs[i].w.sessions
    ensures s in shs[n].w.sessions
    ensures var was, now := shs[i].w.sessions[s].status.kind, shs[n].w.sessions[s].status.kind;
      && (was == Opening ==> now != Upcoming)
      && (was == Live ==> now in {Live, Completed, TimeReached, Cancelled})
      && (was in {Completed, TimeReached, Cancelled} ==> now in {Completed, TimeReached, Cancelled})
  {
    RunKeepsOpen(c, shs, es, n);
    assert RanksKept(shs[i].w, shs[n].w);
  }

  /** The same in the words of the tables: in every reachable state a session that is
      UPCOMING or OPENING has no applied coupon, the participants of a session are its
      applied coupons, no user has more applied, winning coupons in it than the cap, exactly
      the applied, winning coupons have rewards, and a LIVE session whose profile limits the
      slots has one left. */
  lemma ReachableStates(c: Config, shs: seq<Orphans.Shop>, es: seq<Event>, n: nat, s: int, u: int)
    requires IsRun(c, shs, es) && Inv(c, shs[0].w) && n <= |es| && s in shs[n].w.sessions
    ensures var w := shs[n].w;
      var row := w.sessions[s];
      var applied := set id | id in w.coupons && w.coupons[id].session == Some(s) && w.coupons[id].appliedAt.Some?;
      && (row.status.kind == Upcoming || row.status.kind == Opening ==> applied == {})
      && row.participants == |applied|
      && (c.cap.Some? && c.cap.value > 0 ==>
            |set id | id in applied && w.coupons[id].user == u && w.coupons[id].status == Winner| <= c.cap.value)
      && (forall id :: id in w.coupons && w.coupons[id].appliedAt.Some? && w.coupons[id].status == Winner <==>
            exists i :: 0 <= i < |w.rewards| && w.rewards[i].coupon == id)
      && (row.status.kind == Live && row.profile in w.profiles && w.profiles[row.profile].maxSlots > 0 ==>
            |applied| < w.profiles[row.profile].maxSlots)
  {
    var w := shs[n].w;
    RunKeepsInv(c, shs, es, n);
    if RankOf(w, s) < 2 {
      NothingApplied(w, s);
    }
    var applied := set id | id in w.coupons && w.coupons[id].session == Some(s) && w.coupons[id].appliedAt.Some?;
    assert applied == AppliedIn(w.coupons, s);
    assert (set id | id in applied && w.coupons[id].user == u && w.coupons[id].status == Winner)
        == WinsOf(w.coupons, u, s);
    forall id | HasReward(w.rewards, id) ensures HasWon(w.coupons, id) {
      var i :| 0 <= i < |w.rewards| && w.rewards[i].coupon == id;
      assert RewardFor(w.coupons, w.rewards[i]);
    }
    forall id | id in w.coupons && w.coupons[id].appliedAt.Some? && w.coupons[id].status == Winner
      ensures exists i :: 0 <= i < |w.rewards| && w.rewards[i].coupon == id
    {
      assert HasWon(w.coupons, id) && HasReward(w.rewards, id);
    }
    forall i | 0 <= i < |w.rewards| ensures HasWon(w.coupons, w.rewards[i].coupon) {
      assert RewardFor(w.coupons, w.rewards[i]);
    }
  }

  // ----- Queued jobs ---------------------------------------------------------------------------------

  /** A job keeps naming the session of its coupon, whatever happens before its turn. */
  lemma QueuedStays(c: Config, sh: Orphans.Shop, e: Event, sh': Orphans.Shop, j: Job)
    requires AppliedWhereOpen(sh.w) && Step(c, sh, e, sh') && WellQueued(sh.w, j) && j.coupon in sh.w.coupons
    ensures WellQueued(sh'.w, j) && j.coupon in sh'.w.coupons
  {
    if e.ApplyJob? {
      ApplyIsMild(c, sh.w, e.job);
      assert MildRow(sh.w, sh.w.coupons[j.coupon], sh'.w.coupons[j.coupon]);
    } else {
      StepIsQuiet(c, sh, e, sh');
      assert QuietRow(sh.w.coupons[j.coupon], sh'.w.coupons[j.coupon]);
    }
  }

  lemma {:induction false} QueuedStaysInRun(
    c: Config, shs: seq<Orphans.Shop>, es: seq<Event>, i: nat, n: nat, j: Job)
    requires IsRun(c, shs, es) && AppliedWhereOpen(shs[0].w) && i <= n <= |es|
    requires WellQueued(shs[i].w, j) && j.coupon in shs[i].w.coupons
    ensures WellQueued(shs[n].w, j)
    ensures j.coupon in shs[n].w.coupons
    decreases n - i
  {
    if i < n {
      RunKeepsOpen(c, shs, es, i);
      QueuedStays(c, shs[i], es[i], shs[i + 1], j);
      QueuedStaysInRun(c, shs, es, i + 1, n, j);
    }
  }

  /** In every run of the whole system, a job queued by a request still names the session
      of its coupon in every later state, which is all the handler asks of it. */
  lemma QueuedJobsStayFit(
    c: Config, shs: seq<Orphans.Shop>, es: seq<Event>, i: nat, n: nat, user: int, coupon: int, at: int, seen: seq<Job>)
    requires IsRun(c, shs, es) && AppliedWhereOpen(shs[0].w) && i <= n <= |es|
    requires Requests.Answer(c, shs[i].w, user, coupon, at, seen).1.Queued?
    ensures WellQueued(shs[n].w, Requests.Answer(c, shs[i].w, user, coupon, at, seen).1.job)
  {
    QueuedStaysInRun(c, shs, es, i, n, Requests.Answer(c, shs[i].w, user, coupon, at, seen).1.job);
  }

  // ----- Refunds ---------------------------------------------------------------------------------------

  lemma QuietKeepsRefunds(w: World, w': World, refunds: seq<int>)
    requires Orphans.RefundsSound(Orphans.Shop(w, refunds)) && QuietCoupons(w.coupons, w'.coupons)
    ensures Orphans.RefundsSound(Orphans.Shop(w', refunds))
  {
    forall i | 0 <= i < |refunds|
      ensures refunds[i] in w'.coupons && !w'.coupons[refunds[i]].isValid && w'.coupons[refunds[i]].session.None?
    {
      var id := Orphans.Shop(w, refunds).refunds[i];
      assert id in w.coupons;
      assert QuietRow(w.coupons[id], w'.coupons[id]);
    }
  }

  lemma MildKeepsRefunds(w: World, w': World, refunds: seq<int>)
    requires Mild(w, w') && Orphans.RefundsSound(Orphans.Shop(w, refunds))
    ensures Orphans.RefundsSound(Orphans.Shop(w', refunds))
  {
    forall i | 0 <= i < |refunds|
      ensures refunds[i] in w'.coupons && !w'.coupons[refunds[i]].isValid && w'.coupons[refunds[i]].session.None?
    {
      var id := Orphans.Shop(w, refunds).refunds[i];
      assert id in w.coupons && MildRow(w, w.coupons[id], w'.coupons[id]);
    }
  }

  /** Marking a refunded coupon succeeds. */
  ghost predicate Marks(e: Event) { e.OrphanRun? ==> forall id :: !e.faults(id).mark }

  lemma StepKeepsRefunds(c: Config, sh: Orphans.Shop, e: Event, sh': Orphans.Shop)
    requires AppliedWhereOpen(sh.w) && Step(c, sh, e, sh') && Marks(e) && Orphans.RefundsSound(sh)
    ensures Orphans.RefundsSound(sh') && sh.refunds <= sh'.refunds
  {
    if e.OrphanRun? {
      var list := Orphans.OrphansIn(sh.w.coupons, e.ctx.byCreation);
      Orphans.OrphansAreOrphans(sh.w.coupons, e.ctx.byCreation);
      Orphans.FirstKeepRefunds(sh, e.ctx, list, |list|, e.faults);
      Orphans.RefundsGrow(sh, e.ctx, list, |list|, e.faults);
    } else if e.ApplyJob? {
      ApplyIsMild(c, sh.w, e.job);
      MildKeepsRefunds(sh.w, sh'.w, sh.refunds);
    } else {
      StepIsQuiet(c, sh, e, sh');
      QuietKeepsRefunds(sh.w, sh'.w, sh.refunds);
    }
  }

  lemma RefundedIsOut(sh: Orphans.Shop)
    requires AppliedWhereOpen(sh.w) && Orphans.RefundsSound(sh)
    ensures forall id :: id in sh.refunds ==>
      id in sh.w.coupons && sh.w.coupons[id].session.None? && sh.w.coupons[id].appliedAt.None?
  {
    forall id | id in sh.refunds
      ensures id in sh.w.coupons && sh.w.coupons[id].session.None? && sh.w.coupons[id].appliedAt.None?
    {
      var i :| 0 <= i < |sh.refunds| && sh.refunds[i] == id;
    }
  }

  /** In every run of the whole system in which the marks of refunds succeed: no coupon is
      refunded twice, and one that was refunded at some point is never linked to a session,
      nor applied, from then on. */
  lemma {:induction false} RefundedOnceInRun(c: Config, shs: seq<Orphans.Shop>, es: seq<Event>, n: nat)
    requires IsRun(c, shs, es) && AppliedWhereOpen(shs[0].w) && Orphans.RefundsSound(shs[0]) && n <= |es|
    requires forall i :: 0 <= i < |es| ==> Marks(es[i])
    ensures Orphans.RefundsSound(shs[n])
    ensures forall i :: 0 <= i <= n ==> shs[i].refunds <= shs[n].refunds
    ensures forall id :: id in shs[n].refunds ==>
      id in shs[n].w.coupons && shs[n].w.coupons[id].session.None? && shs[n].w.coupons[id].appliedAt.None?
    decreases n
  {
    RunKeepsOpen(c, shs, es, n);
    if n > 0 {
      RefundedOnceInRun(c, shs, es, n - 1);
      RunKeepsOpen(c, shs, es, n - 1);
      StepKeepsRefunds(c, shs[n - 1], es[n - 1], shs[n]);
      forall i | 0 <= i <= n ensures shs[i].refunds <= shs[n].refunds {
        if i < n {
          assert shs[i].refunds <= shs[n - 1].refunds;
        }
      }
    }
    RefundedIsOut(shs[n]);
  }

  // ----- A state to start from -----------------------------------------------------------------------

  function EmptyShop(profiles: map<int, Profile>): Orphans.Shop {
    Orphans.Shop(World(profiles, map[], map[], [], map[], map[]), [])
  }

  /** All of this holds of every run of a new shop, whatever its profiles. */
  lemma RunsOfNewShop(c: Config, profiles: map<int, Profile>, shs: seq<Orphans.Shop>, es: seq<Event>, n: nat)
    requires IsRun(c, shs, es) && shs[0] == EmptyShop(profiles) && n <= |es|
    ensures Inv(c, shs[n].w)
    ensures (forall i :: 0 <= i < |es| ==> Marks(es[i])) ==> Orphans.RefundsSound(shs[n])
  {
    forall u, s ensures WinsOf(shs[0].w.coupons, u, s) == {} {
    }
    RunKeepsInv(c, shs, es, n);
    if forall i :: 0 <= i < |es| ==> Marks(es[i]) {
      RefundedOnceInRun(c, shs, es, n);
    }
  }
}
