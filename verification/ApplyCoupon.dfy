/** One `apply-coupon` job, statement by statement.

    `Step` executes the statement at one await point: a database statement or a
    Redis command, each atomic.  `Handle` runs a job to its end without
    interruption, and `HandleApplyCoupon` is the same program over the store. */
module ApplyCoupon {
  import opened Schema

  /** `cap` is MAX_SESSION_COUPON_APPLY where it parses to a number, `invalidate`
      is COUPON_INVALIDATE. */
  datatype Config = Config(cap: Option<int>, invalidate: bool)

  predicate HasCap(c: Config) { c.cap.Some? && c.cap.value > 0 }

  /** `at` is the clock reading at which the job writes its timestamps. */
  datatype Job = Job(user: int, coupon: int, session: int, at: int)

  datatype Reason =
    | SessionNotFound | SessionClosed | CouponNotFound | NotOwner | InvalidCoupon | AlreadyUsed
    | MaxWinsReached | ProfileNotFound | SlotsFull | AlreadyApplied | CouponVanished

  /** Where a job stands, with the values it has read so far. */
  datatype Local =
    | LoadSession
    | LoadCoupon(session: Session)
    | CountWins(session: Session, winSession: int)
    | InvalidateAtCap(winSession: int)
    | LoadProfile(session: Session)
    | CountApplied(session: Session, slots: int)
    | ReadCounter(session: Session, slots: int, count: int)
    | WriteCounter(session: Session, slots: int, count: int)
    | TakeSlot(session: Session, slots: int)
    | MarkCoupon(session: Session, slots: int, position: int)
    | GiveBack
    | Reread
    | CreateReward(session: Session, slots: int, position: int)
    | CountWinsAgain(session: Session, slots: int, position: int)
    | InvalidateAfterWin(session: Session, slots: int, position: int)
    | UpdateSession(session: Session, slots: int, position: int)
    | Accepted(position: int, winner: bool)
    | Rejected(reason: Reason)

  predicate IsFinal(l: Local) { l.Accepted? || l.Rejected? }

  // ----- Queries ----------------------------------------------------------------

  function AppliedIn(coupons: map<int, Coupon>, session: int): set<int> {
    set id | id in coupons && coupons[id].session == Some(session) && coupons[id].appliedAt.Some?
  }

  function WinsOf(coupons: map<int, Coupon>, user: int, session: int): set<int> {
    set id | id in coupons && coupons[id].session == Some(session) && coupons[id].appliedAt.Some?
             && coupons[id].user == user && coupons[id].status == Winner
  }

  function InvalidateRemaining(coupons: map<int, Coupon>, user: int, session: int): map<int, Coupon> {
    map id | id in coupons ::
      if coupons[id].user == user && coupons[id].session == Some(session)
         && !coupons[id].isRedeemed && coupons[id].isValid
      then coupons[id].(isValid := false)
      else coupons[id]
  }

  /** From `a` to `b` no coupon row changes but that, if `struck`, the coupons of this user
      in this session that are not redeemed are no longer valid. */
  ghost predicate OnlyRemaining(
    struck: bool, a: map<int, Coupon>, b: map<int, Coupon>, user: int, session: int)
  {
    b.Keys == a.Keys && forall id :: id in a ==>
      b[id] == if struck && a[id].user == user && a[id].session == Some(session) && !a[id].isRedeemed
               then a[id].(isValid := false) else a[id]
  }

  predicate IsWinner(slots: int, position: int) { slots == 0 || position <= slots }

  predicate FillsSession(slots: int, position: int) { slots > 0 && position == slots }

  // ----- One statement ------------------------------------------------------------

  function MarkedCoupon(k: Coupon, slots: int, position: int, at: int): Coupon {
    k.(appliedAt := Some(at), position := Some(position), isRedeemed := true,
       status := if IsWinner(slots, position) then Winner else AppliedLate)
  }

  function UpdatedSession(row: Session, read: Session, slots: int, position: int, at: int): Session {
    var r := row.(participants := read.participants + 1);
    if FillsSession(slots, position)
    then r.(status := Written(Completed), endTime := Some(at), isActive := false)
    else r
  }

  /** `up` tells whether Redis answers; only the steps that talk to it look. */
  function Step(c: Config, w: World, j: Job, l: Local, up: bool): (World, Local)
    requires !IsFinal(l)
  {
    match l
    case LoadSession =>
      if j.session !in w.sessions then (w, Rejected(SessionNotFound))
      else if w.sessions[j.session].status != Written(Live) then (w, Rejected(SessionClosed))
      else (w, LoadCoupon(w.sessions[j.session]))
    case LoadCoupon(s) =>
      if j.coupon !in w.coupons then (w, Rejected(CouponNotFound))
      else
        var k := w.coupons[j.coupon];
        if k.user != j.user then (w, Rejected(NotOwner))
        else if !k.isValid then (w, Rejected(InvalidCoupon))
        else if k.isRedeemed then (w, Rejected(AlreadyUsed))
        else if k.session.Some? && k.session.value != 0 && HasCap(c) then (w, CountWins(s, k.session.value))
        else (w, LoadProfile(s))
    case CountWins(s, winSession) =>
      if HasCap(c) && |WinsOf(w.coupons, j.user, winSession)| >= c.cap.value then
        (w, if c.invalidate then InvalidateAtCap(winSession) else Rejected(MaxWinsReached))
      else (w, LoadProfile(s))
    case InvalidateAtCap(winSession) =>
      (w.(coupons := InvalidateRemaining(w.coupons, j.user, winSession)), Rejected(MaxWinsReached))
    case LoadProfile(s) =>
      if s.profile !in w.profiles then (w, Rejected(ProfileNotFound))
      else
        var slots := w.profiles[s.profile].maxSlots;
        (w, if slots > 0 then CountApplied(s, slots) else TakeSlot(s, slots))
    case CountApplied(s, slots) =>
      (w, if up then ReadCounter(s, slots, |AppliedIn(w.coupons, j.session)|) else TakeSlot(s, slots))
    case ReadCounter(s, slots, count) =>
      (w, if up && Counter(w.applied, j.session) != count then WriteCounter(s, slots, count) else TakeSlot(s, slots))
    case WriteCounter(s, slots, count) =>
      (if up then w.(applied := w.applied[j.session := count]) else w, TakeSlot(s, slots))
    case TakeSlot(s, slots) =>
      var current := Counter(w.applied, j.session);
      if !up || (slots > 0 && current >= slots) then (w, Rejected(SlotsFull))
      else (w.(applied := w.applied[j.session := current + 1]), MarkCoupon(s, slots, current + 1))
    case MarkCoupon(s, slots, position) =>
      if j.coupon in w.coupons && w.coupons[j.coupon].appliedAt.None? then
        (w.(coupons := w.coupons[j.coupon := MarkedCoupon(w.coupons[j.coupon], slots, position, j.at)]),
         if IsWinner(slots, position) then CreateReward(s, slots, position) else UpdateSession(s, slots, position))
      else (w, GiveBack)
    case GiveBack =>
      (if up then w.(applied := w.applied[j.session := Counter(w.applied, j.session) - 1]) else w, Reread)
    case Reread =>
      (w, Rejected(if j.coupon !in w.coupons then CouponNotFound
                   else if w.coupons[j.coupon].appliedAt.Some? then AlreadyApplied else CouponVanished))
    case CreateReward(s, slots, position) =>
      (w.(rewards := w.rewards + [Reward(j.session, j.user, j.coupon, s.profile)]),
       if HasCap(c) && c.invalidate then CountWinsAgain(s, slots, position) else UpdateSession(s, slots, position))
    case CountWinsAgain(s, slots, position) =>
      (w, if HasCap(c) && |WinsOf(w.coupons, j.user, j.session)| >= c.cap.value
          then InvalidateAfterWin(s, slots, position) else UpdateSession(s, slots, position))
    case InvalidateAfterWin(s, slots, position) =>
      (w.(coupons := InvalidateRemaining(w.coupons, j.user, j.session)), UpdateSession(s, slots, position))
    case UpdateSession(s, slots, position) =>
      (if j.session in w.sessions
       then w.(sessions := w.sessions[j.session := UpdatedSession(w.sessions[j.session], s, slots, position, j.at)])
       else w,
       Accepted(position, IsWinner(slots, position)))
    case _ => (w, l)
  }

  /** No statement of a job moves a session to another profile or a coupon to
      another session. */
  lemma StepFrame(c: Config, w: World, j: Job, l: Local, up: bool)
    requires !IsFinal(l)
    ensures var r := Step(c, w, j, l, up).0;
      && r.profiles == w.profiles
      && r.sessions.Keys == w.sessions.Keys
      && (forall s :: s in w.sessions ==> r.sessions[s].profile == w.sessions[s].profile)
      && r.coupons.Keys == w.coupons.Keys
      && (forall id :: id in w.coupons ==> r.coupons[id].session == w.coupons[id].session)
  {
  }

  /** Three statements write coupons. */
  lemma CouponsStay(c: Config, w: World, j: Job, l: Local, up: bool)
    requires !IsFinal(l) && !l.InvalidateAtCap? && !l.InvalidateAfterWin? && !l.MarkCoupon?
    ensures Step(c, w, j, l, up).0.coupons == w.coupons
  {
  }

  /** What a job does when Redis does not answer: the resync is passed over, the slot is
      refused, the compensation is lost, and the statements that talk to the database only
      do what they always do. */
  lemma WithoutRedis(c: Config, w: World, j: Job, l: Local)
    requires !IsFinal(l)
    ensures var r := Step(c, w, j, l, false);
      && r.0.applied == w.applied
      && (l.CountApplied? || l.ReadCounter? || l.WriteCounter? ==> r == (w, TakeSlot(l.session, l.slots)))
      && (l.TakeSlot? ==> r == (w, Rejected(SlotsFull)))
      && (l.GiveBack? ==> r == (w, Reread))
      && (!IsResync(l) && !l.TakeSlot? && !l.GiveBack? ==> r == Step(c, w, j, l, true))
  {
  }

  /** The statements of the resync. */
  predicate IsResync(l: Local) { l.CountApplied? || l.ReadCounter? || l.WriteCounter? }

  predicate HasSession(l: Local) {
    l.LoadCoupon? || l.CountWins? || l.LoadProfile? || IsResync(l) || l.TakeSlot? || l.MarkCoupon? ||
    l.CreateReward? || l.CountWinsAgain? || l.InvalidateAfterWin? || l.UpdateSession?
  }

  predicate HasSlots(l: Local) { IsResync(l) || l.TakeSlot? || l.MarkCoupon? }

  /** Where the session row a job works with comes from. */
  predicate CarriesSession(w: World, j: Job, l: Local, l': Local) {
    HasSession(l') ==>
      (l == LoadSession && j.session in w.sessions && l'.session == w.sessions[j.session])
      || (HasSession(l) && l'.session == l.session)
  }

  /** Where the slot limit a job works with comes from. */
  predicate CarriesSlots(w: World, l: Local, l': Local) {
    HasSlots(l') ==>
      (l.LoadProfile? && l.session.profile in w.profiles && l'.slots == w.profiles[l.session.profile].maxSlots
       && (IsResync(l') ==> l'.slots > 0))
      || (HasSlots(l) && l'.slots == l.slots && (IsResync(l') ==> IsResync(l)))
  }

  predicate Carries(w: World, j: Job, l: Local, l': Local) {
    CarriesSession(w, j, l, l') && CarriesSlots(w, l, l')
  }

  lemma StepCarriesSession(c: Config, w: World, j: Job, l: Local, up: bool)
    requires !IsFinal(l)
    ensures CarriesSession(w, j, l, Step(c, w, j, l, up).1)
  {
    match l {
      case LoadSession =>
      case LoadCoupon(_) =>
      case CountWins(_, _) =>
      case LoadProfile(_) =>
      case TakeSlot(_, _) =>
      case MarkCoupon(_, _, _) =>
      case _ =>
    }
  }

  lemma StepCarriesSlots(c: Config, w: World, j: Job, l: Local, up: bool)
    requires !IsFinal(l)
    ensures CarriesSlots(w, l, Step(c, w, j, l, up).1)
  {
    match l {
      case LoadProfile(_) =>
      case CountApplied(_, _) =>
      case ReadCounter(_, _, _) =>
      case TakeSlot(_, _) =>
      case _ =>
    }
  }

  lemma StepCarries(c: Config, w: World, j: Job, l: Local, up: bool)
    requires !IsFinal(l)
    ensures Carries(w, j, l, Step(c, w, j, l, up).1)
  {
    StepCarriesSession(c, w, j, l, up);
    StepCarriesSlots(c, w, j, l, up);
  }

  /** An upper bound on the statements a job still executes. */
  function StatementsLeft(l: Local): nat {
    match l
    case LoadSession => 14
    case LoadCoupon(_) => 13
    case CountWins(_, _) => 12
    case InvalidateAtCap(_) => 1
    case LoadProfile(_) => 11
    case CountApplied(_, _) => 10
    case ReadCounter(_, _, _) => 9
    case WriteCounter(_, _, _) => 8
    case TakeSlot(_, _) => 7
    case MarkCoupon(_, _, _) => 6
    case GiveBack => 2
    case Reread => 1
    case CreateReward(_, _, _) => 4
    case CountWinsAgain(_, _, _) => 3
    case InvalidateAfterWin(_, _, _) => 2
    case UpdateSession(_, _, _) => 1
    case _ => 0
  }

  /** Every job ends after at most fourteen statements, whatever it reads. */
  lemma StepProgress(c: Config, w: World, j: Job, l: Local, up: bool)
    requires !IsFinal(l)
    ensures StatementsLeft(Step(c, w, j, l, up).1) < StatementsLeft(l)
  {
  }

  // ----- A whole job ---------------------------------------------------------------

  function Finish(c: Config, w: World, j: Job, l: Local): (World, Local)
    decreases StatementsLeft(l)
  {
    if IsFinal(l) then (w, l)
    else
      StepProgress(c, w, j, l, true);
      var r := Step(c, w, j, l, true);
      Finish(c, r.0, j, r.1)
  }

  function Handle(c: Config, w: World, j: Job): (World, Local) {
    Finish(c, w, j, LoadSession)
  }

  lemma {:induction false} FinishIsFinal(c: Config, w: World, j: Job, l: Local)
    ensures IsFinal(Finish(c, w, j, l).1)
    decreases StatementsLeft(l)
  {
    if !IsFinal(l) {
      StepProgress(c, w, j, l, true);
      var r := Step(c, w, j, l, true);
      FinishIsFinal(c, r.0, j, r.1);
    }
  }

  /** The handler as the worker runs it: one job at a time, no failing call.
      Each part takes the job from one point of the program to a later one. */
  method HandleApplyCoupon(store: Store, c: Config, j: Job) returns (r: Local)
    modifies store
    ensures (store.W(), r) == Handle(c, old(store.W()), j)
    ensures IsFinal(r)
  {
    r := ValidateJob(store, c, j);
    if r.LoadProfile? {
      r := AssignPosition(store, c, j, r.session);
      if r.MarkCoupon? {
        r := RecordApplication(store, c, j, r.session, r.slots, r.position);
        if r.CreateReward? {
          RewardWinner(store, c, j, r.session, r.slots, r.position);
          r := UpdateSession(r.session, r.slots, r.position);
        }
        if r.UpdateSession? {
          r := CloseSession(store, c, j, r.session, r.slots, r.position);
        }
      }
    }
  }

  method ValidateJob(store: Store, c: Config, j: Job) returns (r: Local)
    modifies store`coupons
    ensures r.LoadProfile? || r.Rejected?
    ensures Finish(c, old(store.W()), j, LoadSession) == Finish(c, store.W(), j, r)
  {
    if j.session !in store.sessions {
      return Rejected(SessionNotFound);
    }
    var session := store.sessions[j.session];
    if session.status != Written(Live) {
      return Rejected(SessionClosed);
    }
    r := ValidateCoupon(store, c, j, session);
  }

  method ValidateCoupon(store: Store, c: Config, j: Job, session: Session) returns (r: Local)
    modifies store`coupons
    ensures r.LoadProfile? || r.Rejected?
    ensures Finish(c, old(store.W()), j, LoadCoupon(session)) == Finish(c, store.W(), j, r)
  {
    if j.coupon !in store.coupons {
      return Rejected(CouponNotFound);
    }
    var coupon := store.coupons[j.coupon];
    if coupon.user != j.user {
      return Rejected(NotOwner);
    }
    if !coupon.isValid {
      return Rejected(InvalidCoupon);
    }
    if coupon.isRedeemed {
      return Rejected(AlreadyUsed);
    }
    if coupon.session.Some? && coupon.session.value != 0 {
      r := ValidateUserWinCount(store, c, j, session, coupon.session.value);
    } else {
      r := LoadProfile(session);
    }
  }

  method ValidateUserWinCount(store: Store, c: Config, j: Job, session: Session, winSession: int) returns (r: Local)
    modifies store`coupons
    ensures r == LoadProfile(session) || r == Rejected(MaxWinsReached)
    ensures r.Rejected? <==>
      c.cap.Some? && 0 < c.cap.value <= |WinsOf(old(store.coupons), j.user, winSession)|
    ensures OnlyRemaining(r.Rejected? && c.invalidate, old(store.coupons), store.coupons, j.user, winSession)
    ensures Finish(c, old(store.W()), j, if HasCap(c) then CountWins(session, winSession) else LoadProfile(session))
         == Finish(c, store.W(), j, r)
  {
    if !HasCap(c) {
      return LoadProfile(session);
    }
    ghost var w := store.W();
    var wins := |WinsOf(store.coupons, j.user, winSession)|;
    if wins >= c.cap.value {
      if c.invalidate {
        assert Finish(c, w, j, CountWins(session, winSession)) == Finish(c, w, j, InvalidateAtCap(winSession));
        store.coupons := InvalidateRemaining(store.coupons, j.user, winSession);
      }
      return Rejected(MaxWinsReached);
    }
    return LoadProfile(session);
  }

  method AssignPosition(store: Store, c: Config, j: Job, session: Session) returns (r: Local)
    modifies store`applied
    ensures r.MarkCoupon? || r.Rejected?
    ensures Finish(c, old(store.W()), j, LoadProfile(session)) == Finish(c, store.W(), j, r)
  {
    if session.profile !in store.profiles {
      return Rejected(ProfileNotFound);
    }
    var slots := store.profiles[session.profile].maxSlots;
    if slots > 0 {
      SyncCounter(store, c, j, session, slots);
    }
    r := TakeSlotAtomically(store, c, j, session, slots);
  }

  /** The resync: the counter is overwritten with the database's count. */
  method SyncCounter(store: Store, c: Config, j: Job, session: Session, slots: int)
    modifies store`applied
    ensures Counter(store.applied, j.session) == |AppliedIn(store.coupons, j.session)|
    ensures Finish(c, old(store.W()), j, CountApplied(session, slots))
         == Finish(c, store.W(), j, TakeSlot(session, slots))
  {
    ghost var w := store.W();
    var count := |AppliedIn(store.coupons, j.session)|;
    assert Finish(c, w, j, CountApplied(session, slots)) == Finish(c, w, j, ReadCounter(session, slots, count));
    if Counter(store.applied, j.session) != count {
      assert Finish(c, w, j, CountApplied(session, slots)) == Finish(c, w, j, WriteCounter(session, slots, count));
      store.applied := store.applied[j.session := count];
    }
  }

  /** The Lua script: compare with the limit and increment in one command. */
  method TakeSlotAtomically(store: Store, c: Config, j: Job, session: Session, slots: int) returns (r: Local)
    modifies store`applied
    ensures r == if slots > 0 && Counter(old(store.applied), j.session) >= slots then Rejected(SlotsFull)
                 else MarkCoupon(session, slots, Counter(old(store.applied), j.session) + 1)
    ensures Finish(c, old(store.W()), j, TakeSlot(session, slots)) == Finish(c, store.W(), j, r)
  {
    var current := Counter(store.applied, j.session);
    if slots > 0 && current >= slots {
      return Rejected(SlotsFull);
    }
    store.applied := store.applied[j.session := current + 1];
    return MarkCoupon(session, slots, current + 1);
  }

  lemma MarksOrOwes(c: Config, w: World, j: Job, session: Session, slots: int, position: int)
    ensures Finish(c, w, j, MarkCoupon(session, slots, position)) ==
      if j.coupon in w.coupons && w.coupons[j.coupon].appliedAt.None?
      then Finish(
        c, w.(coupons := w.coupons[j.coupon := MarkedCoupon(w.coupons[j.coupon], slots, position, j.at)]), j,
        if IsWinner(slots, position) then CreateReward(session, slots, position)
        else UpdateSession(session, slots, position))
      else Finish(c, w.(applied := w.applied[j.session := Counter(w.applied, j.session) - 1]), j, Reread)
  {
    if !(j.coupon in w.coupons && w.coupons[j.coupon].appliedAt.None?) {
      var w' := w.(applied := w.applied[j.session := Counter(w.applied, j.session) - 1]);
      assert Finish(c, w, j, MarkCoupon(session, slots, position)) == Finish(c, w, j, GiveBack);
      assert Finish(c, w, j, GiveBack) == Finish(c, w', j, Reread);
    }
  }

  /** The conditional update, and the compensation when it changes no row. */
  method RecordApplication(store: Store, c: Config, j: Job, session: Session, slots: int, position: int)
    returns (r: Local)
    modifies store`applied, store`coupons
    ensures r.Rejected? || r == CreateReward(session, slots, position) || r == UpdateSession(session, slots, position)
    ensures Finish(c, old(store.W()), j, MarkCoupon(session, slots, position)) == Finish(c, store.W(), j, r)
  {
    MarksOrOwes(c, store.W(), j, session, slots, position);
    if j.coupon in store.coupons && store.coupons[j.coupon].appliedAt.None? {
      store.coupons := store.coupons[j.coupon := MarkedCoupon(store.coupons[j.coupon], slots, position, j.at)];
      return if IsWinner(slots, position) then CreateReward(session, slots, position)
             else UpdateSession(session, slots, position);
    }
    store.applied := store.applied[j.session := Counter(store.applied, j.session) - 1];
    if j.coupon !in store.coupons {
      return Rejected(CouponNotFound);
    }
    if store.coupons[j.coupon].appliedAt.Some? {
      return Rejected(AlreadyApplied);
    }
    return Rejected(CouponVanished);
  }

  method RewardWinner(store: Store, c: Config, j: Job, session: Session, slots: int, position: int)
    modifies store`rewards, store`coupons
    ensures store.rewards == old(store.rewards) + [Reward(j.session, j.user, j.coupon, session.profile)]
    ensures var wins := |WinsOf(old(store.coupons), j.user, j.session)|;
      OnlyRemaining(c.invalidate && c.cap.Some? && 0 < c.cap.value <= wins,
                    old(store.coupons), store.coupons, j.user, j.session)
    ensures Finish(c, old(store.W()), j, CreateReward(session, slots, position))
         == Finish(c, store.W(), j, UpdateSession(session, slots, position))
  {
    ghost var w := store.W();
    store.rewards := store.rewards + [Reward(j.session, j.user, j.coupon, session.profile)];
    if HasCap(c) && c.invalidate {
      assert Finish(c, w, j, CreateReward(session, slots, position))
          == Finish(c, store.W(), j, CountWinsAgain(session, slots, position));
      InvalidateIfAtCap(store, c, j, session, slots, position);
    }
  }

  method InvalidateIfAtCap(store: Store, c: Config, j: Job, session: Session, slots: int, position: int)
    requires HasCap(c)
    modifies store`coupons
    ensures OnlyRemaining(|WinsOf(old(store.coupons), j.user, j.session)| >= c.cap.value,
                          old(store.coupons), store.coupons, j.user, j.session)
    ensures Finish(c, old(store.W()), j, CountWinsAgain(session, slots, position))
         == Finish(c, store.W(), j, UpdateSession(session, slots, position))
  {
    ghost var w := store.W();
    if |WinsOf(store.coupons, j.user, j.session)| >= c.cap.value {
      assert Finish(c, w, j, CountWinsAgain(session, slots, position))
          == Finish(c, w, j, InvalidateAfterWin(session, slots, position));
      store.coupons := InvalidateRemaining(store.coupons, j.user, j.session);
    }
  }

  method CloseSession(store: Store, c: Config, j: Job, session: Session, slots: int, position: int)
    returns (r: Local)
    modifies store`sessions
    ensures r.Accepted? && (store.W(), r) == Finish(c, old(store.W()), j, UpdateSession(session, slots, position))
  {
    if j.session in store.sessions {
      store.sessions := store.sessions[j.session :=
        UpdatedSession(store.sessions[j.session], session, slots, position, j.at)];
    }
    r := Accepted(position, IsWinner(slots, position));
    assert Finish(c, store.W(), j, r) == (store.W(), r);
  }
}
