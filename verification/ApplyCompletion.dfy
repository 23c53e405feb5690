/** Completion of a session under crashes: the last slot's job completes its session,
    and if it dies after applying the coupon nothing else ever does. */
module ApplyCompletion {
  import opened Schema
  import opened ApplyCoupon
  import opened ApplyQueue
  import opened ApplyCrashes

  /** The coupon is applied; reward, invalidation and the session's own row may be to come. */
  predicate IsLate(l: Local) { l.CreateReward? || l.CountWinsAgain? || l.InvalidateAfterWin? || l.UpdateSession? }

  predicate Finishes(s: Worker, session: int) {
    s.job.Some? && s.job.value.j.session == session && IsLate(s.job.value.l)
  }

  /** The session is full and still LIVE. */
  ghost predicate IsFullLive(w: World, session: int) {
    && IsLimited(w, session) && w.sessions[session].status == Written(Live)
    && |AppliedIn(w.coupons, session)| >= SlotsOf(w, session)
  }

  /** And no job is under way to complete it. */
  ghost predicate IsStuck(s: Worker, session: int) { IsFullLive(s.w, session) && !Finishes(s, session) }

  /** A late job still has the limit and the position under which it applied its coupon. */
  ghost predicate LateOk(w: World, j: Job, l: Local) {
    IsLate(l) && IsLimited(w, j.session) ==>
      l.slots == SlotsOf(w, j.session) && l.position == |AppliedIn(w.coupons, j.session)| <= l.slots
  }

  ghost predicate LateInv(s: Worker) {
    InStanding(s) && (s.job.Some? ==> LateOk(s.w, s.job.value.j, s.job.value.l))
  }

  // ----- One statement ----------------------------------------------------------------------

  /** The rows of one session, as far as completion is concerned. */
  ghost predicate SameSession(w: World, w': World, session: int) {
    && (session in w.sessions ==> session in w'.sessions && w'.sessions[session] == w.sessions[session])
    && AppliedIn(w'.coupons, session) == AppliedIn(w.coupons, session)
  }

  lemma OtherRows(c: Config, w: World, j: Job, l: Local, up: bool, session: int)
    requires !IsFinal(l) && !(j.session == session && l.UpdateSession?)
    ensures var w' := Step(c, w, j, l, up).0;
      session in w.sessions ==> session in w'.sessions && w'.sessions[session] == w.sessions[session]
  {
  }

  lemma MarkElsewhere(c: Config, w: World, j: Job, l: Local, up: bool, session: int)
    requires l.MarkCoupon? && WellQueued(w, j) && j.session != session
    ensures AppliedIn(Step(c, w, j, l, up).0.coupons, session) == AppliedIn(w.coupons, session)
  {
    if j.coupon in w.coupons && w.coupons[j.coupon].appliedAt.None? {
      MarkApplied(w.coupons, j.coupon, l.slots, l.position, j.at, session);
    }
  }

  lemma OtherCoupons(c: Config, w: World, j: Job, l: Local, up: bool, session: int)
    requires !IsFinal(l) && WellQueued(w, j) && !(j.session == session && l.MarkCoupon?)
    ensures AppliedIn(Step(c, w, j, l, up).0.coupons, session) == AppliedIn(w.coupons, session)
  {
    if l.InvalidateAtCap? {
      SameCounts(InvalidateRemaining(w.coupons, j.user, l.winSession), w.coupons);
    } else if l.InvalidateAfterWin? {
      SameCounts(InvalidateRemaining(w.coupons, j.user, j.session), w.coupons);
    } else if l.MarkCoupon? {
      MarkElsewhere(c, w, j, l, up, session);
    } else {
      CouponsStay(c, w, j, l, up);
    }
  }

  /** Only two statements matter to a session: the conditional update of a job of it,
      and that job's last one. */
  lemma OtherStatements(c: Config, w: World, j: Job, l: Local, up: bool, session: int)
    requires !IsFinal(l) && WellQueued(w, j) && !(j.session == session && (l.MarkCoupon? || l.UpdateSession?))
    ensures SameSession(w, Step(c, w, j, l, up).0, session)
  {
    OtherRows(c, w, j, l, up, session);
    OtherCoupons(c, w, j, l, up, session);
  }

  lemma LateStatement(c: Config, w: World, j: Job, l: Local, up: bool)
    requires IsLate(l)
    ensures var r := Step(c, w, j, l, up).1;
      && (IsLate(r) || r.Accepted?) && r.position == l.position && (IsLate(r) ==> r.slots == l.slots)
      && (r.Accepted? <==> l.UpdateSession?)
  {
  }

  lemma EarlyStatement(c: Config, w: World, j: Job, l: Local, up: bool)
    requires !IsFinal(l) && !IsLate(l)
    ensures var r := Step(c, w, j, l, up).1;
      && !r.Accepted?
      && (IsLate(r) ==> l.MarkCoupon? && j.coupon in w.coupons && w.coupons[j.coupon].appliedAt.None?
                        && r.slots == l.slots && r.position == l.position)
  {
  }

  lemma StepKeepsLate(c: Config, w: World, j: Job, l: Local, up: bool)
    requires JobOk(w, j, l) && LateOk(w, j, l) && !IsFinal(l)
    ensures LateOk(Step(c, w, j, l, up).0, j, Step(c, w, j, l, up).1)
  {
    var r := Step(c, w, j, l, up);
    StepFrame(c, w, j, l, up);
    if IsLate(l) {
      LateStatement(c, w, j, l, up);
      if !l.UpdateSession? {
        OtherStatements(c, w, j, l, up, j.session);
      }
    } else {
      EarlyStatement(c, w, j, l, up);
      if IsLate(r.1) {
        MarkApplied(w.coupons, j.coupon, l.slots, l.position, j.at, j.session);
      }
    }
  }

  lemma NextKeepsLate(c: Config, s: Worker, e: Event)
    requires LateInv(s) && Enabled(s, e)
    ensures LateInv(Next(c, s, e))
  {
    NextKeepsStanding(c, s, e);
    if e.Tick? {
      StepKeepsLate(c, s.w, s.job.value.j, s.job.value.l, e.up);
    }
  }

  // ----- How a session gets stuck --------------------------------------------------------------

  lemma TickKeepsUnstuck(c: Config, s: Worker, up: bool, session: int)
    requires LateInv(s) && Enabled(s, Tick(up)) && !IsStuck(s, session)
    ensures !IsStuck(Next(c, s, Tick(up)), session)
  {
    var j, l := s.job.value.j, s.job.value.l;
    var r := Step(c, s.w, j, l, up);
    StepFrame(c, s.w, j, l, up);
    if j.session == session && l.MarkCoupon? {
      EarlyStatement(c, s.w, j, l, up);
      MarkOrNot(c, s.w, j, l, up);
    } else if j.session == session && l.UpdateSession? {
      LateStatement(c, s.w, j, l, up);
    } else {
      OtherStatements(c, s.w, j, l, up, session);
      if IsLate(l) {
        LateStatement(c, s.w, j, l, up);
      }
    }
  }

  lemma MarkOrNot(c: Config, w: World, j: Job, l: Local, up: bool)
    requires l.MarkCoupon?
    ensures var r := Step(c, w, j, l, up); IsLate(r.1) || r.0 == w
  {
  }

  /** A session gets stuck exactly when the job that took its last slot dies between
      applying the coupon and updating the session. */
  lemma StuckStarts(c: Config, s: Worker, e: Event, session: int)
    requires LateInv(s) && Enabled(s, e) && !IsStuck(s, session)
    ensures IsStuck(Next(c, s, e), session) <==>
      e.Crash? && Finishes(s, session) && IsLimited(s.w, session)
      && s.w.sessions[session].status == Written(Live) && FillsSession(s.job.value.l.slots, s.job.value.l.position)
  {
    if e.Tick? {
      TickKeepsUnstuck(c, s, e.up, session);
    }
  }

  // ----- And stays so -----------------------------------------------------------------------------

  /** No job of a full session gets a slot. */
  lemma StuckStays(c: Config, s: Worker, e: Event, session: int)
    requires LateInv(s) && Enabled(s, e) && IsStuck(s, session)
    ensures IsStuck(Next(c, s, e), session) && SameSession(s.w, Next(c, s, e).w, session)
  {
    if e.Tick? {
      var j, l := s.job.value.j, s.job.value.l;
      StepFrame(c, s.w, j, l, e.up);
      OtherStatements(c, s.w, j, l, e.up, session);
      if j.session == session {
        EarlyStatement(c, s.w, j, l, e.up);
      }
    }
  }

  lemma {:induction false} StuckForGood(c: Config, s: Worker, es: seq<Event>, session: int)
    requires LateInv(s) && IsRun(c, s, es) && IsStuck(s, session)
    ensures IsStuck(Run(c, s, es), session) && SameSession(s.w, Run(c, s, es).w, session)
    decreases |es|
  {
    if es != [] {
      NextKeepsLate(c, s, es[0]);
      StuckStays(c, s, es[0], session);
      StuckForGood(c, Next(c, s, es[0]), es[1..], session);
    }
  }

  // ----- Both outcomes of a last slot ---------------------------------------------------------------

  /** A job that takes the last slot and is not interrupted completes its session. */
  lemma LastSlotCompletes(c: Config, w: World, j: Job)
    requires Eligible(c, w, j) && WellQueued(w, j) && w.coupons[j.coupon].appliedAt.None? && IsLimited(w, j.session)
    ensures var r := Handle(c, w, j).0;
      && j.session in r.sessions
      && (r.sessions[j.session].status == Written(Completed)
          <==> |AppliedIn(w.coupons, j.session)| + 1 == SlotsOf(w, j.session))
      && (r.sessions[j.session].status == Written(Completed) ==>
            r.sessions[j.session].endTime == Some(j.at) && !r.sessions[j.session].isActive)
  {
    AcceptedAt(c, w, j);
  }

  ghost predicate Reaches(c: Config, s: Worker, t: Worker) { exists es :: IsRun(c, s, es) && Run(c, s, es) == t }

  lemma {:induction false} RunAppend(c: Config, s: Worker, es: seq<Event>, fs: seq<Event>)
    requires IsRun(c, s, es) && IsRun(c, Run(c, s, es), fs)
    ensures IsRun(c, s, es + fs) && Run(c, s, es + fs) == Run(c, Run(c, s, es), fs)
    decreases |es|
  {
    if es == [] {
      assert es + fs == fs;
    } else {
      assert (es + fs)[0] == es[0] && (es + fs)[1..] == es[1..] + fs;
      RunAppend(c, Next(c, s, es[0]), es[1..], fs);
    }
  }

  lemma ReachesNext(c: Config, s: Worker, t: Worker, e: Event)
    requires Reaches(c, s, t) && Enabled(t, e)
    ensures Reaches(c, s, Next(c, t, e))
  {
    var es :| IsRun(c, s, es) && Run(c, s, es) == t;
    assert [e][1..] == [];
    assert IsRun(c, Next(c, t, e), []);
    assert IsRun(c, t, [e]) && Run(c, t, [e]) == Next(c, t, e);
    RunAppend(c, s, es, [e]);
  }

  lemma Ticks(c: Config, s: Worker, w: World, j: Job, l: Local)
    requires Reaches(c, s, Worker(w, Some(Running(j, l)))) && !IsFinal(l)
    requires !IsFinal(Step(c, w, j, l, true).1)
    ensures var r := Step(c, w, j, l, true); Reaches(c, s, Worker(r.0, Some(Running(j, r.1))))
  {
    ReachesNext(c, s, Worker(w, Some(Running(j, l))), Tick(true));
  }

  /** A job that passes its checks gets to where its resync starts. */
  lemma ReachesResync(c: Config, s: Worker, j: Job)
    requires s.job.None? && Valid(s.w, j) && WellQueued(s.w, j) && UnderCap(c, s.w, j) && IsLimited(s.w, j.session)
    ensures var row, slots := s.w.sessions[j.session], SlotsOf(s.w, j.session);
      Reaches(c, s, Worker(s.w, Some(Running(j, CountApplied(row, slots)))))
  {
    var w, row := s.w, s.w.sessions[j.session];
    assert IsRun(c, s, []) && Run(c, s, []) == s;
    ReachesNext(c, s, s, Start(j));
    Ticks(c, s, w, j, LoadSession);
    Ticks(c, s, w, j, LoadCoupon(row));
    if HasCap(c) {
      Ticks(c, s, w, j, CountWins(row, j.session));
    }
    Ticks(c, s, w, j, LoadProfile(row));
  }

  /** And then as far as its slot, with a true counter. */
  lemma ReachesSlotStep(c: Config, s: Worker, w: World, j: Job, row: Session, slots: int)
    requires Reaches(c, s, Worker(w, Some(Running(j, CountApplied(row, slots)))))
    requires slots > 0
    ensures var w' := w.(applied := Synced(w, j.session, slots));
      Reaches(c, s, Worker(w', Some(Running(j, TakeSlot(row, slots)))))
  {
    var n := |AppliedIn(w.coupons, j.session)|;
    Ticks(c, s, w, j, CountApplied(row, slots));
    Ticks(c, s, w, j, ReadCounter(row, slots, n));
    if Counter(w.applied, j.session) != n {
      Ticks(c, s, w, j, WriteCounter(row, slots, n));
    } else {
      assert w.(applied := w.applied) == w;
    }
  }

  /** And wherever a job takes the last slot, one crash leaves its session stuck. */
  lemma CrashStrandsSession(c: Config, s: Worker, j: Job) returns (t: Worker)
    requires s.job.None? && Eligible(c, s.w, j) && WellQueued(s.w, j) && s.w.coupons[j.coupon].appliedAt.None?
    requires IsLimited(s.w, j.session) && |AppliedIn(s.w.coupons, j.session)| + 1 == SlotsOf(s.w, j.session)
    ensures Reaches(c, s, t) && t.job.None? && IsStuck(t, j.session)
  {
    var row, slots := s.w.sessions[j.session], SlotsOf(s.w, j.session);
    ReachesResync(c, s, j);
    ReachesSlotStep(c, s, s.w, j, row, slots);
    var w1 := s.w.(applied := Synced(s.w, j.session, slots));
    Ticks(c, s, w1, j, TakeSlot(row, slots));
    var w2 := w1.(applied := w1.applied[j.session := slots]);
    Ticks(c, s, w2, j, MarkCoupon(row, slots, slots));
    var w3 := w2.(coupons := w2.coupons[j.coupon := MarkedCoupon(w2.coupons[j.coupon], slots, slots, j.at)]);
    MarkApplied(w2.coupons, j.coupon, slots, slots, j.at, j.session);
    ReachesNext(c, s, Worker(w3, Some(Running(j, CreateReward(row, slots, slots)))), Crash);
    t := Worker(w3, None);
  }
}
