/** Draining a queue of `apply-coupon` jobs one after the other: the handler
    computes exactly what a specification without counters, validity flags or
    invalidation says. */
module ApplyQueue {
  import opened Schema
  import opened ApplyCoupon

  // ----- The specification ---------------------------------------------------------

  function SlotsOf(w: World, session: int): int
    requires session in w.sessions && w.sessions[session].profile in w.profiles
  {
    w.profiles[w.sessions[session].profile].maxSlots
  }

  /** The coupon may be applied: its session is open, has a free slot (a limit of
      zero or less is no limit), and its owner has not reached the win cap. */
  predicate Eligible(c: Config, w: World, j: Job) {
    && j.session in w.sessions && w.sessions[j.session].status == Written(Live)
    && w.sessions[j.session].profile in w.profiles
    && j.coupon in w.coupons
    && w.coupons[j.coupon].user == j.user && w.coupons[j.coupon].isValid && !w.coupons[j.coupon].isRedeemed
    && (SlotsOf(w, j.session) > 0 ==> |AppliedIn(w.coupons, j.session)| < SlotsOf(w, j.session))
    && (HasCap(c) ==> |WinsOf(w.coupons, j.user, j.session)| < c.cap.value)
  }

  /** The next position of the session goes to the coupon. */
  function Grant(w: World, j: Job): World
    requires j.session in w.sessions && w.sessions[j.session].profile in w.profiles && j.coupon in w.coupons
  {
    var slots := SlotsOf(w, j.session);
    var position := |AppliedIn(w.coupons, j.session)| + 1;
    var s := w.sessions[j.session];
    w.(coupons := w.coupons[j.coupon := MarkedCoupon(w.coupons[j.coupon], slots, position, j.at)],
       rewards := if IsWinner(slots, position) then w.rewards + [Reward(j.session, j.user, j.coupon, s.profile)]
                  else w.rewards,
       sessions := w.sessions[j.session := UpdatedSession(s, s, slots, position, j.at)])
  }

  function Serve(c: Config, w: World, j: Job): World {
    if Eligible(c, w, j) then Grant(w, j) else w
  }

  function ServeAll(c: Config, w: World, jobs: seq<Job>): World
    decreases |jobs|
  {
    if jobs == [] then w else ServeAll(c, Serve(c, w, jobs[0]), jobs[1..])
  }

  /** The jobs that are served, in queue order. */
  function Served(c: Config, w: World, jobs: seq<Job>): seq<Job>
    decreases |jobs|
  {
    if jobs == [] then []
    else (if Eligible(c, w, jobs[0]) then [jobs[0]] else []) + Served(c, Serve(c, w, jobs[0]), jobs[1..])
  }

  // ----- The handler over a queue --------------------------------------------------

  function HandleAll(c: Config, w: World, jobs: seq<Job>): (World, seq<Local>)
    decreases |jobs|
  {
    if jobs == [] then (w, [])
    else
      var r := Handle(c, w, jobs[0]);
      var rest := HandleAll(c, r.0, jobs[1..]);
      (rest.0, [r.1] + rest.1)
  }

  /** What `applyCoupon` guarantees of the jobs it queues: the job names the
      session its coupon is linked to. */
  predicate WellQueued(w: World, j: Job) {
    j.session != 0 && (j.coupon in w.coupons ==> w.coupons[j.coupon].session == Some(j.session))
  }

  /** The coupon is redeemed exactly when applied. */
  predicate CouponFit(w: World, id: int) {
    id in w.coupons ==> (w.coupons[id].isRedeemed <==> w.coupons[id].appliedAt.Some?)
  }

  /** In an open session without a slot limit, so that nothing ever resets it, the Redis
      counter is right. */
  predicate CounterFit(w: World, session: int) {
    session in w.sessions && w.sessions[session].status == Written(Live)
    && w.sessions[session].profile in w.profiles && SlotsOf(w, session) <= 0 ==>
      Counter(w.applied, session) == |AppliedIn(w.coupons, session)|
  }

  /** All that the jobs of a queue ask of the tables: it concerns the coupons and the
      sessions that the queue names. */
  ghost predicate QueueFit(w: World, jobs: seq<Job>) {
    forall i :: 0 <= i < |jobs| ==>
      WellQueued(w, jobs[i]) && CouponFit(w, jobs[i].coupon) && CounterFit(w, jobs[i].session)
  }

  /** `w` is `v` up to the slot counters and to the coupons that invalidation has
      struck out, all of which belong to users at their cap. */
  ghost predicate Simulates(c: Config, v: World, w: World) {
    && w.profiles == v.profiles && w.sessions == v.sessions && w.rewards == v.rewards && w.sales == v.sales
    && w.coupons.Keys == v.coupons.Keys
    && (forall id :: id in v.coupons ==> StruckOut(c, v, w, id))
  }

  ghost predicate StruckOut(c: Config, v: World, w: World, id: int)
    requires id in v.coupons && id in w.coupons
  {
    w.coupons[id] == v.coupons[id]
    || (w.coupons[id] == v.coupons[id].(isValid := false)
        && HasCap(c) && v.coupons[id].session.Some?
        && |WinsOf(v.coupons, v.coupons[id].user, v.coupons[id].session.value)| >= c.cap.value)
  }

  // ----- One job -------------------------------------------------------------------

  /** Two tables that differ only in `is_valid` count the same. */
  lemma SameCounts(a: map<int, Coupon>, b: map<int, Coupon>)
    requires a.Keys == b.Keys && forall id :: id in a ==> a[id].(isValid := true) == b[id].(isValid := true)
    ensures forall s :: AppliedIn(a, s) == AppliedIn(b, s)
    ensures forall u, s :: WinsOf(a, u, s) == WinsOf(b, u, s)
  {
    forall id | id in a
      ensures a[id].session == b[id].session && a[id].appliedAt == b[id].appliedAt
              && a[id].user == b[id].user && a[id].status == b[id].status
    {
      assert a[id].(isValid := true).session == b[id].(isValid := true).session;
      assert a[id].(isValid := true).appliedAt == b[id].(isValid := true).appliedAt;
      assert a[id].(isValid := true).user == b[id].(isValid := true).user;
      assert a[id].(isValid := true).status == b[id].(isValid := true).status;
    }
  }

  lemma SimulatesCounts(c: Config, v: World, w: World)
    requires Simulates(c, v, w)
    ensures forall s :: AppliedIn(w.coupons, s) == AppliedIn(v.coupons, s)
    ensures forall u, s :: WinsOf(w.coupons, u, s) == WinsOf(v.coupons, u, s)
  {
    forall id | id in v.coupons ensures w.coupons[id].(isValid := true) == v.coupons[id].(isValid := true) {
      assert StruckOut(c, v, w, id);
    }
    SameCounts(w.coupons, v.coupons);
  }

  lemma MarkApplied(coupons: map<int, Coupon>, id: int, slots: int, position: int, at: int, s: int)
    requires id in coupons && coupons[id].session.Some? && coupons[id].appliedAt.None?
    ensures var m := coupons[id := MarkedCoupon(coupons[id], slots, position, at)];
      && AppliedIn(m, s) == AppliedIn(coupons, s) + (if coupons[id].session == Some(s) then {id} else {})
      && |AppliedIn(m, s)| == |AppliedIn(coupons, s)| + (if coupons[id].session == Some(s) then 1 else 0)
  {
    var m := coupons[id := MarkedCoupon(coupons[id], slots, position, at)];
    assert id !in AppliedIn(coupons, s);
    assert AppliedIn(m, s) == if coupons[id].session == Some(s) then AppliedIn(coupons, s) + {id} else AppliedIn(coupons, s);
  }

  lemma MarkWins(coupons: map<int, Coupon>, id: int, slots: int, position: int, at: int, u: int, s: int)
    requires id in coupons && coupons[id].session.Some? && coupons[id].appliedAt.None?
    ensures var m := coupons[id := MarkedCoupon(coupons[id], slots, position, at)];
      var wins := coupons[id].session == Some(s) && u == coupons[id].user && IsWinner(slots, position);
      && WinsOf(m, u, s) == WinsOf(coupons, u, s) + (if wins then {id} else {})
      && |WinsOf(m, u, s)| == |WinsOf(coupons, u, s)| + (if wins then 1 else 0)
  {
    var m := coupons[id := MarkedCoupon(coupons[id], slots, position, at)];
    var wins := coupons[id].session == Some(s) && u == coupons[id].user && IsWinner(slots, position);
    assert id !in WinsOf(coupons, u, s);
    assert WinsOf(m, u, s) == if wins then WinsOf(coupons, u, s) + {id} else WinsOf(coupons, u, s);
  }

  /** Marking an unapplied coupon adds it, and nothing else, to the counts. */
  lemma MarkCounts(coupons: map<int, Coupon>, id: int, slots: int, position: int, at: int, session: int)
    requires id in coupons && coupons[id].session == Some(session) && coupons[id].appliedAt.None?
    ensures var m := coupons[id := MarkedCoupon(coupons[id], slots, position, at)];
      && (forall s :: AppliedIn(m, s) == AppliedIn(coupons, s) + (if s == session then {id} else {}))
      && (forall s :: |AppliedIn(m, s)| == |AppliedIn(coupons, s)| + (if s == session then 1 else 0))
      && (forall u, s :: WinsOf(m, u, s) == WinsOf(coupons, u, s)
            + (if s == session && u == coupons[id].user && IsWinner(slots, position) then {id} else {}))
      && (forall u, s :: |WinsOf(m, u, s)| == |WinsOf(coupons, u, s)|
            + (if s == session && u == coupons[id].user && IsWinner(slots, position) then 1 else 0))
  {
    forall s {
      MarkApplied(coupons, id, slots, position, at, s);
    }
    forall u, s {
      MarkWins(coupons, id, slots, position, at, u, s);
    }
  }

  // ----- The handler's result in closed form ------------------------------------------

  predicate UnderCap(c: Config, w: World, j: Job) {
    HasCap(c) ==> |WinsOf(w.coupons, j.user, j.session)| < c.cap.value
  }

  predicate Valid(w: World, j: Job) {
    && j.session in w.sessions && w.sessions[j.session].status == Written(Live)
    && j.coupon in w.coupons
    && w.coupons[j.coupon].user == j.user && w.coupons[j.coupon].isValid && !w.coupons[j.coupon].isRedeemed
  }

  /** A job that fails a check before the win count changes nothing. */
  lemma RejectedEarly(c: Config, w: World, j: Job)
    requires !Valid(w, j)
    ensures Handle(c, w, j).0 == w && Handle(c, w, j).1.Rejected?
  {
    if j.session in w.sessions && w.sessions[j.session].status == Written(Live) {
      assert Handle(c, w, j) == Finish(c, w, j, LoadCoupon(w.sessions[j.session]));
      RejectedNow(c, w, j);
    }
  }

  lemma RejectedNow(c: Config, w: World, j: Job)
    ensures forall r :: Finish(c, w, j, Rejected(r)) == (w, Rejected(r))
  {
  }

  /** A user at the cap is refused; at most his remaining coupons are struck out. */
  lemma RejectedAtCap(c: Config, w: World, j: Job)
    requires Valid(w, j) && WellQueued(w, j) && !UnderCap(c, w, j)
    ensures Handle(c, w, j).1 == Rejected(MaxWinsReached)
    ensures Handle(c, w, j).0 ==
      if c.invalidate then w.(coupons := InvalidateRemaining(w.coupons, j.user, j.session)) else w
  {
    var s := w.sessions[j.session];
    assert Handle(c, w, j) == Finish(c, w, j, LoadCoupon(s));
    assert Handle(c, w, j) == Finish(c, w, j, CountWins(s, j.session));
    RejectedNow(c, w, j);
    if c.invalidate {
      assert Handle(c, w, j) == Finish(c, w, j, InvalidateAtCap(j.session));
      RejectedNow(c, w.(coupons := InvalidateRemaining(w.coupons, j.user, j.session)), j);
    }
  }

  lemma ReachesProfile(c: Config, w: World, j: Job)
    requires Valid(w, j) && WellQueued(w, j) && UnderCap(c, w, j)
    ensures Handle(c, w, j) == Finish(c, w, j, LoadProfile(w.sessions[j.session]))
  {
    var s := w.sessions[j.session];
    assert Handle(c, w, j) == Finish(c, w, j, LoadCoupon(s));
    if HasCap(c) {
      assert Handle(c, w, j) == Finish(c, w, j, CountWins(s, j.session));
    }
  }

  /** The counter the Lua script meets: the true count wherever it matters. */
  function Synced(w: World, session: int, slots: int): map<int, int> {
    var n := |AppliedIn(w.coupons, session)|;
    if slots > 0 && Counter(w.applied, session) != n then w.applied[session := n] else w.applied
  }

  lemma ReachesSlot(c: Config, w: World, j: Job)
    requires Valid(w, j) && WellQueued(w, j) && UnderCap(c, w, j)
    requires w.sessions[j.session].profile in w.profiles
    ensures var slots := SlotsOf(w, j.session);
      Handle(c, w, j)
      == Finish(c, w.(applied := Synced(w, j.session, slots)), j, TakeSlot(w.sessions[j.session], slots))
  {
    var s := w.sessions[j.session];
    var slots := SlotsOf(w, j.session);
    var n := |AppliedIn(w.coupons, j.session)|;
    ReachesProfile(c, w, j);
    if slots > 0 {
      assert Handle(c, w, j) == Finish(c, w, j, CountApplied(s, slots));
      assert Handle(c, w, j) == Finish(c, w, j, ReadCounter(s, slots, n));
      if Counter(w.applied, j.session) != n {
        assert Handle(c, w, j) == Finish(c, w, j, WriteCounter(s, slots, n));
      }
    }
    assert w.(applied := w.applied) == w;
  }

  lemma RejectedFull(c: Config, w: World, j: Job)
    requires Valid(w, j) && WellQueued(w, j) && UnderCap(c, w, j) && !Eligible(c, w, j)
    ensures Handle(c, w, j).1.Rejected?
    ensures w.sessions[j.session].profile !in w.profiles ==> Handle(c, w, j).0 == w
    ensures w.sessions[j.session].profile in w.profiles ==>
      Handle(c, w, j).0 == w.(applied := Synced(w, j.session, SlotsOf(w, j.session)))
  {
    var s := w.sessions[j.session];
    ReachesProfile(c, w, j);
    if s.profile in w.profiles {
      var slots := SlotsOf(w, j.session);
      ReachesSlot(c, w, j);
      var w1 := w.(applied := Synced(w, j.session, slots));
      assert Finish(c, w1, j, TakeSlot(s, slots)) == Finish(c, w1, j, Rejected(SlotsFull));
    }
  }

  /** The position the next job of the session takes: the resync makes the counter
      the true count where there is a limit, and only there. */
  function NextPosition(w: World, session: int, slots: int): int {
    (if slots > 0 then |AppliedIn(w.coupons, session)| else Counter(w.applied, session)) + 1
  }

  /** What an accepted job leaves in every table, whatever the counter was. */
  lemma AcceptedAt(c: Config, w: World, j: Job)
    requires Eligible(c, w, j) && WellQueued(w, j) && w.coupons[j.coupon].appliedAt.None?
    ensures var s, slots := w.sessions[j.session], SlotsOf(w, j.session);
      var p := NextPosition(w, j.session, slots);
      var m := w.coupons[j.coupon := MarkedCoupon(w.coupons[j.coupon], slots, p, j.at)];
      Handle(c, w, j) ==
      (w.(applied := Synced(w, j.session, slots)[j.session := p],
          coupons := if IsWinner(slots, p) && HasCap(c) && c.invalidate
                        && |WinsOf(m, j.user, j.session)| >= c.cap.value
                     then InvalidateRemaining(m, j.user, j.session) else m,
          rewards := if IsWinner(slots, p) then w.rewards + [Reward(j.session, j.user, j.coupon, s.profile)]
                     else w.rewards,
          sessions := w.sessions[j.session := UpdatedSession(s, s, slots, p, j.at)]),
       Accepted(p, IsWinner(slots, p)))
  {
    var s, slots := w.sessions[j.session], SlotsOf(w, j.session);
    var p := NextPosition(w, j.session, slots);
    ReachesSlot(c, w, j);
    var w1 := w.(applied := Synced(w, j.session, slots));
    assert Counter(w1.applied, j.session) == p - 1;
    var w2 := w.(applied := w1.applied[j.session := p]);
    assert Finish(c, w1, j, TakeSlot(s, slots)) == Finish(c, w2, j, MarkCoupon(s, slots, p));
    AfterMark(c, w2, j, s, slots, p);
  }

  /** With a true counter that is the specification's grant, the advanced counter, and
      possibly the owner's other coupons struck out. */
  lemma AcceptedResult(c: Config, w: World, j: Job)
    requires Eligible(c, w, j) && WellQueued(w, j) && w.coupons[j.coupon].appliedAt.None?
    requires SlotsOf(w, j.session) <= 0 ==> Counter(w.applied, j.session) == |AppliedIn(w.coupons, j.session)|
    ensures var n := |AppliedIn(w.coupons, j.session)|;
      var g := Grant(w, j);
      && Handle(c, w, j).1 == Accepted(n + 1, IsWinner(SlotsOf(w, j.session), n + 1))
      && Handle(c, w, j).0 == g.(
           applied := Synced(w, j.session, SlotsOf(w, j.session))[j.session := n + 1],
           coupons := if IsWinner(SlotsOf(w, j.session), n + 1) && HasCap(c) && c.invalidate
                         && |WinsOf(g.coupons, j.user, j.session)| >= c.cap.value
                      then InvalidateRemaining(g.coupons, j.user, j.session) else g.coupons)
  {
    AcceptedAt(c, w, j);
  }

  lemma AfterMark(c: Config, w: World, j: Job, s: Session, slots: int, position: int)
    requires j.coupon in w.coupons && w.coupons[j.coupon].appliedAt.None?
    requires j.session in w.sessions && s == w.sessions[j.session]
    ensures var m := w.coupons[j.coupon := MarkedCoupon(w.coupons[j.coupon], slots, position, j.at)];
      Finish(c, w, j, MarkCoupon(s, slots, position)) ==
      (w.(coupons := if IsWinner(slots, position) && HasCap(c) && c.invalidate
                        && |WinsOf(m, j.user, j.session)| >= c.cap.value
                     then InvalidateRemaining(m, j.user, j.session) else m,
          rewards := if IsWinner(slots, position) then w.rewards + [Reward(j.session, j.user, j.coupon, s.profile)]
                     else w.rewards,
          sessions := w.sessions[j.session := UpdatedSession(s, s, slots, position, j.at)]),
       Accepted(position, IsWinner(slots, position)))
  {
    var m := w.coupons[j.coupon := MarkedCoupon(w.coupons[j.coupon], slots, position, j.at)];
    var w1 := w.(coupons := m);
    if IsWinner(slots, position) {
      assert Finish(c, w, j, MarkCoupon(s, slots, position)) == Finish(c, w1, j, CreateReward(s, slots, position));
      AfterReward(c, w1, j, s, slots, position);
    } else {
      assert Finish(c, w, j, MarkCoupon(s, slots, position)) == Finish(c, w1, j, UpdateSession(s, slots, position));
      AtUpdate(c, w1, j, s, slots, position);
    }
  }

  lemma AfterReward(c: Config, w: World, j: Job, s: Session, slots: int, position: int)
    requires j.session in w.sessions && s == w.sessions[j.session]
    ensures Finish(c, w, j, CreateReward(s, slots, position)) ==
      (w.(coupons := if HasCap(c) && c.invalidate && |WinsOf(w.coupons, j.user, j.session)| >= c.cap.value
                     then InvalidateRemaining(w.coupons, j.user, j.session) else w.coupons,
          rewards := w.rewards + [Reward(j.session, j.user, j.coupon, s.profile)],
          sessions := w.sessions[j.session := UpdatedSession(s, s, slots, position, j.at)]),
       Accepted(position, IsWinner(slots, position)))
  {
    var w1 := w.(rewards := w.rewards + [Reward(j.session, j.user, j.coupon, s.profile)]);
    if HasCap(c) && c.invalidate {
      assert Finish(c, w, j, CreateReward(s, slots, position)) == Finish(c, w1, j, CountWinsAgain(s, slots, position));
      AfterRecount(c, w1, j, s, slots, position);
    } else {
      assert Finish(c, w, j, CreateReward(s, slots, position)) == Finish(c, w1, j, UpdateSession(s, slots, position));
      AtUpdate(c, w1, j, s, slots, position);
    }
  }

  lemma AfterRecount(c: Config, w: World, j: Job, s: Session, slots: int, position: int)
    requires j.session in w.sessions && s == w.sessions[j.session] && HasCap(c)
    ensures Finish(c, w, j, CountWinsAgain(s, slots, position)) ==
      (w.(coupons := if |WinsOf(w.coupons, j.user, j.session)| >= c.cap.value
                     then InvalidateRemaining(w.coupons, j.user, j.session) else w.coupons,
          sessions := w.sessions[j.session := UpdatedSession(s, s, slots, position, j.at)]),
       Accepted(position, IsWinner(slots, position)))
  {
    if |WinsOf(w.coupons, j.user, j.session)| >= c.cap.value {
      AfterStrikeOut(c, w, j, s, slots, position);
    } else {
      assert Finish(c, w, j, CountWinsAgain(s, slots, position)) == Finish(c, w, j, UpdateSession(s, slots, position));
      AtUpdate(c, w, j, s, slots, position);
    }
  }

  lemma AfterStrikeOut(c: Config, w: World, j: Job, s: Session, slots: int, position: int)
    requires j.session in w.sessions && s == w.sessions[j.session] && HasCap(c)
    requires |WinsOf(w.coupons, j.user, j.session)| >= c.cap.value
    ensures Finish(c, w, j, CountWinsAgain(s, slots, position)) ==
      (w.(coupons := InvalidateRemaining(w.coupons, j.user, j.session),
          sessions := w.sessions[j.session := UpdatedSession(s, s, slots, position, j.at)]),
       Accepted(position, IsWinner(slots, position)))
  {
    var w2 := w.(coupons := InvalidateRemaining(w.coupons, j.user, j.session));
    assert Finish(c, w, j, CountWinsAgain(s, slots, position))
        == Finish(c, w, j, InvalidateAfterWin(s, slots, position));
    assert Finish(c, w, j, InvalidateAfterWin(s, slots, position))
        == Finish(c, w2, j, UpdateSession(s, slots, position));
    AtUpdate(c, w2, j, s, slots, position);
  }

  lemma AtUpdate(c: Config, w: World, j: Job, s: Session, slots: int, position: int)
    requires j.session in w.sessions && s == w.sessions[j.session]
    ensures Finish(c, w, j, UpdateSession(s, slots, position)) ==
      (w.(sessions := w.sessions[j.session := UpdatedSession(s, s, slots, position, j.at)]),
       Accepted(position, IsWinner(slots, position)))
  {
    var w' := w.(sessions := w.sessions[j.session := UpdatedSession(s, s, slots, position, j.at)]);
    var l := Accepted(position, IsWinner(slots, position));
    assert Finish(c, w', j, l) == (w', l);
  }

  /** A job that holds a slot for an applied coupon lets it go. */
  lemma GivenBack(c: Config, w: World, j: Job, s: Session, slots: int, p: int)
    requires j.coupon in w.coupons && w.coupons[j.coupon].appliedAt.Some? && Counter(w.applied, j.session) == p
    ensures Finish(c, w, j, MarkCoupon(s, slots, p))
         == (w.(applied := w.applied[j.session := p - 1]), Rejected(AlreadyApplied))
  {
    var w' := w.(applied := w.applied[j.session := p - 1]);
    assert Finish(c, w, j, MarkCoupon(s, slots, p)) == Finish(c, w, j, GiveBack);
    assert Finish(c, w, j, GiveBack) == Finish(c, w', j, Reread);
    assert Finish(c, w', j, Reread) == Finish(c, w', j, Rejected(AlreadyApplied));
    RejectedNow(c, w', j);
  }

  /** A valid job below the cap whose coupon is applied already, though not redeemed, takes
      a slot, gives it back and is refused. */
  lemma RejectedApplied(c: Config, w: World, j: Job)
    requires Eligible(c, w, j) && WellQueued(w, j) && w.coupons[j.coupon].appliedAt.Some?
    ensures var slots := SlotsOf(w, j.session);
      var counters, p := Synced(w, j.session, slots), NextPosition(w, j.session, slots);
      Handle(c, w, j) == (w.(applied := counters[j.session := p][j.session := p - 1]), Rejected(AlreadyApplied))
  {
    var s, slots := w.sessions[j.session], SlotsOf(w, j.session);
    var p := NextPosition(w, j.session, slots);
    ReachesSlot(c, w, j);
    var w1 := w.(applied := Synced(w, j.session, slots));
    assert Counter(w1.applied, j.session) == p - 1;
    var w2 := w.(applied := w1.applied[j.session := p]);
    assert Finish(c, w1, j, TakeSlot(s, slots)) == Finish(c, w2, j, MarkCoupon(s, slots, p));
    GivenBack(c, w2, j, s, slots, p);
  }

  // ----- The result, column by column ---------------------------------------------------

  /** The checks, in their order, each with its own reason. */
  lemma ChecksInColumns(c: Config, w: World, j: Job)
    ensures j.session !in w.sessions ==> Handle(c, w, j) == (w, Rejected(SessionNotFound))
    ensures j.session in w.sessions && w.sessions[j.session].status != StatusText(Live, true) ==>
      Handle(c, w, j) == (w, Rejected(SessionClosed))
    ensures j.session in w.sessions && w.sessions[j.session].status == StatusText(Live, true) ==>
      && (j.coupon !in w.coupons ==> Handle(c, w, j) == (w, Rejected(CouponNotFound)))
      && (j.coupon in w.coupons ==>
            var k := w.coupons[j.coupon];
            && (k.user != j.user ==> Handle(c, w, j) == (w, Rejected(NotOwner)))
            && (k.user == j.user && !k.isValid ==> Handle(c, w, j) == (w, Rejected(InvalidCoupon)))
            && (k.user == j.user && k.isValid && k.isRedeemed ==> Handle(c, w, j) == (w, Rejected(AlreadyUsed))))
  {
    RejectedNow(c, w, j);
    if j.session in w.sessions && w.sessions[j.session].status == Written(Live) {
      assert Handle(c, w, j) == Finish(c, w, j, LoadCoupon(w.sessions[j.session]));
    }
  }

  /** The win cap: a positive cap refuses exactly the user who has that many applied,
      winning coupons in the session, and then strikes out what is left if configured. */
  lemma CapInColumns(c: Config, w: World, j: Job)
    requires Valid(w, j) && WellQueued(w, j)
    ensures var wins := |set id | id in w.coupons && w.coupons[id].user == j.user && w.coupons[id].status == Winner
                                 && w.coupons[id].session == Some(j.session) && w.coupons[id].appliedAt.Some?|;
      var (w', r) := Handle(c, w, j);
      && (r == Rejected(MaxWinsReached) <==> c.cap.Some? && 0 < c.cap.value <= wins)
      && (r == Rejected(MaxWinsReached) ==>
            w' == w.(coupons := w'.coupons) && OnlyRemaining(c.invalidate, w.coupons, w'.coupons, j.user, j.session))
  {
    CountsInColumns(w, j);
    if !UnderCap(c, w, j) {
      RejectedAtCap(c, w, j);
    } else {
      NotAtCap(c, w, j);
    }
  }

  /** A user below the cap is refused for want of a profile or of a slot, or because the
      coupon is applied already, and for nothing else; of the tables such a refusal changes
      nothing, and of the counters that of a limited session, which is then right. */
  lemma NotAtCap(c: Config, w: World, j: Job)
    requires Valid(w, j) && WellQueued(w, j) && UnderCap(c, w, j)
    ensures var applied := |set id | id in w.coupons && w.coupons[id].session == Some(j.session)
                                    && w.coupons[id].appliedAt.Some?|;
      var (w', r) := Handle(c, w, j);
      if w.sessions[j.session].profile !in w.profiles then (w', r) == (w, Rejected(ProfileNotFound))
      else
        var limit := w.profiles[w.sessions[j.session].profile].maxSlots;
        if 0 < limit <= applied then
          r == Rejected(SlotsFull) && OnlyCounter(w, w', j.session, applied)
        else if w.coupons[j.coupon].appliedAt.Some? then
          r == Rejected(AlreadyApplied)
          && OnlyCounter(w, w', j.session, if limit > 0 then applied else Counter(w.applied, j.session))
        else r.Accepted?
  {
    CountsInColumns(w, j);
    if !Eligible(c, w, j) {
      RejectedFull(c, w, j);
      FullReason(c, w, j);
    } else if w.coupons[j.coupon].appliedAt.Some? {
      RejectedApplied(c, w, j);
    } else {
      AcceptedAt(c, w, j);
    }
  }

  /** Nothing but one counter differs, and that one has the given value. */
  ghost predicate OnlyCounter(w: World, w': World, session: int, n: int) {
    && w' == w.(applied := w'.applied) && Counter(w'.applied, session) == n
    && forall s :: s != session ==> Counter(w'.applied, s) == Counter(w.applied, s)
  }

  lemma FullReason(c: Config, w: World, j: Job)
    requires Valid(w, j) && WellQueued(w, j) && UnderCap(c, w, j) && !Eligible(c, w, j)
    ensures Handle(c, w, j).1 ==
      Rejected(if w.sessions[j.session].profile in w.profiles then SlotsFull else ProfileNotFound)
  {
    var s := w.sessions[j.session];
    ReachesProfile(c, w, j);
    RejectedNow(c, w, j);
    if s.profile in w.profiles {
      var slots := SlotsOf(w, j.session);
      ReachesSlot(c, w, j);
      var w1 := w.(applied := Synced(w, j.session, slots));
      assert Finish(c, w1, j, TakeSlot(s, slots)) == Finish(c, w1, j, Rejected(SlotsFull));
      RejectedNow(c, w1, j);
    }
  }

  /** An accepted job: its position, its winner, and every column of every table. */
  lemma AcceptedInColumns(c: Config, w: World, j: Job)
    requires Valid(w, j) && WellQueued(w, j) && Handle(c, w, j).1.Accepted?
    ensures w.sessions[j.session].profile in w.profiles
    ensures var limit := w.profiles[w.sessions[j.session].profile].maxSlots;
      var applied := |set id | id in w.coupons && w.coupons[id].session == Some(j.session)
                               && w.coupons[id].appliedAt.Some?|;
      var wins := |set id | id in w.coupons && w.coupons[id].user == j.user && w.coupons[id].status == Winner
                            && w.coupons[id].session == Some(j.session) && w.coupons[id].appliedAt.Some?|;
      var position := (if limit > 0 then applied else Counter(w.applied, j.session)) + 1;
      var winner := limit >= 0 || position <= limit;
      var (w', r) := Handle(c, w, j);
      && r == Accepted(position, winner)
      && w'.profiles == w.profiles && w'.sales == w.sales
      && Counter(w'.applied, j.session) == position
      && (forall s :: s != j.session ==> Counter(w'.applied, s) == Counter(w.applied, s))
      && w'.rewards == w.rewards
           + (if winner then [Reward(j.session, j.user, j.coupon, w.sessions[j.session].profile)] else [])
      && OnlyRemaining(
           winner && c.invalidate && c.cap.Some? && 0 < c.cap.value <= wins + 1,
           w.coupons[j.coupon := w.coupons[j.coupon].(
             appliedAt := Some(j.at), position := Some(position), isRedeemed := true,
             status := if winner then Winner else AppliedLate)],
           w'.coupons, j.user, j.session)
      && w'.sessions == w.sessions[j.session :=
           if limit > 0 && position == limit
           then w.sessions[j.session].(participants := w.sessions[j.session].participants + 1,
                  status := StatusText(Completed, true), endTime := Some(j.at), isActive := false)
           else w.sessions[j.session].(participants := w.sessions[j.session].participants + 1)]
  {
    AcceptedIsEligible(c, w, j);
    CountsInColumns(w, j);
    AcceptedAt(c, w, j);
    AcceptedCoupons(c, w, j);
  }

  lemma CountsInColumns(w: World, j: Job)
    ensures AppliedIn(w.coupons, j.session)
         == set id | id in w.coupons && w.coupons[id].session == Some(j.session) && w.coupons[id].appliedAt.Some?
    ensures WinsOf(w.coupons, j.user, j.session)
         == set id | id in w.coupons && w.coupons[id].user == j.user && w.coupons[id].status == Winner
                     && w.coupons[id].session == Some(j.session) && w.coupons[id].appliedAt.Some?
  {
  }

  lemma AcceptedCoupons(c: Config, w: World, j: Job)
    requires WellQueued(w, j) && Eligible(c, w, j) && w.coupons[j.coupon].appliedAt.None?
    ensures var limit := SlotsOf(w, j.session);
      var position := NextPosition(w, j.session, limit);
      var winner := limit >= 0 || position <= limit;
      OnlyRemaining(
        winner && c.invalidate && c.cap.Some? && 0 < c.cap.value <= |WinsOf(w.coupons, j.user, j.session)| + 1,
        w.coupons[j.coupon := w.coupons[j.coupon].(
          appliedAt := Some(j.at), position := Some(position), isRedeemed := true,
          status := if winner then Winner else AppliedLate)],
        Handle(c, w, j).0.coupons, j.user, j.session)
  {
    AcceptedAt(c, w, j);
    var slots := SlotsOf(w, j.session);
    MarkWins(w.coupons, j.coupon, slots, NextPosition(w, j.session, slots), j.at, j.user, j.session);
  }

  lemma AcceptedIsEligible(c: Config, w: World, j: Job)
    requires Valid(w, j) && WellQueued(w, j) && Handle(c, w, j).1.Accepted?
    ensures Eligible(c, w, j) && w.coupons[j.coupon].appliedAt.None?
  {
    if !UnderCap(c, w, j) {
      RejectedAtCap(c, w, j);
    } else {
      NotAtCap(c, w, j);
    }
  }

  /** What is left of a user's coupons after his last win, or when he comes once more: with
      invalidation on no coupon of his in the session is valid but those redeemed before, and
      every other coupon keeps its validity; with invalidation off every coupon does. */
  lemma ValidityAfterCap(c: Config, w: World, j: Job)
    requires Valid(w, j) && WellQueued(w, j)
    requires c.cap.Some? && c.cap.value > 0
    requires Handle(c, w, j).1 == Rejected(MaxWinsReached)
             || (Handle(c, w, j).1.Accepted? && Handle(c, w, j).1.winner
                 && |WinsOf(w.coupons, j.user, j.session)| + 1 >= c.cap.value)
    ensures var w' := Handle(c, w, j).0;
      && w'.coupons.Keys == w.coupons.Keys
      && forall id :: id in w.coupons ==>
           var k := w.coupons[id];
           w'.coupons[id].isValid ==
             if c.invalidate && k.user == j.user && k.session == Some(j.session) && !k.isRedeemed
                && !(id == j.coupon && Handle(c, w, j).1.Accepted?)
             then false else k.isValid
  {
    if Handle(c, w, j).1.Accepted? {
      AcceptedInColumns(c, w, j);
      CountsInColumns(w, j);
    } else {
      CapInColumns(c, w, j);
    }
  }

  // ----- One job refines the specification ----------------------------------------------

  lemma SameEligibility(c: Config, v: World, w: World, j: Job)
    requires Simulates(c, v, w) && WellQueued(v, j)
    ensures Eligible(c, v, j) <==> Eligible(c, w, j)
    ensures WellQueued(w, j)
  {
    SimulatesCounts(c, v, w);
    if j.coupon in v.coupons {
      assert StruckOut(c, v, w, j.coupon);
    }
  }

  /** Striking out coupons of a user at the cap keeps the simulation. */
  lemma InvalidationSimulates(c: Config, v: World, w: World, user: int, session: int)
    requires Simulates(c, v, w) && HasCap(c) && |WinsOf(v.coupons, user, session)| >= c.cap.value
    ensures Simulates(c, v, w.(coupons := InvalidateRemaining(w.coupons, user, session)))
  {
    var w' := w.(coupons := InvalidateRemaining(w.coupons, user, session));
    forall id | id in v.coupons ensures StruckOut(c, v, w', id) {
      assert StruckOut(c, v, w, id);
    }
  }

  /** From `w` to `w'` only one session has changed, what was fit is fit, and no row has
      gone or moved. */
  ghost predicate Kept(w: World, w': World, session: int) {
    && w'.profiles == w.profiles && w'.sessions.Keys == w.sessions.Keys && w'.coupons.Keys == w.coupons.Keys
    && (forall s :: s in w.sessions ==> w'.sessions[s].profile == w.sessions[s].profile)
    && (forall s :: s in w.sessions && s != session ==> w'.sessions[s] == w.sessions[s])
    && (forall s :: s != session ==>
          AppliedIn(w'.coupons, s) == AppliedIn(w.coupons, s) && Counter(w'.applied, s) == Counter(w.applied, s))
    && (CounterFit(w, session) ==> CounterFit(w', session))
    && (forall id :: CouponFit(w, id) ==> CouponFit(w', id))
    && (forall id :: id in w.coupons ==> w'.coupons[id].session == w.coupons[id].session)
  }

  lemma KeptTransitive(a: World, b: World, d: World, session: int)
    requires Kept(a, b, session) && Kept(b, d, session)
    ensures Kept(a, d, session)
  {
  }

  lemma KeptByInvalidation(w: World, user: int, of: int, session: int)
    ensures Kept(w, w.(coupons := InvalidateRemaining(w.coupons, user, of)), session)
  {
    SameCounts(w.coupons, InvalidateRemaining(w.coupons, user, of));
  }

  lemma KeptBySync(w: World, session: int)
    requires session in w.sessions && w.sessions[session].profile in w.profiles
    ensures Kept(w, w.(applied := Synced(w, session, SlotsOf(w, session))), session)
  {
  }

  lemma KeptByGrant(w: World, j: Job)
    requires WellQueued(w, j) && j.session in w.sessions && w.sessions[j.session].profile in w.profiles
    requires j.coupon in w.coupons && w.coupons[j.coupon].appliedAt.None?
    ensures var n := |AppliedIn(w.coupons, j.session)|;
      Kept(w, Grant(w, j).(applied := Synced(w, j.session, SlotsOf(w, j.session))[j.session := n + 1]), j.session)
  {
    var n, slots := |AppliedIn(w.coupons, j.session)|, SlotsOf(w, j.session);
    var w' := Grant(w, j).(applied := Synced(w, j.session, slots)[j.session := n + 1]);
    MarkCounts(w.coupons, j.coupon, slots, n + 1, j.at, j.session);
    forall s | s != j.session
      ensures AppliedIn(w'.coupons, s) == AppliedIn(w.coupons, s) && Counter(w'.applied, s) == Counter(w.applied, s)
    {
    }
  }

  lemma FitStays(w: World, w': World, session: int, k: Job)
    requires Kept(w, w', session) && CounterFit(w, session)
    ensures CounterFit(w, k.session) ==> CounterFit(w', k.session)
    ensures CouponFit(w, k.coupon) ==> CouponFit(w', k.coupon)
    ensures WellQueued(w, k) ==> WellQueued(w', k)
  {
  }

  lemma GrantSimulates(c: Config, v: World, w: World, j: Job)
    requires Simulates(c, v, w) && WellQueued(v, j) && Eligible(c, v, j) && Eligible(c, w, j)
    requires v.coupons[j.coupon].appliedAt.None?
    ensures Simulates(c, Grant(v, j), Grant(w, j).(applied := w.applied))
  {
    SimulatesCounts(c, v, w);
    var n := |AppliedIn(v.coupons, j.session)|;
    assert StruckOut(c, v, w, j.coupon);
    MarkCounts(v.coupons, j.coupon, SlotsOf(v, j.session), n + 1, j.at, j.session);
    var v', w' := Grant(v, j), Grant(w, j);
    forall id | id in v'.coupons ensures StruckOut(c, v', w', id) {
      assert StruckOut(c, v, w, id);
    }
  }

  /** A grant raises one session's count by one and leaves every limit alone. */
  lemma GrantKeepsSlots(w: World, j: Job)
    requires j.session in w.sessions && w.sessions[j.session].profile in w.profiles && j.coupon in w.coupons
    requires w.coupons[j.coupon].session == Some(j.session) && w.coupons[j.coupon].appliedAt.None?
    ensures Grant(w, j).sessions.Keys == w.sessions.Keys && Grant(w, j).profiles == w.profiles
    ensures forall s :: s in w.sessions ==> Grant(w, j).sessions[s].profile == w.sessions[s].profile
    ensures forall s :: |AppliedIn(Grant(w, j).coupons, s)| == |AppliedIn(w.coupons, s)| + (if s == j.session then 1 else 0)
  {
    var n := |AppliedIn(w.coupons, j.session)|;
    MarkCounts(w.coupons, j.coupon, SlotsOf(w, j.session), n + 1, j.at, j.session);
  }

  lemma OneJobRefines(c: Config, v: World, w: World, j: Job)
    requires Simulates(c, v, w) && WellQueued(v, j) && CouponFit(w, j.coupon) && CounterFit(w, j.session)
    ensures var r := Handle(c, w, j);
      && Simulates(c, Serve(c, v, j), r.0) && Kept(w, r.0, j.session)
      && (r.1.Rejected? <==> !Eligible(c, v, j))
      && (Eligible(c, v, j) ==>
            var n := |AppliedIn(v.coupons, j.session)| + 1;
            r.1 == Accepted(n, IsWinner(SlotsOf(v, j.session), n)))
  {
    SameEligibility(c, v, w, j);
    SimulatesCounts(c, v, w);
    if Eligible(c, w, j) {
      EligibleRefines(c, v, w, j);
    } else if !Valid(w, j) {
      RejectedEarly(c, w, j);
    } else if !UnderCap(c, w, j) {
      RejectedAtCap(c, w, j);
      InvalidationSimulates(c, v, w, j.user, j.session);
      KeptByInvalidation(w, j.user, j.session, j.session);
    } else {
      RejectedFull(c, w, j);
      if w.sessions[j.session].profile in w.profiles {
        KeptBySync(w, j.session);
      }
    }
  }

  lemma EligibleRefines(c: Config, v: World, w: World, j: Job)
    requires Simulates(c, v, w) && WellQueued(v, j) && CouponFit(w, j.coupon) && CounterFit(w, j.session)
    requires Eligible(c, v, j) && Eligible(c, w, j) && WellQueued(w, j)
    ensures var r := Handle(c, w, j);
      var n := |AppliedIn(v.coupons, j.session)| + 1;
      && Simulates(c, Grant(v, j), r.0) && Kept(w, r.0, j.session)
      && r.1 == Accepted(n, IsWinner(SlotsOf(v, j.session), n))
  {
    SimulatesCounts(c, v, w);
    assert StruckOut(c, v, w, j.coupon);
    AcceptedResult(c, w, j);
    GrantSimulates(c, v, w, j);
    KeptByGrant(w, j);
    var g := Grant(w, j).(applied :=
      Synced(w, j.session, SlotsOf(w, j.session))[j.session := |AppliedIn(w.coupons, j.session)| + 1]);
    SimulatesCounts(c, Grant(v, j), g);
    if HasCap(c) && |WinsOf(g.coupons, j.user, j.session)| >= c.cap.value {
      InvalidationSimulates(c, Grant(v, j), g, j.user, j.session);
      KeptByInvalidation(g, j.user, j.session, j.session);
      KeptTransitive(w, g, g.(coupons := InvalidateRemaining(g.coupons, j.user, j.session)), j.session);
    }
  }

  // ----- The whole queue -------------------------------------------------------------

  /** The i-th job was accepted exactly when the specification serves it, at the
      position the specification gives it. */
  ghost predicate OutcomesMatch(c: Config, v: World, jobs: seq<Job>, outs: seq<Local>)
    decreases |jobs|
  {
    && |outs| == |jobs|
    && (jobs != [] ==>
          && (outs[0].Accepted? <==> Eligible(c, v, jobs[0]))
          && (outs[0].Accepted? ==>
                var n := |AppliedIn(v.coupons, jobs[0].session)| + 1;
                outs[0] == Accepted(n, IsWinner(SlotsOf(v, jobs[0].session), n)))
          && OutcomesMatch(c, Serve(c, v, jobs[0]), jobs[1..], outs[1..]))
  }

  /** Refinement: for every queue, draining it with the handler gives the rows and
      the outcomes of the specification. */
  lemma {:induction false} QueueRefines(c: Config, v: World, w: World, jobs: seq<Job>)
    requires Simulates(c, v, w) && QueueFit(w, jobs)
    ensures Simulates(c, ServeAll(c, v, jobs), HandleAll(c, w, jobs).0)
    ensures OutcomesMatch(c, v, jobs, HandleAll(c, w, jobs).1)
    decreases |jobs|
  {
    if jobs != [] {
      var r := Handle(c, w, jobs[0]);
      SameQueued(c, v, w, jobs[0]);
      OneJobRefines(c, v, w, jobs[0]);
      forall i | 0 <= i < |jobs[1..]|
        ensures WellQueued(r.0, jobs[1..][i]) && CouponFit(r.0, jobs[1..][i].coupon)
                && CounterFit(r.0, jobs[1..][i].session)
      {
        FitStays(w, r.0, jobs[0].session, jobs[i + 1]);
      }
      QueueRefines(c, Serve(c, v, jobs[0]), r.0, jobs[1..]);
      assert HandleAll(c, w, jobs).1[1..] == HandleAll(c, r.0, jobs[1..]).1;
    }
  }

  lemma SameQueued(c: Config, v: World, w: World, j: Job)
    requires Simulates(c, v, w)
    ensures WellQueued(v, j) <==> WellQueued(w, j)
  {
    if j.coupon in v.coupons {
      assert StruckOut(c, v, w, j.coupon);
    }
  }

  lemma SimulatesSelf(c: Config, w: World)
    ensures Simulates(c, w, w)
  {
  }

  // ----- Invalidation on or off ---------------------------------------------------------

  /** The run with invalidation, `on`, against the run without: the same tables and
      counters, but for coupons struck out of users at their cap. */
  ghost predicate SameRun(c: Config, off: World, on: World) {
    Simulates(c, off, on) && on.applied == off.applied
  }

  ghost predicate SameOutcome(a: Local, b: Local) { a == b || (a.Rejected? && b.Rejected?) }

  function On(c: Config): Config { c.(invalidate := true) }

  function Off(c: Config): Config { c.(invalidate := false) }

  lemma StruckOutAtCap(c: Config, off: World, on: World, j: Job)
    requires SameRun(c, off, on) && WellQueued(off, j)
    ensures WellQueued(on, j)
    ensures Valid(on, j) ==> Valid(off, j)
    ensures Valid(off, j) && !Valid(on, j) ==> !UnderCap(c, off, j)
    ensures UnderCap(c, on, j) <==> UnderCap(c, off, j)
    ensures Eligible(c, on, j) <==> Eligible(c, off, j)
  {
    SimulatesCounts(c, off, on);
    SameEligibility(c, off, on, j);
    if j.coupon in off.coupons {
      assert StruckOut(c, off, on, j.coupon);
    }
  }

  lemma SameSynced(c: Config, off: World, on: World, session: int, slots: int)
    requires SameRun(c, off, on)
    ensures Synced(on, session, slots) == Synced(off, session, slots)
    ensures NextPosition(on, session, slots) == NextPosition(off, session, slots)
  {
    SimulatesCounts(c, off, on);
  }

  lemma SameAccepted(c: Config, off: World, on: World, j: Job)
    requires SameRun(c, off, on) && WellQueued(off, j) && WellQueued(on, j)
    requires Eligible(c, off, j) && Eligible(c, on, j) && off.coupons[j.coupon].appliedAt.None?
    ensures SameRun(c, Handle(Off(c), off, j).0, Handle(On(c), on, j).0)
    ensures Handle(Off(c), off, j).1 == Handle(On(c), on, j).1
  {
    var slots := SlotsOf(off, j.session);
    assert StruckOut(c, off, on, j.coupon);
    AcceptedAt(Off(c), off, j);
    AcceptedAt(On(c), on, j);
    SameSynced(c, off, on, j.session, slots);
    var p := NextPosition(off, j.session, slots);
    var a, b := Handle(Off(c), off, j).0, Handle(On(c), on, j).0;
    var m := on.coupons[j.coupon := MarkedCoupon(on.coupons[j.coupon], slots, p, j.at)];
    MarkSimulates(c, off, on, j, slots, p);
    assert Simulates(c, a, b.(coupons := m));
    SimulatesCounts(c, a, b.(coupons := m));
    if b.coupons != m {
      InvalidationSimulates(c, a, b.(coupons := m), j.user, j.session);
    }
  }

  /** Marking one coupon in both runs. */
  lemma MarkSimulates(c: Config, off: World, on: World, j: Job, slots: int, p: int)
    requires Simulates(c, off, on) && WellQueued(off, j) && j.coupon in off.coupons
    requires off.coupons[j.coupon].appliedAt.None? && on.coupons[j.coupon] == off.coupons[j.coupon]
    ensures var a := off.coupons[j.coupon := MarkedCoupon(off.coupons[j.coupon], slots, p, j.at)];
      var b := on.coupons[j.coupon := MarkedCoupon(on.coupons[j.coupon], slots, p, j.at)];
      forall id :: id in off.coupons ==> StruckOut(c, off.(coupons := a), on.(coupons := b), id)
  {
    var a := off.coupons[j.coupon := MarkedCoupon(off.coupons[j.coupon], slots, p, j.at)];
    var b := on.coupons[j.coupon := MarkedCoupon(on.coupons[j.coupon], slots, p, j.at)];
    MarkCounts(off.coupons, j.coupon, slots, p, j.at, j.session);
    forall id | id in off.coupons ensures StruckOut(c, off.(coupons := a), on.(coupons := b), id) {
      assert StruckOut(c, off, on, id);
    }
  }

  lemma OneJobSame(c: Config, off: World, on: World, j: Job)
    requires SameRun(c, off, on) && WellQueued(off, j)
    ensures SameRun(c, Handle(Off(c), off, j).0, Handle(On(c), on, j).0)
    ensures SameOutcome(Handle(Off(c), off, j).1, Handle(On(c), on, j).1)
  {
    StruckOutAtCap(c, off, on, j);
    if !Valid(on, j) {
      RejectedEarly(On(c), on, j);
      if Valid(off, j) {
        RejectedAtCap(Off(c), off, j);
      } else {
        RejectedEarly(Off(c), off, j);
      }
    } else if !UnderCap(c, off, j) {
      RejectedAtCap(Off(c), off, j);
      RejectedAtCap(On(c), on, j);
      InvalidationSimulates(c, off, on, j.user, j.session);
    } else if !Eligible(c, off, j) {
      RejectedFull(Off(c), off, j);
      RejectedFull(On(c), on, j);
      if off.sessions[j.session].profile in off.profiles {
        SameSynced(c, off, on, j.session, SlotsOf(off, j.session));
      }
    } else if off.coupons[j.coupon].appliedAt.None? {
      SameAccepted(c, off, on, j);
    } else {
      assert StruckOut(c, off, on, j.coupon);
      RejectedApplied(Off(c), off, j);
      RejectedApplied(On(c), on, j);
      SameSynced(c, off, on, j.session, SlotsOf(off, j.session));
    }
  }

  /** No job of a queue moves another one's coupon to another session. */
  lemma {:induction false} FinishKeepsQueued(c: Config, w: World, j: Job, l: Local, k: Job)
    requires WellQueued(w, k)
    ensures WellQueued(Finish(c, w, j, l).0, k)
    decreases StatementsLeft(l)
  {
    if !IsFinal(l) {
      var r := Step(c, w, j, l, true);
      StepFrame(c, w, j, l, true);
      StepProgress(c, w, j, l, true);
      FinishKeepsQueued(c, r.0, j, r.1, k);
    }
  }

  lemma {:induction false} QueueSame(c: Config, off: World, on: World, jobs: seq<Job>)
    requires SameRun(c, off, on) && forall i :: 0 <= i < |jobs| ==> WellQueued(off, jobs[i])
    ensures var a, b := HandleAll(Off(c), off, jobs), HandleAll(On(c), on, jobs);
      && SameRun(c, a.0, b.0) && |a.1| == |b.1| == |jobs|
      && forall i :: 0 <= i < |jobs| ==> SameOutcome(a.1[i], b.1[i])
    decreases |jobs|
  {
    if jobs != [] {
      OneJobSame(c, off, on, jobs[0]);
      var a, b := Handle(Off(c), off, jobs[0]), Handle(On(c), on, jobs[0]);
      forall i | 0 <= i < |jobs[1..]| ensures WellQueued(a.0, jobs[1..][i]) {
        FinishKeepsQueued(Off(c), off, jobs[0], LoadSession, jobs[i + 1]);
      }
      QueueSame(c, a.0, b.0, jobs[1..]);
    }
  }

  /** Turning invalidation on or off never changes who wins, the positions, the rewards,
      the sessions or the counters, whatever these were; coupons differ in `is_valid` at
      most, and a job in the reason for its rejection at most. */
  lemma InvalidationChangesNoWinner(c: Config, w: World, jobs: seq<Job>)
    requires forall i :: 0 <= i < |jobs| ==> WellQueued(w, jobs[i])
    ensures var on, off := HandleAll(On(c), w, jobs), HandleAll(Off(c), w, jobs);
      && on.0.rewards == off.0.rewards && on.0.sessions == off.0.sessions && on.0.applied == off.0.applied
      && on.0.coupons.Keys == off.0.coupons.Keys
      && (forall id :: id in on.0.coupons ==>
            on.0.coupons[id].(isValid := true) == off.0.coupons[id].(isValid := true))
      && |on.1| == |off.1| == |jobs|
      && (forall i :: 0 <= i < |jobs| ==> on.1[i] == off.1[i] || (on.1[i].Rejected? && off.1[i].Rejected?))
  {
    SimulatesSelf(c, w);
    QueueSame(c, w, w, jobs);
    var on, off := HandleAll(On(c), w, jobs), HandleAll(Off(c), w, jobs);
    forall id | id in on.0.coupons
      ensures on.0.coupons[id].(isValid := true) == off.0.coupons[id].(isValid := true)
    {
      assert StruckOut(c, off.0, on.0, id);
    }
    forall i | 0 <= i < |jobs| ensures on.1[i] == off.1[i] || (on.1[i].Rejected? && off.1[i].Rejected?) {
      assert SameOutcome(off.1[i], on.1[i]);
    }
  }
}
