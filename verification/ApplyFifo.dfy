/** The queue's specification in closed form: which jobs are accepted is decided
    by counting the jobs accepted before them, and a position is an index. */
module ApplyFifo {
  import opened Schema
  import opened ApplyCoupon
  import opened ApplyQueue

  /** How many of the accepted jobs went to the session. */
  function InSession(acc: seq<Job>, session: int): nat
    decreases |acc|
  {
    if acc == [] then 0
    else InSession(acc[..|acc| - 1], session) + (if acc[|acc| - 1].session == session then 1 else 0)
  }

  function ByUser(acc: seq<Job>, user: int, session: int): nat
    decreases |acc|
  {
    if acc == [] then 0
    else ByUser(acc[..|acc| - 1], user, session)
         + (if acc[|acc| - 1].session == session && acc[|acc| - 1].user == user then 1 else 0)
  }

  predicate Names(acc: seq<Job>, coupon: int) {
    exists i :: 0 <= i < |acc| && acc[i].coupon == coupon
  }

  /** With `acc` accepted so far, does `j` get in?  Only the state before the first
      job and the jobs in `acc` matter. */
  predicate Admits(c: Config, w: World, acc: seq<Job>, j: Job) {
    && j.session in w.sessions && w.sessions[j.session].status == Written(Live)
    && w.sessions[j.session].profile in w.profiles
    && j.coupon in w.coupons && !Names(acc, j.coupon)
    && w.coupons[j.coupon].user == j.user && w.coupons[j.coupon].isValid && !w.coupons[j.coupon].isRedeemed
    && (SlotsOf(w, j.session) > 0 ==>
          |AppliedIn(w.coupons, j.session)| + InSession(acc, j.session) < SlotsOf(w, j.session))
    && (HasCap(c) ==>
          |WinsOf(w.coupons, j.user, j.session)|
          + (if SlotsOf(w, j.session) >= 0 then ByUser(acc, j.user, j.session) else 0) < c.cap.value)
  }

  function Accepts(c: Config, w: World, acc: seq<Job>, jobs: seq<Job>): seq<Job>
    decreases |jobs|
  {
    if jobs == [] then acc
    else Accepts(c, w, if Admits(c, w, acc, jobs[0]) then acc + [jobs[0]] else acc, jobs[1..])
  }

  /** Index + 1 within the session, after what was applied before the run. */
  function PositionOf(w: World, acc: seq<Job>, i: nat): int
    requires i < |acc|
  {
    |AppliedIn(w.coupons, acc[i].session)| + InSession(acc[..i], acc[i].session) + 1
  }

  /** One reward for each accepted job whose session's limit is not negative, in order. */
  function RewardsFor(w: World, acc: seq<Job>): seq<Reward>
    decreases |acc|
  {
    if acc == [] then []
    else
      var j, rest := acc[|acc| - 1], RewardsFor(w, acc[..|acc| - 1]);
      if j.session in w.sessions && w.sessions[j.session].profile in w.profiles && SlotsOf(w, j.session) >= 0
      then rest + [Reward(j.session, j.user, j.coupon, w.sessions[j.session].profile)] else rest
  }

  /** `v` is `w` after the jobs in `acc`, and only those, were granted in order. */
  ghost predicate Tracks(w: World, acc: seq<Job>, v: World) {
    && v.profiles == w.profiles && v.coupons.Keys == w.coupons.Keys && v.sessions.Keys == w.sessions.Keys
    && (forall s :: |AppliedIn(v.coupons, s)| == |AppliedIn(w.coupons, s)| + InSession(acc, s))
    && (forall u, s :: s in w.sessions && w.sessions[s].profile in w.profiles ==>
          |WinsOf(v.coupons, u, s)|
          == |WinsOf(w.coupons, u, s)| + (if SlotsOf(w, s) >= 0 then ByUser(acc, u, s) else 0))
    && (forall id :: id in w.coupons && !Names(acc, id) ==> v.coupons[id] == w.coupons[id])
    && (forall i :: 0 <= i < |acc| ==> GrantedAt(w, acc, v, i))
    && v.rewards == w.rewards + RewardsFor(w, acc)
    && (forall s :: s in w.sessions ==> SessionAfter(w, acc, v, s))
  }

  ghost predicate GrantedAt(w: World, acc: seq<Job>, v: World, i: nat)
    requires i < |acc|
  {
    var j := acc[i];
    && j.session in w.sessions && w.sessions[j.session].profile in w.profiles
    && j.coupon in w.coupons && j.coupon in v.coupons && w.coupons[j.coupon].appliedAt.None?
    && v.coupons[j.coupon] == MarkedCoupon(w.coupons[j.coupon], SlotsOf(w, j.session), PositionOf(w, acc, i), j.at)
    && (SlotsOf(w, j.session) > 0 ==> PositionOf(w, acc, i) <= SlotsOf(w, j.session))
  }

  ghost predicate SessionAfter(w: World, acc: seq<Job>, v: World, s: int)
    requires s in w.sessions && s in v.sessions
  {
    && v.sessions[s].profile == w.sessions[s].profile
    && v.sessions[s].participants == w.sessions[s].participants + InSession(acc, s)
    && (InSession(acc, s) == 0 ==> v.sessions[s] == w.sessions[s])
    && (InSession(acc, s) > 0 ==>
          && w.sessions[s].status == Written(Live) && w.sessions[s].profile in w.profiles
          && var full := SlotsOf(w, s) > 0 && |AppliedIn(w.coupons, s)| + InSession(acc, s) == SlotsOf(w, s);
             && v.sessions[s].status == Written(if full then Completed else Live)
             && v.sessions[s].isActive == (w.sessions[s].isActive && !full))
  }

  lemma TracksStart(w: World)
    ensures Tracks(w, [], w)
  {
  }

  /** In step with the accepted jobs, the specification's own test and the closed
      form decide alike. */
  lemma {:induction false} EligibleIsAdmits(c: Config, w: World, acc: seq<Job>, v: World, j: Job)
    requires Tracks(w, acc, v) && CouponFit(w, j.coupon) && WellQueued(w, j)
    ensures Eligible(c, v, j) <==> Admits(c, w, acc, j)
  {
    if j.session in w.sessions {
      assert SessionAfter(w, acc, v, j.session);
    }
    if Names(acc, j.coupon) {
      var i :| 0 <= i < |acc| && acc[i].coupon == j.coupon;
      assert GrantedAt(w, acc, v, i);
      assert v.coupons[j.coupon].isRedeemed;
    }
  }

  lemma {:induction false} ServeTracks(c: Config, w: World, acc: seq<Job>, v: World, j: Job)
    requires Tracks(w, acc, v) && CouponFit(w, j.coupon) && WellQueued(w, j) && Admits(c, w, acc, j)
    ensures Tracks(w, acc + [j], Grant(v, j))
  {
    var acc' := acc + [j];
    assert acc'[..|acc|] == acc && acc'[|acc|] == j;
    assert SessionAfter(w, acc, v, j.session);
    assert v.coupons[j.coupon] == w.coupons[j.coupon];
    CouponsAdvance(w, acc, v, j);
    SessionsAdvance(w, acc, v, j);
    WinsAdvance(w, acc, v, j);
    RewardsAdvance(w, acc, v, j);
    GrantKeepsSlots(v, j);
  }

  lemma {:induction false} CouponsAdvance(w: World, acc: seq<Job>, v: World, j: Job)
    requires Tracks(w, acc, v) && j.session in w.sessions && w.sessions[j.session].profile in w.profiles
    requires SessionAfter(w, acc, v, j.session) && j.coupon in w.coupons && !Names(acc, j.coupon)
    requires w.coupons[j.coupon].appliedAt.None?
    requires SlotsOf(w, j.session) > 0 ==>
      |AppliedIn(w.coupons, j.session)| + InSession(acc, j.session) < SlotsOf(w, j.session)
    ensures forall i :: 0 <= i < |acc| + 1 ==> GrantedAt(w, acc + [j], Grant(v, j), i)
    ensures forall id :: id in w.coupons && !Names(acc + [j], id) ==> Grant(v, j).coupons[id] == w.coupons[id]
  {
    var acc' := acc + [j];
    var v' := Grant(v, j);
    assert acc'[..|acc|] == acc;
    forall i | 0 <= i < |acc| + 1 ensures GrantedAt(w, acc', v', i) {
      if i < |acc| {
        assert acc'[..i] == acc[..i];
        assert GrantedAt(w, acc, v, i);
      }
    }
    forall id | id in w.coupons && !Names(acc', id) ensures v'.coupons[id] == w.coupons[id] {
      assert acc'[|acc|] == j;
      assert forall i :: 0 <= i < |acc| ==> acc'[i] == acc[i];
    }
  }

  lemma {:induction false} RewardsAdvance(w: World, acc: seq<Job>, v: World, j: Job)
    requires Tracks(w, acc, v) && j.session in w.sessions && w.sessions[j.session].profile in w.profiles
    requires SessionAfter(w, acc, v, j.session) && j.coupon in v.coupons
    requires SlotsOf(w, j.session) > 0 ==>
      |AppliedIn(w.coupons, j.session)| + InSession(acc, j.session) < SlotsOf(w, j.session)
    ensures Grant(v, j).rewards == w.rewards + RewardsFor(w, acc + [j])
  {
    assert (acc + [j])[..|acc|] == acc;
    assert IsWinner(SlotsOf(v, j.session), |AppliedIn(v.coupons, j.session)| + 1) <==> SlotsOf(w, j.session) >= 0;
  }

  lemma {:induction false} SessionsAdvance(w: World, acc: seq<Job>, v: World, j: Job)
    requires Tracks(w, acc, v) && j.session in w.sessions && w.sessions[j.session].profile in w.profiles
    requires j.coupon in v.coupons && w.sessions[j.session].status == Written(Live)
    requires SlotsOf(w, j.session) > 0 ==>
      |AppliedIn(w.coupons, j.session)| + InSession(acc, j.session) < SlotsOf(w, j.session)
    requires SessionAfter(w, acc, v, j.session)
    ensures Grant(v, j).sessions.Keys == w.sessions.Keys
    ensures forall s :: s in w.sessions ==> SessionAfter(w, acc + [j], Grant(v, j), s)
  {
    var acc' := acc + [j];
    assert acc'[..|acc|] == acc && acc'[|acc|] == j;
    forall s | s in w.sessions ensures SessionAfter(w, acc', Grant(v, j), s) {
      assert SessionAfter(w, acc, v, s);
    }
  }

  lemma {:induction false} WinsAdvance(w: World, acc: seq<Job>, v: World, j: Job)
    requires Tracks(w, acc, v) && j.session in w.sessions && w.sessions[j.session].profile in w.profiles
    requires SessionAfter(w, acc, v, j.session) && j.coupon in v.coupons
    requires v.coupons[j.coupon].session == Some(j.session) && v.coupons[j.coupon].appliedAt.None?
    requires v.coupons[j.coupon].user == j.user
    requires SlotsOf(w, j.session) > 0 ==> |AppliedIn(v.coupons, j.session)| < SlotsOf(w, j.session)
    ensures forall u, s :: s in w.sessions && w.sessions[s].profile in w.profiles ==>
      |WinsOf(Grant(v, j).coupons, u, s)|
      == |WinsOf(w.coupons, u, s)| + (if SlotsOf(w, s) >= 0 then ByUser(acc + [j], u, s) else 0)
  {
    forall u, s | s in w.sessions && w.sessions[s].profile in w.profiles
      ensures |WinsOf(Grant(v, j).coupons, u, s)|
           == |WinsOf(w.coupons, u, s)| + (if SlotsOf(w, s) >= 0 then ByUser(acc + [j], u, s) else 0)
    {
      GrantWins(v, j, u, s);
      ByUserGrows(acc, j, u, s);
    }
  }

  /** Granting a coupon is a win unless the limit is negative. */
  lemma GrantWins(v: World, j: Job, u: int, s: int)
    requires j.session in v.sessions && v.sessions[j.session].profile in v.profiles && j.coupon in v.coupons
    requires v.coupons[j.coupon].session == Some(j.session) && v.coupons[j.coupon].appliedAt.None?
    requires SlotsOf(v, j.session) > 0 ==> |AppliedIn(v.coupons, j.session)| < SlotsOf(v, j.session)
    ensures |WinsOf(Grant(v, j).coupons, u, s)|
         == |WinsOf(v.coupons, u, s)|
            + (if s == j.session && u == v.coupons[j.coupon].user && SlotsOf(v, j.session) >= 0 then 1 else 0)
  {
    MarkWins(v.coupons, j.coupon, SlotsOf(v, j.session), |AppliedIn(v.coupons, j.session)| + 1, j.at, u, s);
  }

  lemma ByUserGrows(acc: seq<Job>, j: Job, u: int, s: int)
    ensures ByUser(acc + [j], u, s) == ByUser(acc, u, s) + (if j.user == u && j.session == s then 1 else 0)
  {
    assert (acc + [j])[..|acc|] == acc;
  }

  lemma ServeStepTracks(c: Config, w: World, acc: seq<Job>, v: World, j: Job)
    requires Tracks(w, acc, v) && CouponFit(w, j.coupon) && WellQueued(w, j)
    ensures Eligible(c, v, j) <==> Admits(c, w, acc, j)
    ensures Tracks(w, if Admits(c, w, acc, j) then acc + [j] else acc, Serve(c, v, j))
  {
    EligibleIsAdmits(c, w, acc, v, j);
    if Admits(c, w, acc, j) {
      ServeTracks(c, w, acc, v, j);
    }
  }

  /** The two specifications make the same decision at every job of the queue. */
  ghost predicate InStep(c: Config, w: World, acc: seq<Job>, v: World, jobs: seq<Job>)
    decreases |jobs|
  {
    jobs != [] ==>
      && (Eligible(c, v, jobs[0]) <==> Admits(c, w, acc, jobs[0]))
      && InStep(c, w, if Admits(c, w, acc, jobs[0]) then acc + [jobs[0]] else acc, Serve(c, v, jobs[0]), jobs[1..])
  }

  lemma {:induction false} StaysInStep(c: Config, w: World, acc: seq<Job>, v: World, jobs: seq<Job>)
    requires Tracks(w, acc, v)
    requires forall i :: 0 <= i < |jobs| ==> WellQueued(w, jobs[i]) && CouponFit(w, jobs[i].coupon)
    ensures InStep(c, w, acc, v, jobs)
    ensures Tracks(w, Accepts(c, w, acc, jobs), ServeAll(c, v, jobs))
    decreases |jobs|
  {
    if jobs != [] {
      ServeStepTracks(c, w, acc, v, jobs[0]);
      StaysInStep(c, w, if Admits(c, w, acc, jobs[0]) then acc + [jobs[0]] else acc, Serve(c, v, jobs[0]), jobs[1..]);
    }
  }

  lemma {:induction false} ServedIsAccepts(c: Config, w: World, acc: seq<Job>, v: World, jobs: seq<Job>)
    requires InStep(c, w, acc, v, jobs)
    ensures Accepts(c, w, acc, jobs) == acc + Served(c, v, jobs)
    decreases |jobs|
  {
    if jobs != [] {
      var one := if Eligible(c, v, jobs[0]) then [jobs[0]] else [];
      var rest := Served(c, Serve(c, v, jobs[0]), jobs[1..]);
      assert acc + one == if Admits(c, w, acc, jobs[0]) then acc + [jobs[0]] else acc;
      ServedIsAccepts(c, w, acc + one, Serve(c, v, jobs[0]), jobs[1..]);
      assert (acc + one) + rest == acc + (one + rest);
    }
  }

  /** How the i-th accepted coupon ends: applied at its job's time, redeemed, at its
      index plus one, and a winner unless the limit is negative. */
  predicate AppliedAs(w: World, acc: seq<Job>, i: nat, k: Coupon)
    requires i < |acc|
  {
    var j := acc[i];
    && j.session in w.sessions && w.sessions[j.session].profile in w.profiles && j.coupon in w.coupons
    && k.appliedAt == Some(j.at) && k.isRedeemed && k.position == Some(PositionOf(w, acc, i))
    && k.session == w.coupons[j.coupon].session && k.user == w.coupons[j.coupon].user
    && k.status == (if SlotsOf(w, j.session) >= 0 then Winner else AppliedLate)
  }

  /** First come, first served: draining any queue with the handler applies exactly
      the jobs that the closed form accepts, each at its index plus one within its
      session, and leaves every other coupon as it was, up to `is_valid`. */
  lemma FifoTheorem(c: Config, w: World, jobs: seq<Job>)
    requires QueueFit(w, jobs)
    ensures var acc := Accepts(c, w, [], jobs);
      var r := HandleAll(c, w, jobs).0;
      && acc == Served(c, w, jobs)
      && r.coupons.Keys == w.coupons.Keys
      && (forall i :: 0 <= i < |acc| ==> acc[i].coupon in r.coupons && AppliedAs(w, acc, i, r.coupons[acc[i].coupon]))
      && (forall id :: id in w.coupons && !Names(acc, id) ==>
            r.coupons[id].(isValid := w.coupons[id].isValid) == w.coupons[id])
      && r.sessions.Keys == w.sessions.Keys && (forall s :: s in w.sessions ==> SessionAfter(w, acc, r, s))
      && r.rewards == w.rewards + RewardsFor(w, acc)
  {
    SimulatesSelf(c, w);
    TracksStart(w);
    QueueRefines(c, w, w, jobs);
    StaysInStep(c, w, [], w, jobs);
    ServedIsAccepts(c, w, [], w, jobs);
    ResultOfAccepted(c, w, Accepts(c, w, [], jobs), ServeAll(c, w, jobs), HandleAll(c, w, jobs).0);
  }

  lemma {:induction false} ResultOfAccepted(c: Config, w: World, acc: seq<Job>, v: World, r: World)
    requires Tracks(w, acc, v) && Simulates(c, v, r)
    ensures r.coupons.Keys == w.coupons.Keys
    ensures forall i :: 0 <= i < |acc| ==> acc[i].coupon in r.coupons && AppliedAs(w, acc, i, r.coupons[acc[i].coupon])
    ensures forall id :: id in w.coupons && !Names(acc, id) ==>
      r.coupons[id].(isValid := w.coupons[id].isValid) == w.coupons[id]
    ensures r.sessions.Keys == w.sessions.Keys && forall s :: s in w.sessions ==> SessionAfter(w, acc, r, s)
  {
    forall i | 0 <= i < |acc| ensures acc[i].coupon in r.coupons && AppliedAs(w, acc, i, r.coupons[acc[i].coupon]) {
      assert GrantedAt(w, acc, v, i);
      assert StruckOut(c, v, r, acc[i].coupon);
    }
    forall id | id in w.coupons && !Names(acc, id)
      ensures r.coupons[id].(isValid := w.coupons[id].isValid) == w.coupons[id]
    {
      assert StruckOut(c, v, r, id);
    }
    forall s | s in w.sessions ensures SessionAfter(w, acc, r, s) {
      assert SessionAfter(w, acc, v, s);
    }
  }

  /** An accepted application is a winner, unless the limit is negative: the status
      `applied_late` needs a negative `max_slots`. */
  lemma AcceptedWinsUnlessNegative(c: Config, w: World, j: Job)
    requires WellQueued(w, j) && Eligible(c, w, j) && w.coupons[j.coupon].appliedAt.None?
    requires Counter(w.applied, j.session) >= 0
    ensures Handle(c, w, j).1.Accepted?
    ensures Handle(c, w, j).1.winner <==> SlotsOf(w, j.session) >= 0
  {
    AcceptedAt(c, w, j);
  }

  /** Without a slot limit nothing corrects the counter: the next position is the
      session's next index exactly when the counter equals the applied count. */
  lemma UnlimitedPositionNeedsCounter(c: Config, w: World, j: Job)
    requires Eligible(c, w, j) && WellQueued(w, j) && w.coupons[j.coupon].appliedAt.None?
    requires SlotsOf(w, j.session) <= 0
    ensures Handle(c, w, j).1.Accepted?
    ensures Handle(c, w, j).1.position == |AppliedIn(w.coupons, j.session)| + 1
        <==> Counter(w.applied, j.session) == |AppliedIn(w.coupons, j.session)|
  {
    AcceptedAt(c, w, j);
  }
}
