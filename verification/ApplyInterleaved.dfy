/** Any number of apply jobs whose statements interleave freely: what holds with
    no assumption at all (each coupon is applied once), and what needs the resync
    kept apart from jobs that hold a slot (the slot limit). */
module ApplyInterleaved {
  import opened Schema
  import opened ApplyCoupon
  import opened ApplyQueue
  import opened ApplyCrashes

  datatype Proc = Alive(j: Job, l: Local) | Dead

  /** `applier` records, for every coupon marked during the run, the job that did it. */
  datatype System = System(w: World, procs: map<int, Proc>, applier: map<int, int>)

  datatype Move =
    | Spawn(id: int, j: Job)
    | Go(id: int, up: bool)
    | Kill(id: int)
    | LoseCounters(left: map<int, int>)

  predicate IsAlive(s: System, id: int) { id in s.procs && s.procs[id].Alive? }

  predicate CanMove(s: System, m: Move) {
    match m
    case Spawn(id, _) => id !in s.procs
    case Go(id, _) => IsAlive(s, id) && !IsFinal(s.procs[id].l)
    case Kill(id) => IsAlive(s, id)
    case LoseCounters(_) => true
  }

  /** The conditional update of this job finds the coupon unapplied. */
  predicate Marks(w: World, j: Job, l: Local) {
    l.MarkCoupon? && j.coupon in w.coupons && w.coupons[j.coupon].appliedAt.None?
  }

  function MoveOn(c: Config, s: System, m: Move): System
    requires CanMove(s, m)
  {
    match m
    case Spawn(id, j) => s.(procs := s.procs[id := Alive(j, LoadSession)])
    case Go(id, up) =>
      var p := s.procs[id];
      var r := Step(c, s.w, p.j, p.l, up);
      System(r.0, s.procs[id := Alive(p.j, r.1)],
             if Marks(s.w, p.j, p.l) then s.applier[p.j.coupon := id] else s.applier)
    case Kill(id) => s.(procs := s.procs[id := Dead])
    case LoseCounters(left) => s.(w := s.w.(applied := left))
  }

  predicate IsTrace(c: Config, s: System, ms: seq<Move>)
    decreases |ms|
  {
    ms == [] || (CanMove(s, ms[0]) && IsTrace(c, MoveOn(c, s, ms[0]), ms[1..]))
  }

  function Trace(c: Config, s: System, ms: seq<Move>): System
    requires IsTrace(c, s, ms)
    decreases |ms|
  {
    if ms == [] then s else Trace(c, MoveOn(c, s, ms[0]), ms[1..])
  }

  // ----- Exactly once --------------------------------------------------------------------

  /** Past the conditional update: this job has applied its coupon. */
  predicate HasApplied(l: Local) {
    l.CreateReward? || l.CountWinsAgain? || l.InvalidateAfterWin? || l.UpdateSession? || l.Accepted?
  }

  /** Each reward belongs to an applied winner, and no coupon has two. */
  ghost predicate RewardsOk(w: World) {
    && (forall i :: 0 <= i < |w.rewards| ==>
          w.rewards[i].coupon in w.coupons && w.coupons[w.rewards[i].coupon].appliedAt.Some?
          && w.coupons[w.rewards[i].coupon].status == Winner)
    && (forall i, k :: 0 <= i < k < |w.rewards| ==> w.rewards[i].coupon != w.rewards[k].coupon)
  }

  ghost predicate Unrewarded(w: World, coupon: int) {
    forall i :: 0 <= i < |w.rewards| ==> w.rewards[i].coupon != coupon
  }

  ghost predicate ProcOk(s: System, id: int)
    requires IsAlive(s, id)
  {
    var p := s.procs[id];
    HasApplied(p.l) ==>
      && p.j.coupon in s.applier && s.applier[p.j.coupon] == id
      && p.j.coupon in s.w.coupons
      && s.w.coupons[p.j.coupon].appliedAt == Some(p.j.at)
      && s.w.coupons[p.j.coupon].position == Some(p.l.position)
      && (p.l.CreateReward? ==> s.w.coupons[p.j.coupon].status == Winner && Unrewarded(s.w, p.j.coupon))
  }

  ghost predicate OnceInv(s: System) {
    && RewardsOk(s.w)
    && (forall k :: k in s.applier ==> k in s.w.coupons && s.w.coupons[k].appliedAt.Some?)
    && (forall id :: IsAlive(s, id) ==> ProcOk(s, id))
  }

  /** Nothing a job does touches the application data of an applied coupon, and a
      coupon becomes applied only through the conditional update. */
  ghost predicate AppliedStay(a: map<int, Coupon>, b: map<int, Coupon>) {
    a.Keys == b.Keys && forall id :: id in a && a[id].appliedAt.Some? ==>
      b[id].appliedAt == a[id].appliedAt && b[id].position == a[id].position && b[id].status == a[id].status
  }

  lemma StepAppliedStay(c: Config, w: World, j: Job, l: Local, up: bool)
    requires !IsFinal(l)
    ensures AppliedStay(w.coupons, Step(c, w, j, l, up).0.coupons)
  {
    var after := Step(c, w, j, l, up).0.coupons;
    if l.InvalidateAtCap? {
      assert after == InvalidateRemaining(w.coupons, j.user, l.winSession);
    } else if l.InvalidateAfterWin? {
      assert after == InvalidateRemaining(w.coupons, j.user, j.session);
    } else if !Marks(w, j, l) {
      assert after == w.coupons;
    }
  }

  lemma StepRewards(c: Config, w: World, j: Job, l: Local, up: bool)
    requires !IsFinal(l)
    ensures Step(c, w, j, l, up).0.rewards
         == if l.CreateReward? then w.rewards + [Reward(j.session, j.user, j.coupon, l.session.profile)] else w.rewards
    ensures HasApplied(Step(c, w, j, l, up).1) <==> HasApplied(l) || Marks(w, j, l)
    ensures HasApplied(l) ==> Step(c, w, j, l, up).1.position == l.position && !Step(c, w, j, l, up).1.CreateReward?
  {
  }

  lemma MarkEffect(c: Config, w: World, j: Job, l: Local, up: bool)
    requires Marks(w, j, l)
    ensures var r := Step(c, w, j, l, up);
      && r.0 == w.(coupons := w.coupons[j.coupon := MarkedCoupon(w.coupons[j.coupon], l.slots, l.position, j.at)])
      && (r.1.CreateReward? || r.1.UpdateSession?) && r.1.position == l.position
      && (r.1.CreateReward? ==> r.0.coupons[j.coupon].status == Winner)
  {
  }

  lemma GoKeepsOnce(c: Config, s: System, id: int, up: bool)
    requires OnceInv(s) && CanMove(s, Go(id, up))
    ensures OnceInv(MoveOn(c, s, Go(id, up)))
  {
    var p := s.procs[id];
    var s' := MoveOn(c, s, Go(id, up));
    StepAppliedStay(c, s.w, p.j, p.l, up);
    StepRewards(c, s.w, p.j, p.l, up);
    assert ProcOk(s, id);
    if Marks(s.w, p.j, p.l) {
      MarkEffect(c, s.w, p.j, p.l, up);
      assert p.j.coupon !in s.applier;
    }
    forall k | IsAlive(s', k) ensures ProcOk(s', k) {
      if k != id {
        assert ProcOk(s, k);
      }
    }
  }

  lemma {:induction false} TraceKeepsOnce(c: Config, s: System, ms: seq<Move>)
    requires OnceInv(s) && IsTrace(c, s, ms)
    ensures OnceInv(Trace(c, s, ms))
    ensures AppliedStay(s.w.coupons, Trace(c, s, ms).w.coupons)
    ensures forall k :: k in s.applier ==>
      k in Trace(c, s, ms).applier && Trace(c, s, ms).applier[k] == s.applier[k]
    decreases |ms|
  {
    if ms != [] {
      var s' := MoveOn(c, s, ms[0]);
      match ms[0] {
        case Go(id, up) =>
          GoKeepsOnce(c, s, id, up);
          StepAppliedStay(c, s.w, s.procs[id].j, s.procs[id].l, up);
        case Spawn(id, j) =>
          forall k | IsAlive(s', k) ensures ProcOk(s', k) {
            if k != id { assert ProcOk(s, k); }
          }
        case Kill(id) =>
          forall k | IsAlive(s', k) ensures ProcOk(s', k) {
            assert ProcOk(s, k);
          }
        case LoseCounters(_) =>
          forall k | IsAlive(s', k) ensures ProcOk(s', k) {
            assert ProcOk(s, k);
          }
      }
      TraceKeepsOnce(c, s', ms[1..]);
    }
  }

  /** Exactly once, whatever interleaves, crashes or loses counters.  Of two jobs
      that got past the conditional update, no two have the same coupon; a coupon
      applied at some point of the run keeps its time, position and applier for the
      rest of it; and every reward is the only one of an applied winner. */
  lemma AppliedExactlyOnce(c: Config, s: System, ms: seq<Move>, more: seq<Move>)
    requires s.procs == map[] && s.applier == map[] && RewardsOk(s.w)
    requires IsTrace(c, s, ms) && IsTrace(c, Trace(c, s, ms), more)
    ensures var t := Trace(c, s, ms);
      forall a, b :: IsAlive(t, a) && IsAlive(t, b) && a != b && HasApplied(t.procs[a].l) && HasApplied(t.procs[b].l) ==>
        t.procs[a].j.coupon != t.procs[b].j.coupon
    ensures var t, u := Trace(c, s, ms), Trace(c, Trace(c, s, ms), more);
      && AppliedStay(t.w.coupons, u.w.coupons)
      && (forall k :: k in t.applier ==> k in u.applier && u.applier[k] == t.applier[k])
      && RewardsOk(u.w)
  {
    TraceKeepsOnce(c, s, ms);
    var t := Trace(c, s, ms);
    TraceKeepsOnce(c, t, more);
    forall a, b | IsAlive(t, a) && IsAlive(t, b) && a != b && HasApplied(t.procs[a].l) && HasApplied(t.procs[b].l)
      ensures t.procs[a].j.coupon != t.procs[b].j.coupon
    {
      assert ProcOk(t, a) && ProcOk(t, b);
    }
  }

  // ----- The slot limit --------------------------------------------------------------------

  /** Jobs that have incremented the counter and not yet accounted for it. */
  predicate Holds(p: Proc, session: int) {
    p.Alive? && (p.l.MarkCoupon? || p.l.GiveBack?) && p.j.session == session
  }

  function Holders(s: System, session: int): set<int> {
    set id | id in s.procs && Holds(s.procs[id], session)
  }

  /** Between the resync's count and its write. */
  predicate Resyncs(p: Proc, session: int) {
    p.Alive? && (p.l.ReadCounter? || p.l.WriteCounter?) && p.j.session == session
  }

  /** In session `x`, resync and slot taking exclude each other, and a loss of counters
      leaves that of `x` covering what it must.  Serial execution is the simplest way to
      ensure the first; what happens to other sessions and their counters is free. */
  ghost predicate Disciplined(s: System, m: Move, x: int) {
    match m
    case Spawn(_, j) => WellQueued(s.w, j)
    case Go(id, _) =>
      IsAlive(s, id) && s.procs[id].j.session == x ==>
        && (s.procs[id].l.CountApplied? ==> Holders(s, x) == {})
        && (s.procs[id].l.TakeSlot? ==> forall k :: k in s.procs ==> !Resyncs(s.procs[k], x))
    case Kill(_) => true
    case LoseCounters(left) => |AppliedIn(s.w.coupons, x)| + |Holders(s, x)| <= Counter(left, x)
  }

  ghost predicate IsDisciplined(c: Config, s: System, ms: seq<Move>, x: int)
    requires IsTrace(c, s, ms)
    decreases |ms|
  {
    ms != [] ==> Disciplined(s, ms[0], x) && IsDisciplined(c, MoveOn(c, s, ms[0]), ms[1..], x)
  }

  /** The counter covers the applied coupons and the held slots, within the limit. */
  ghost predicate SlotsOk(s: System, session: int)
    requires IsLimited(s.w, session)
  {
    |AppliedIn(s.w.coupons, session)| + |Holders(s, session)| <= Counter(s.w.applied, session)
    && |AppliedIn(s.w.coupons, session)| + |Holders(s, session)| <= SlotsOf(s.w, session)
  }

  ghost predicate JobSlots(w: World, j: Job, l: Local) {
    && WellQueued(w, j)
    && (HasSession(l) ==> j.session in w.sessions && l.session.profile == w.sessions[j.session].profile)
    && (HasSlots(l) ==> l.session.profile in w.profiles && l.slots == w.profiles[l.session.profile].maxSlots)
    && (IsResync(l) ==> l.slots > 0)
  }

  ghost predicate SlotInv(s: System, x: int) {
    && (IsLimited(s.w, x) ==> SlotsOk(s, x))
    && (forall id :: IsAlive(s, id) ==> JobSlots(s.w, s.procs[id].j, s.procs[id].l))
    && (forall id :: id in s.procs && Resyncs(s.procs[id], x) ==>
          Holders(s, x) == {} && s.procs[id].l.count == |AppliedIn(s.w.coupons, x)|)
  }

  lemma ReplaceOne(h: set<int>, h': set<int>, id: int, before: bool, after: bool)
    requires h' == (h - {id}) + (if after then {id} else {}) && (id in h <==> before)
    ensures |h'| == |h| - (if before then 1 else 0) + (if after then 1 else 0)
  {
    assert |h - {id}| == |h| - (if before then 1 else 0);
  }

  lemma HoldersReplaced(s: System, id: int, p: Proc, w: World, applier: map<int, int>, session: int)
    ensures Holders(System(w, s.procs[id := p], applier), session)
         == (Holders(s, session) - {id}) + (if Holds(p, session) then {id} else {})
  {
    var procs := s.procs[id := p];
    forall k | k in procs && k != id ensures procs[k] == s.procs[k] {
    }
    assert procs[id] == p;
  }

  /** Replacing one process changes the holders of a session by at most that one. */
  lemma HoldersUpdate(s: System, id: int, p: Proc, w: World, applier: map<int, int>, session: int)
    ensures var s' := System(w, s.procs[id := p], applier);
      && Holders(s', session) == (Holders(s, session) - {id}) + (if Holds(p, session) then {id} else {})
      && |Holders(s', session)| == |Holders(s, session)|
           - (if id in s.procs && Holds(s.procs[id], session) then 1 else 0)
           + (if Holds(p, session) then 1 else 0)
  {
    var h, h' := Holders(s, session), Holders(System(w, s.procs[id := p], applier), session);
    HoldersReplaced(s, id, p, w, applier, session);
    ReplaceOne(h, h', id, id in s.procs && Holds(s.procs[id], session), Holds(p, session));
  }

  lemma StepKeepsJobSlots(c: Config, w: World, j: Job, l: Local, up: bool)
    requires JobSlots(w, j, l) && !IsFinal(l)
    ensures JobSlots(Step(c, w, j, l, up).0, j, Step(c, w, j, l, up).1)
  {
    StepFrame(c, w, j, l, up);
    StepCarries(c, w, j, l, up);
    CarriedJobSlots(w, Step(c, w, j, l, up).0, j, l, Step(c, w, j, l, up).1);
  }

  lemma CarriedJobSlots(w: World, w': World, j: Job, l: Local, l': Local)
    requires JobSlots(w, j, l) && (Carries(w, j, l, l') || l' == l)
    requires w'.profiles == w.profiles && w'.sessions.Keys == w.sessions.Keys && w'.coupons.Keys == w.coupons.Keys
    requires forall s :: s in w.sessions ==> w'.sessions[s].profile == w.sessions[s].profile
    requires forall id :: id in w.coupons ==> w'.coupons[id].session == w.coupons[id].session
    ensures JobSlots(w', j, l')
  {
  }

  lemma StepApplied(c: Config, w: World, j: Job, l: Local, up: bool)
    requires !IsFinal(l) && WellQueued(w, j)
    ensures forall x :: |AppliedIn(Step(c, w, j, l, up).0.coupons, x)|
                     == |AppliedIn(w.coupons, x)| + (if Marks(w, j, l) && x == j.session then 1 else 0)
  {
    if Marks(w, j, l) {
      MarkCounts(w.coupons, j.coupon, l.slots, l.position, j.at, j.session);
    } else if l.InvalidateAtCap? {
      SameCounts(w.coupons, InvalidateRemaining(w.coupons, j.user, l.winSession));
    } else if l.InvalidateAfterWin? {
      SameCounts(w.coupons, InvalidateRemaining(w.coupons, j.user, j.session));
    } else if !l.MarkCoupon? {
      CouponsStay(c, w, j, l, up);
    }
  }

  /** How one statement moves the three numbers the limit is about. */
  lemma StepCounts(c: Config, w: World, j: Job, l: Local, up: bool)
    requires !IsFinal(l) && WellQueued(w, j)
    ensures var r := Step(c, w, j, l, up);
      && (forall x :: |AppliedIn(r.0.coupons, x)|
                      == |AppliedIn(w.coupons, x)| + (if Marks(w, j, l) && x == j.session then 1 else 0))
      && (forall x :: x != j.session ==> Counter(r.0.applied, x) == Counter(w.applied, x))
      && (!l.WriteCounter? && !l.TakeSlot? && !l.GiveBack? ==> r.0.applied == w.applied)
      && (r.1.MarkCoupon? <==> l.TakeSlot? && r.0.applied != w.applied)
      && (r.1.GiveBack? <==> l.MarkCoupon? && !Marks(w, j, l))
      && (r.1.ReadCounter? ==> l.CountApplied? && r.1.count == |AppliedIn(w.coupons, j.session)|)
      && (r.1.WriteCounter? ==> l.ReadCounter? && r.1.count == l.count)
  {
    StepApplied(c, w, j, l, up);
  }

  /** How one statement moves its session's counter. */
  lemma StepCounter(c: Config, w: World, j: Job, l: Local, up: bool)
    requires !IsFinal(l)
    ensures var r := Step(c, w, j, l, up);
      var before, after := Counter(w.applied, j.session), Counter(r.0.applied, j.session);
      && (l.WriteCounter? ==> after == if up then l.count else before)
      && (l.TakeSlot? ==> if r.1.MarkCoupon? then after == before + 1 && (l.slots > 0 ==> before < l.slots)
                          else after == before)
      && (l.GiveBack? ==> after == before || after == before - 1)
      && (!l.WriteCounter? && !l.TakeSlot? && !l.GiveBack? ==> after == before)
  {
    match l {
      case WriteCounter(_, _, _) =>
      case TakeSlot(_, _) =>
      case GiveBack =>
      case _ =>
    }
  }

  lemma GoKeepsSlotCounts(c: Config, s: System, id: int, up: bool, x: int)
    requires SlotInv(s, x) && CanMove(s, Go(id, up)) && Disciplined(s, Go(id, up), x)
    requires IsLimited(MoveOn(c, s, Go(id, up)).w, x)
    ensures SlotsOk(MoveOn(c, s, Go(id, up)), x)
  {
    var p := s.procs[id];
    var r := Step(c, s.w, p.j, p.l, up);
    StepFrame(c, s.w, p.j, p.l, up);
    StepCounts(c, s.w, p.j, p.l, up);
    StepCounter(c, s.w, p.j, p.l, up);
    StepCarries(c, s.w, p.j, p.l, up);
    SlotCountsAfter(s, MoveOn(c, s, Go(id, up)), id, r.0, r.1, x);
  }

  /** The bookkeeping behind slot conservation, on the three numbers alone. */
  lemma SlotCountsAfter(s: System, s': System, id: int, w': World, l': Local, x: int)
    requires SlotInv(s, x) && IsAlive(s, id) && IsLimited(s.w, x) && IsLimited(w', x)
    requires s'.w == w' && s'.procs == s.procs[id := Alive(s.procs[id].j, l')]
    requires w'.profiles == s.w.profiles && w'.sessions[x].profile == s.w.sessions[x].profile
    requires var j, l := s.procs[id].j, s.procs[id].l;
      var before, after := Counter(s.w.applied, j.session), Counter(w'.applied, j.session);
      && (forall y :: |AppliedIn(w'.coupons, y)|
                      == |AppliedIn(s.w.coupons, y)| + (if Marks(s.w, j, l) && y == j.session then 1 else 0))
      && (forall y :: y != j.session ==> Counter(w'.applied, y) == Counter(s.w.applied, y))
      && (l'.MarkCoupon? ==> l.TakeSlot?)
      && (l'.GiveBack? <==> l.MarkCoupon? && !Marks(s.w, j, l))
      && (l.WriteCounter? ==> after == before || after == l.count)
      && (l.TakeSlot? ==> if l'.MarkCoupon? then after == before + 1 && (l.slots > 0 ==> before < l.slots)
                          else after == before)
      && (l.GiveBack? ==> after == before || after == before - 1)
      && (!l.WriteCounter? && !l.TakeSlot? && !l.GiveBack? ==> after == before)
      && (l.TakeSlot? && j.session == x ==> forall k :: k in s.procs ==> !Resyncs(s.procs[k], x))
    ensures SlotsOk(s', x)
  {
    var p := s.procs[id];
    assert JobSlots(s.w, p.j, p.l);
    HoldersUpdate(s, id, s'.procs[id], w', s'.applier, x);
    assert s' == System(w', s.procs[id := s'.procs[id]], s'.applier);
    assert SlotsOk(s, x);
    if p.l.WriteCounter? && p.j.session == x {
      assert Resyncs(p, x);
    }
  }

  lemma GoKeepsResync(c: Config, s: System, id: int, up: bool, k: int, x: int)
    requires SlotInv(s, x) && CanMove(s, Go(id, up)) && Disciplined(s, Go(id, up), x)
    requires k in MoveOn(c, s, Go(id, up)).procs && Resyncs(MoveOn(c, s, Go(id, up)).procs[k], x)
    ensures var s' := MoveOn(c, s, Go(id, up));
      Holders(s', x) == {} && s'.procs[k].l.count == |AppliedIn(s'.w.coupons, x)|
  {
    var p := s.procs[id];
    var s' := MoveOn(c, s, Go(id, up));
    assert JobSlots(s.w, p.j, p.l);
    StepCounts(c, s.w, p.j, p.l, up);
    HoldersUpdate(s, id, s'.procs[id], s'.w, s'.applier, x);
    if k != id || p.l.ReadCounter? {
      assert Resyncs(s.procs[k], x);
      assert id in Holders(s, x) <==> Holds(p, x);
    }
  }

  lemma MoveKeepsSlots(c: Config, s: System, m: Move, x: int)
    requires SlotInv(s, x) && CanMove(s, m) && Disciplined(s, m, x)
    ensures SlotInv(MoveOn(c, s, m), x)
  {
    match m
    case Go(id, up) => GoKeepsSlots(c, s, id, up, x);
    case Spawn(id, j) => ReplaceKeepsSlots(s, id, Alive(j, LoadSession), x);
    case Kill(id) => ReplaceKeepsSlots(s, id, Dead, x);
    case LoseCounters(left) => LossKeepsSlots(s, left, x);
  }

  lemma GoKeepsSlots(c: Config, s: System, id: int, up: bool, x: int)
    requires SlotInv(s, x) && CanMove(s, Go(id, up)) && Disciplined(s, Go(id, up), x)
    ensures SlotInv(MoveOn(c, s, Go(id, up)), x)
  {
    var s' := MoveOn(c, s, Go(id, up));
    var p := s.procs[id];
    assert JobSlots(s.w, p.j, p.l);
    StepFrame(c, s.w, p.j, p.l, up);
    if IsLimited(s'.w, x) {
      GoKeepsSlotCounts(c, s, id, up, x);
    }
    forall k | IsAlive(s', k) ensures JobSlots(s'.w, s'.procs[k].j, s'.procs[k].l) {
      if k == id {
        StepKeepsJobSlots(c, s.w, p.j, p.l, up);
      } else {
        assert IsAlive(s, k);
        CarriedJobSlots(s.w, s'.w, s.procs[k].j, s.procs[k].l, s.procs[k].l);
      }
    }
    forall k | k in s'.procs && Resyncs(s'.procs[k], x)
      ensures Holders(s', x) == {} && s'.procs[k].l.count == |AppliedIn(s'.w.coupons, x)|
    {
      GoKeepsResync(c, s, id, up, k, x);
    }
  }

  lemma LossKeepsSlots(s: System, left: map<int, int>, x: int)
    requires SlotInv(s, x) && Disciplined(s, LoseCounters(left), x)
    ensures SlotInv(s.(w := s.w.(applied := left)), x)
  {
    var s' := s.(w := s.w.(applied := left));
    assert Holders(s', x) == Holders(s, x);
    forall k | IsAlive(s', k) ensures JobSlots(s'.w, s'.procs[k].j, s'.procs[k].l) {
      assert IsAlive(s, k);
    }
  }

  /** A job that starts or dies only ever frees slots. */
  lemma ReplaceKeepsSlots(s: System, id: int, p: Proc, x: int)
    requires SlotInv(s, x) && (p.Alive? ==> p.l == LoadSession && WellQueued(s.w, p.j))
    ensures SlotInv(s.(procs := s.procs[id := p]), x)
  {
    var s' := s.(procs := s.procs[id := p]);
    ReplaceFrees(s, id, p, x);
    forall k | IsAlive(s', k) ensures JobSlots(s'.w, s'.procs[k].j, s'.procs[k].l) {
      if k != id { assert IsAlive(s, k); }
    }
    forall k | k in s'.procs && Resyncs(s'.procs[k], x)
      ensures Holders(s', x) == {} && s'.procs[k].l.count == |AppliedIn(s'.w.coupons, x)|
    {
      assert k in s.procs && Resyncs(s.procs[k], x);
    }
  }

  lemma ReplaceFrees(s: System, id: int, p: Proc, x: int)
    requires p.Alive? ==> p.l == LoadSession
    ensures Holders(s.(procs := s.procs[id := p]), x) <= Holders(s, x)
    ensures |Holders(s.(procs := s.procs[id := p]), x)| <= |Holders(s, x)|
  {
    var h, h' := Holders(s, x), Holders(s.(procs := s.procs[id := p]), x);
    assert h == h' + (h - h');
  }

  lemma {:induction false} TraceKeepsSlots(c: Config, s: System, ms: seq<Move>, x: int)
    requires SlotInv(s, x) && IsTrace(c, s, ms) && IsDisciplined(c, s, ms, x)
    ensures SlotInv(Trace(c, s, ms), x)
    decreases |ms|
  {
    if ms != [] {
      MoveKeepsSlots(c, s, ms[0], x);
      TraceKeepsSlots(c, MoveOn(c, s, ms[0]), ms[1..], x);
    }
  }

  /** Slot conservation, session by session: with its resync kept apart from its slot
      holders, and a counter that starts at or above the truth, applied coupons and held
      slots together never exceed the counter, nor the limit.  Other sessions' counters
      may be off, expire or be lost. */
  lemma SlotsNeverExceeded(c: Config, s: System, ms: seq<Move>, session: int)
    requires s.procs == map[] && IsTrace(c, s, ms) && IsDisciplined(c, s, ms, session)
    requires IsLimited(s.w, session) ==>
      |AppliedIn(s.w.coupons, session)| <= Counter(s.w.applied, session)
      && |AppliedIn(s.w.coupons, session)| <= SlotsOf(s.w, session)
    requires IsLimited(Trace(c, s, ms).w, session)
    ensures var t := Trace(c, s, ms);
      var used := |AppliedIn(t.w.coupons, session)| + |Holders(t, session)|;
      used <= Counter(t.w.applied, session) && used <= SlotsOf(t.w, session)
  {
    assert Holders(s, session) == {};
    TraceKeepsSlots(c, s, ms, session);
    assert SlotsOk(Trace(c, s, ms), session);
  }
}
