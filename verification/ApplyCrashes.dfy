/** The worker as it is configured, `concurrency: 1`: jobs run one at a time, but
    may die at any await, and the Redis counters may be lost between jobs. */
module ApplyCrashes {
  import opened Schema
  import opened ApplyCoupon
  import opened ApplyQueue

  /** The worker between two statements, with the job it is running, if any. */
  datatype Worker = Worker(w: World, job: Option<Running>)
  datatype Running = Running(j: Job, l: Local)

  datatype Event =
    | Start(j: Job)
    | Tick(up: bool)
    | Crash
    | CountersLost(left: map<int, int>)

  /** A job is only started when none runs, and Redis answers during a resync. */
  predicate Enabled(s: Worker, e: Event) {
    match e
    case Start(j) => s.job.None? && WellQueued(s.w, j)
    case Tick(up) => s.job.Some? && !IsFinal(s.job.value.l) && (IsResync(s.job.value.l) ==> up)
    case Crash => s.job.Some?
    case CountersLost(_) => s.job.None?
  }

  function Next(c: Config, s: Worker, e: Event): Worker
    requires Enabled(s, e)
  {
    match e
    case Start(j) => s.(job := Some(Running(j, LoadSession)))
    case Tick(up) =>
      var r := Step(c, s.w, s.job.value.j, s.job.value.l, up);
      Worker(r.0, if IsFinal(r.1) then None else Some(Running(s.job.value.j, r.1)))
    case Crash => s.(job := None)
    case CountersLost(left) => s.(w := s.w.(applied := left))
  }

  predicate IsRun(c: Config, s: Worker, es: seq<Event>)
    decreases |es|
  {
    es == [] || (Enabled(s, es[0]) && IsRun(c, Next(c, s, es[0]), es[1..]))
  }

  function Run(c: Config, s: Worker, es: seq<Event>): Worker
    requires IsRun(c, s, es)
    decreases |es|
  {
    if es == [] then s else Run(c, Next(c, s, es[0]), es[1..])
  }

  // ----- Positions ------------------------------------------------------------------

  predicate IsLimited(w: World, session: int) {
    session in w.sessions && w.sessions[session].profile in w.profiles && SlotsOf(w, session) > 0
  }

  function Pos(k: Coupon): int { if k.position.Some? then k.position.value else 0 }

  /** The applied coupons of the session have different positions within 1..n. */
  ghost predicate Ranked(coupons: map<int, Coupon>, session: int) {
    && (forall id :: id in AppliedIn(coupons, session) ==> 1 <= Pos(coupons[id]) <= |AppliedIn(coupons, session)|)
    && (forall a, b :: a in AppliedIn(coupons, session) && b in AppliedIn(coupons, session) && a != b ==>
          Pos(coupons[a]) != Pos(coupons[b]))
  }

  ghost predicate PositionsOk(w: World, session: int) {
    IsLimited(w, session) ==>
      Ranked(w.coupons, session) && |AppliedIn(w.coupons, session)| <= SlotsOf(w, session)
  }

  /** What a job in mid-run knows is still true, because nothing else runs. */
  ghost predicate JobOk(w: World, j: Job, l: Local) {
    && WellQueued(w, j)
    && (HasSession(l) ==> j.session in w.sessions && l.session.profile == w.sessions[j.session].profile)
    && (HasSlots(l) ==> l.session.profile in w.profiles && l.slots == w.profiles[l.session.profile].maxSlots)
    && (IsResync(l) ==> l.slots > 0)
    && (l.ReadCounter? || l.WriteCounter? ==> l.count == |AppliedIn(w.coupons, j.session)|)
    && (l.TakeSlot? && l.slots > 0 ==> Counter(w.applied, j.session) == |AppliedIn(w.coupons, j.session)|)
    && (l.MarkCoupon? && l.slots > 0 ==> l.position == |AppliedIn(w.coupons, j.session)| + 1 <= l.slots)
  }

  ghost predicate InStanding(s: Worker) {
    s.job.Some? ==> JobOk(s.w, s.job.value.j, s.job.value.l)
  }

  /** A marked coupon ranks last in its session; elsewhere nothing changes. */
  lemma MarkKeepsRanked(coupons: map<int, Coupon>, id: int, slots: int, position: int, at: int, s: int)
    requires id in coupons && coupons[id].session.Some? && coupons[id].appliedAt.None? && Ranked(coupons, s)
    requires coupons[id].session == Some(s) ==> position == |AppliedIn(coupons, s)| + 1
    ensures Ranked(coupons[id := MarkedCoupon(coupons[id], slots, position, at)], s)
  {
    MarkApplied(coupons, id, slots, position, at, s);
  }

  lemma MarkKeepsPositions(w: World, j: Job, slots: int, position: int, x: int)
    requires PositionsOk(w, x) && WellQueued(w, j) && j.coupon in w.coupons && w.coupons[j.coupon].appliedAt.None?
    requires j.session in w.sessions && w.sessions[j.session].profile in w.profiles && slots == SlotsOf(w, j.session)
    requires slots > 0 ==> position == |AppliedIn(w.coupons, j.session)| + 1 <= slots
    ensures PositionsOk(w.(coupons := w.coupons[j.coupon := MarkedCoupon(w.coupons[j.coupon], slots, position, j.at)]), x)
  {
    if IsLimited(w, x) {
      MarkKeepsRanked(w.coupons, j.coupon, slots, position, j.at, x);
      MarkApplied(w.coupons, j.coupon, slots, position, j.at, x);
    }
  }

  /** A new `coupons` table with the same applied rows has the same ranking. */
  lemma SamePositions(w: World, w': World, x: int)
    requires PositionsOk(w, x) && w'.profiles == w.profiles
    requires x in w'.sessions ==> x in w.sessions && w'.sessions[x].profile == w.sessions[x].profile
    requires AppliedIn(w'.coupons, x) == AppliedIn(w.coupons, x)
    requires forall id :: id in w.coupons && id in w'.coupons ==> w'.coupons[id].position == w.coupons[id].position
    ensures PositionsOk(w', x)
  {
  }

  lemma InvalidationKeepsPositions(w: World, user: int, session: int, x: int)
    requires PositionsOk(w, x)
    ensures PositionsOk(w.(coupons := InvalidateRemaining(w.coupons, user, session)), x)
  {
    var w' := w.(coupons := InvalidateRemaining(w.coupons, user, session));
    SameCounts(w'.coupons, w.coupons);
    SamePositions(w, w', x);
  }

  lemma MarkStatementKeeps(c: Config, w: World, j: Job, l: Local, up: bool, x: int)
    requires PositionsOk(w, x) && JobOk(w, j, l) && l.MarkCoupon?
    ensures PositionsOk(Step(c, w, j, l, up).0, x)
  {
    if j.coupon in w.coupons && w.coupons[j.coupon].appliedAt.None? {
      MarkKeepsPositions(w, j, l.slots, l.position, x);
    }
  }

  lemma InvalidationStatementKeeps(c: Config, w: World, j: Job, l: Local, up: bool, x: int)
    requires PositionsOk(w, x) && (l.InvalidateAtCap? || l.InvalidateAfterWin?)
    ensures PositionsOk(Step(c, w, j, l, up).0, x)
  {
    if l.InvalidateAtCap? {
      InvalidationKeepsPositions(w, j.user, l.winSession, x);
    } else {
      InvalidationKeepsPositions(w, j.user, j.session, x);
    }
  }

  /** One statement of a job, of this session or another, keeps the session's ranking. */
  lemma StepKeepsPositions(c: Config, w: World, j: Job, l: Local, up: bool, x: int)
    requires PositionsOk(w, x) && JobOk(w, j, l) && !IsFinal(l)
    ensures PositionsOk(Step(c, w, j, l, up).0, x)
  {
    if l.MarkCoupon? {
      MarkStatementKeeps(c, w, j, l, up, x);
    } else if l.InvalidateAtCap? || l.InvalidateAfterWin? {
      InvalidationStatementKeeps(c, w, j, l, up, x);
    } else {
      StepFrame(c, w, j, l, up);
      CouponsStay(c, w, j, l, up);
      SamePositions(w, Step(c, w, j, l, up).0, x);
    }
  }

  /** What the three counting statements leave behind, nothing else having run. */
  lemma StepCountsAlone(c: Config, w: World, j: Job, l: Local, up: bool)
    requires JobOk(w, j, l) && !IsFinal(l) && (IsResync(l) ==> up)
    ensures var r := Step(c, w, j, l, up);
      && (r.1.ReadCounter? || r.1.WriteCounter? ==>
            r.0 == w && r.1.count == |AppliedIn(w.coupons, j.session)|)
      && (r.1.TakeSlot? && r.1.slots > 0 ==>
            r.0.coupons == w.coupons && Counter(r.0.applied, j.session) == |AppliedIn(w.coupons, j.session)|)
      && (r.1.MarkCoupon? && r.1.slots > 0 ==>
            r.0.coupons == w.coupons && r.1.position == |AppliedIn(w.coupons, j.session)| + 1 <= r.1.slots)
  {
    match l {
      case LoadProfile(_) =>
      case CountApplied(_, _) =>
      case ReadCounter(_, _, _) =>
      case WriteCounter(_, _, _) =>
      case TakeSlot(_, _) =>
      case _ =>
    }
  }

  lemma StepKeepsJob(c: Config, w: World, j: Job, l: Local, up: bool)
    requires JobOk(w, j, l) && !IsFinal(l) && (IsResync(l) ==> up)
    ensures JobOk(Step(c, w, j, l, up).0, j, Step(c, w, j, l, up).1)
  {
    StepFrame(c, w, j, l, up);
    StepCarries(c, w, j, l, up);
    StepCountsAlone(c, w, j, l, up);
    JobOkAfter(w, j, l, Step(c, w, j, l, up).0, Step(c, w, j, l, up).1);
  }

  lemma JobOkAfter(w: World, j: Job, l: Local, w': World, l': Local)
    requires JobOk(w, j, l) && Carries(w, j, l, l')
    requires w'.profiles == w.profiles && w'.sessions.Keys == w.sessions.Keys && w'.coupons.Keys == w.coupons.Keys
    requires forall s :: s in w.sessions ==> w'.sessions[s].profile == w.sessions[s].profile
    requires forall id :: id in w.coupons ==> w'.coupons[id].session == w.coupons[id].session
    requires l'.ReadCounter? || l'.WriteCounter? ==> w' == w && l'.count == |AppliedIn(w.coupons, j.session)|
    requires l'.TakeSlot? && l'.slots > 0 ==>
      w'.coupons == w.coupons && Counter(w'.applied, j.session) == |AppliedIn(w.coupons, j.session)|
    requires l'.MarkCoupon? && l'.slots > 0 ==>
      w'.coupons == w.coupons && l'.position == |AppliedIn(w.coupons, j.session)| + 1 <= l'.slots
    ensures JobOk(w', j, l')
  {
  }

  lemma NextKeepsStanding(c: Config, s: Worker, e: Event)
    requires InStanding(s) && Enabled(s, e)
    ensures InStanding(Next(c, s, e))
  {
    if e.Tick? {
      StepKeepsJob(c, s.w, s.job.value.j, s.job.value.l, e.up);
    }
  }

  /** Each session keeps its ranking on its own, whatever the others look like. */
  lemma {:induction false} RunKeeps(c: Config, s: Worker, es: seq<Event>, session: int)
    requires InStanding(s) && PositionsOk(s.w, session) && IsRun(c, s, es)
    ensures InStanding(Run(c, s, es)) && PositionsOk(Run(c, s, es).w, session)
    decreases |es|
  {
    if es != [] {
      NextKeepsStanding(c, s, es[0]);
      match es[0] {
        case Tick(up) => StepKeepsPositions(c, s.w, s.job.value.j, s.job.value.l, up, session);
        case CountersLost(_) => SamePositions(s.w, Next(c, s, es[0]).w, session);
        case Start(_) =>
        case Crash =>
      }
      RunKeeps(c, Next(c, s, es[0]), es[1..], session);
    }
  }

  // ----- Exactly 1..n ----------------------------------------------------------------

  lemma {:induction false} ImageSize(a: set<int>, coupons: map<int, Coupon>)
    requires a <= coupons.Keys
    requires forall x, y :: x in a && y in a && x != y ==> Pos(coupons[x]) != Pos(coupons[y])
    ensures |set x | x in a :: Pos(coupons[x])| == |a|
    decreases |a|
  {
    if x :| x in a {
      var b := a - {x};
      ImageSize(b, coupons);
      assert (set y | y in a :: Pos(coupons[y])) == (set y | y in b :: Pos(coupons[y])) + {Pos(coupons[x])};
    } else {
      assert a == {};
    }
  }

  /** The positions 1..n. */
  function UpTo(n: nat): (r: set<int>)
    ensures |r| == n
    ensures forall p :: p in r <==> 1 <= p <= n
  {
    if n == 0 then {} else UpTo(n - 1) + {n}
  }

  lemma SameSizeSubset(a: set<int>, b: set<int>)
    requires a <= b && |a| == |b|
    ensures a == b
  {
    assert b == a + (b - a);
    assert |b - a| == 0;
  }

  lemma RankedIsExact(coupons: map<int, Coupon>, session: int)
    requires Ranked(coupons, session)
    ensures (set id | id in AppliedIn(coupons, session) :: Pos(coupons[id]))
         == UpTo(|AppliedIn(coupons, session)|)
  {
    var a := AppliedIn(coupons, session);
    ImageSize(a, coupons);
    SameSizeSubset(set id | id in a :: Pos(coupons[id]), UpTo(|a|));
  }

  /** Crash recovery: a session with a slot limit whose applied coupons hold the positions
      1..n, each exactly once, and n within the limit, is so after any such run. */
  lemma PositionsSurviveCrashes(c: Config, s: Worker, es: seq<Event>, session: int)
    requires PositionsOk(s.w, session) && s.job.None? && IsRun(c, s, es)
    requires IsLimited(Run(c, s, es).w, session)
    ensures var w := Run(c, s, es).w;
      var a := AppliedIn(w.coupons, session);
      && |a| <= SlotsOf(w, session)
      && (forall x, y :: x in a && y in a && x != y ==> Pos(w.coupons[x]) != Pos(w.coupons[y]))
      && (set id | id in a :: Pos(w.coupons[id])) == UpTo(|a|)
  {
    RunKeeps(c, s, es, session);
    RankedIsExact(Run(c, s, es).w.coupons, session);
  }
}
