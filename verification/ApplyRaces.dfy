/** What goes wrong with apply jobs, as runs that lead there: overlapping resyncs
    hand out a position twice, and a crash at the wrong statement leaves a winner
    without a reward. */
module ApplyRaces {
  import opened Schema
  import opened ApplyCoupon
  import opened ApplyQueue
  import opened ApplyCrashes
  import opened ApplyInterleaved

  // ----- Runs between states ------------------------------------------------------------

  ghost predicate Leads(c: Config, s: System, t: System) {
    exists ms :: IsTrace(c, s, ms) && Trace(c, s, ms) == t
  }

  lemma TraceOfOne(c: Config, s: System, m: Move)
    requires CanMove(s, m)
    ensures IsTrace(c, s, [m]) && Trace(c, s, [m]) == MoveOn(c, s, m)
  {
    assert [m][1..] == [];
    assert IsTrace(c, MoveOn(c, s, m), []);
  }

  lemma LeadsOne(c: Config, s: System, m: Move)
    requires CanMove(s, m)
    ensures Leads(c, s, MoveOn(c, s, m))
  {
    TraceOfOne(c, s, m);
  }

  lemma {:induction false} TraceAppend(c: Config, s: System, ms: seq<Move>, more: seq<Move>)
    requires IsTrace(c, s, ms) && IsTrace(c, Trace(c, s, ms), more)
    ensures IsTrace(c, s, ms + more) && Trace(c, s, ms + more) == Trace(c, Trace(c, s, ms), more)
    decreases |ms|
  {
    if ms == [] {
      assert ms + more == more;
    } else {
      assert (ms + more)[0] == ms[0] && (ms + more)[1..] == ms[1..] + more;
      TraceAppend(c, MoveOn(c, s, ms[0]), ms[1..], more);
    }
  }

  lemma LeadsOn(c: Config, s: System, t: System, u: System)
    requires Leads(c, s, t) && Leads(c, t, u)
    ensures Leads(c, s, u)
  {
    var ms :| IsTrace(c, s, ms) && Trace(c, s, ms) == t;
    var more :| IsTrace(c, t, more) && Trace(c, t, more) == u;
    TraceAppend(c, s, ms, more);
  }

  /** `s` with one process moved on, and perhaps the tables changed. */
  function At(s: System, w: World, id: int, j: Job, l: Local): System {
    s.(w := w, procs := s.procs[id := Alive(j, l)])
  }

  /** One statement of one process that is not the conditional update. */
  lemma GoOne(c: Config, s: System, id: int, j: Job, l: Local)
    requires id in s.procs && s.procs[id] == Alive(j, l) && !IsFinal(l) && !Marks(s.w, j, l)
    ensures var r := Step(c, s.w, j, l, true); Leads(c, s, At(s, r.0, id, j, r.1))
  {
    LeadsOne(c, s, Go(id, true));
  }

  /** Two statements in a row, given where the first one leads. */
  lemma GoNext(c: Config, s: System, w: World, id: int, j: Job, l: Local)
    requires Leads(c, s, At(s, w, id, j, l)) && !IsFinal(l) && !Marks(w, j, l)
    ensures var r := Step(c, w, j, l, true); Leads(c, s, At(s, r.0, id, j, r.1))
  {
    var t := At(s, w, id, j, l);
    var r := Step(c, w, j, l, true);
    GoOne(c, t, id, j, l);
    assert At(t, r.0, id, j, r.1) == At(s, r.0, id, j, r.1);
    LeadsOn(c, s, t, At(s, r.0, id, j, r.1));
  }

  /** A job that passes its checks gets to where its resync starts. */
  lemma SpawnToResync(c: Config, s: System, id: int, j: Job)
    requires id !in s.procs && Valid(s.w, j) && WellQueued(s.w, j) && UnderCap(c, s.w, j) && IsLimited(s.w, j.session)
    ensures Leads(c, s, At(s, s.w, id, j, CountApplied(s.w.sessions[j.session], SlotsOf(s.w, j.session))))
  {
    var row := s.w.sessions[j.session];
    LeadsOne(c, s, Spawn(id, j));
    assert MoveOn(c, s, Spawn(id, j)) == At(s, s.w, id, j, LoadSession);
    GoNext(c, s, s.w, id, j, LoadSession);
    GoNext(c, s, s.w, id, j, LoadCoupon(row));
    if HasCap(c) {
      GoNext(c, s, s.w, id, j, CountWins(row, j.session));
    }
    GoNext(c, s, s.w, id, j, LoadProfile(row));
  }

  /** The resync, uninterrupted, makes the counter the number of applied coupons. */
  lemma Resync(c: Config, s: System, id: int, j: Job, row: Session, slots: int)
    requires id in s.procs && s.procs[id] == Alive(j, CountApplied(row, slots)) && slots > 0
    ensures var w := s.w.(applied := Synced(s.w, j.session, slots));
      Leads(c, s, At(s, w, id, j, TakeSlot(row, slots)))
  {
    var n := |AppliedIn(s.w.coupons, j.session)|;
    GoOne(c, s, id, j, CountApplied(row, slots));
    GoNext(c, s, s.w, id, j, ReadCounter(row, slots, n));
    if Counter(s.w.applied, j.session) != n {
      GoNext(c, s, s.w, id, j, WriteCounter(row, slots, n));
    } else {
      assert s.w.(applied := s.w.applied) == s.w;
    }
  }

  /** The Lua script with a free slot. */
  lemma Take(c: Config, s: System, id: int, j: Job, row: Session, slots: int)
    requires id in s.procs && s.procs[id] == Alive(j, TakeSlot(row, slots))
    requires slots > 0 && Counter(s.w.applied, j.session) < slots
    ensures var p := Counter(s.w.applied, j.session) + 1;
      Leads(c, s, At(s, s.w.(applied := s.w.applied[j.session := p]), id, j, MarkCoupon(row, slots, p)))
  {
    GoOne(c, s, id, j, TakeSlot(row, slots));
  }

  /** The conditional update that finds its coupon unapplied. */
  lemma Mark(c: Config, s: System, id: int, j: Job, row: Session, slots: int, p: int)
    requires id in s.procs && s.procs[id] == Alive(j, MarkCoupon(row, slots, p)) && Marks(s.w, j, MarkCoupon(row, slots, p))
    requires 0 < p <= slots
    ensures var w := s.w.(coupons := s.w.coupons[j.coupon := MarkedCoupon(s.w.coupons[j.coupon], slots, p, j.at)]);
      Leads(c, s, At(s, w, id, j, CreateReward(row, slots, p)).(applier := s.applier[j.coupon := id]))
  {
    LeadsOne(c, s, Go(id, true));
  }

  // ----- Overlapping resyncs --------------------------------------------------------------

  /** Two resyncs that have both counted when the first one writes. */
  lemma BothCounted(c: Config, s: System, a: Job, b: Job, t: System)
    requires s.procs == map[] && a.session == b.session
    requires Valid(s.w, a) && Valid(s.w, b) && WellQueued(s.w, a) && WellQueued(s.w, b)
    requires UnderCap(c, s.w, a) && UnderCap(c, s.w, b) && IsLimited(s.w, a.session)
    requires Counter(s.w.applied, a.session) != |AppliedIn(s.w.coupons, a.session)|
    requires var l := WriteCounter(s.w.sessions[a.session], SlotsOf(s.w, a.session), |AppliedIn(s.w.coupons, a.session)|);
      t == s.(procs := map[1 := Alive(a, l), 2 := Alive(b, l)])
    ensures Leads(c, s, t)
  {
    var row, slots := s.w.sessions[a.session], SlotsOf(s.w, a.session);
    var n := |AppliedIn(s.w.coupons, a.session)|;
    var l := WriteCounter(row, slots, n);
    SpawnToResync(c, s, 1, a);
    GoNext(c, s, s.w, 1, a, CountApplied(row, slots));
    GoNext(c, s, s.w, 1, a, ReadCounter(row, slots, n));
    var s1 := At(s, s.w, 1, a, l);
    SpawnToResync(c, s1, 2, b);
    GoNext(c, s1, s.w, 2, b, CountApplied(row, slots));
    GoNext(c, s1, s.w, 2, b, ReadCounter(row, slots, n));
    assert At(s1, s.w, 2, b, l) == t;
    LeadsOn(c, s, s1, t);
  }

  /** From a decided resync to the held slot: the stale count goes in, one comes out. */
  lemma WriteAndTake(c: Config, s: System, id: int, j: Job, row: Session, slots: int, n: int)
    requires id in s.procs && s.procs[id] == Alive(j, WriteCounter(row, slots, n)) && 0 <= n < slots
    ensures Leads(c, s, At(s, s.w.(applied := s.w.applied[j.session := n + 1]), id, j, MarkCoupon(row, slots, n + 1)))
  {
    var w := s.w.(applied := s.w.applied[j.session := n]);
    GoOne(c, s, id, j, WriteCounter(row, slots, n));
    GoNext(c, s, w, id, j, TakeSlot(row, slots));
    assert w.applied[j.session := n + 1] == s.w.applied[j.session := n + 1];
  }

  /** Both resyncs have written, and both jobs hold the same position. */
  lemma BothHold(c: Config, s: System, a: Job, b: Job) returns (t: System)
    requires s.procs == map[] && a.session == b.session
    requires Valid(s.w, a) && Valid(s.w, b) && WellQueued(s.w, a) && WellQueued(s.w, b)
    requires UnderCap(c, s.w, a) && UnderCap(c, s.w, b) && IsLimited(s.w, a.session)
    requires |AppliedIn(s.w.coupons, a.session)| < SlotsOf(s.w, a.session)
    requires Counter(s.w.applied, a.session) != |AppliedIn(s.w.coupons, a.session)|
    ensures Leads(c, s, t)
    ensures t.w == s.w.(applied := t.w.applied) && t.procs.Keys == {1, 2}
    ensures var l := MarkCoupon(s.w.sessions[a.session], SlotsOf(s.w, a.session), |AppliedIn(s.w.coupons, a.session)| + 1);
      t.procs[1] == Alive(a, l) && t.procs[2] == Alive(b, l)
  {
    var row, slots := s.w.sessions[a.session], SlotsOf(s.w, a.session);
    var n := |AppliedIn(s.w.coupons, a.session)|;
    var l := WriteCounter(row, slots, n);
    var s1 := s.(procs := map[1 := Alive(a, l), 2 := Alive(b, l)]);
    BothCounted(c, s, a, b, s1);
    var s2 := At(s1, s.w.(applied := s.w.applied[a.session := n + 1]), 1, a, MarkCoupon(row, slots, n + 1));
    WriteAndTake(c, s1, 1, a, row, slots, n);
    LeadsOn(c, s, s1, s2);
    t := At(s2, s2.w.(applied := s2.w.applied[b.session := n + 1]), 2, b, MarkCoupon(row, slots, n + 1));
    WriteAndTake(c, s2, 2, b, row, slots, n);
    LeadsOn(c, s, s2, t);
  }

  lemma MarkAt(c: Config, s: System, id: int, j: Job, row: Session, slots: int, p: int) returns (t: System)
    requires id in s.procs && s.procs[id] == Alive(j, MarkCoupon(row, slots, p)) && 0 < p <= slots
    requires j.coupon in s.w.coupons && s.w.coupons[j.coupon].appliedAt.None?
    ensures Leads(c, s, t)
    ensures t.w == s.w.(coupons := s.w.coupons[j.coupon := MarkedCoupon(s.w.coupons[j.coupon], slots, p, j.at)])
    ensures t.procs == s.procs[id := Alive(j, CreateReward(row, slots, p))]
  {
    var w := s.w.(coupons := s.w.coupons[j.coupon := MarkedCoupon(s.w.coupons[j.coupon], slots, p, j.at)]);
    t := At(s, w, id, j, CreateReward(row, slots, p)).(applier := s.applier[j.coupon := id]);
    Mark(c, s, id, j, row, slots, p);
  }

  /** The race of two resyncs: both count before either writes.  From any state with a free
      slot, whose counter is off, two valid jobs of different coupons whose users are below
      the cap both get applied, at the same position; with one slot left the session then
      has one applied coupon more than it has slots. */
  lemma StaleResyncOverbooks(c: Config, s: System, a: Job, b: Job) returns (t: System)
    requires s.procs == map[] && a.session == b.session && a.coupon != b.coupon
    requires Valid(s.w, a) && Valid(s.w, b) && WellQueued(s.w, a) && WellQueued(s.w, b)
    requires UnderCap(c, s.w, a) && UnderCap(c, s.w, b) && IsLimited(s.w, a.session)
    requires s.w.coupons[a.coupon].appliedAt.None? && s.w.coupons[b.coupon].appliedAt.None?
    requires |AppliedIn(s.w.coupons, a.session)| < SlotsOf(s.w, a.session)
    requires Counter(s.w.applied, a.session) != |AppliedIn(s.w.coupons, a.session)|
    ensures Leads(c, s, t)
    ensures {a.coupon, b.coupon} <= AppliedIn(t.w.coupons, a.session)
    ensures t.w.coupons[a.coupon].position == t.w.coupons[b.coupon].position
         == Some(|AppliedIn(s.w.coupons, a.session)| + 1)
    ensures |AppliedIn(t.w.coupons, a.session)| == |AppliedIn(s.w.coupons, a.session)| + 2
    ensures |AppliedIn(s.w.coupons, a.session)| + 1 == SlotsOf(s.w, a.session) ==>
      |AppliedIn(t.w.coupons, a.session)| == SlotsOf(s.w, a.session) + 1
  {
    var row, slots := s.w.sessions[a.session], SlotsOf(s.w, a.session);
    var n := |AppliedIn(s.w.coupons, a.session)|;
    var s1 := BothHold(c, s, a, b);
    var s2 := MarkAt(c, s1, 1, a, row, slots, n + 1);
    MarkApplied(s.w.coupons, a.coupon, slots, n + 1, a.at, a.session);
    LeadsOn(c, s, s1, s2);
    t := MarkAt(c, s2, 2, b, row, slots, n + 1);
    MarkApplied(s2.w.coupons, b.coupon, slots, n + 1, b.at, a.session);
    LeadsOn(c, s, s2, t);
  }

  // ----- A resync before another job's DECR ----------------------------------------------------

  /** Two jobs of one coupon and one of another, all past their checks. */
  lemma ThreeSpawned(c: Config, s: System, a: Job, a': Job, b: Job, t: System)
    requires s.procs == map[] && a.session == a'.session == b.session && IsLimited(s.w, a.session)
    requires Valid(s.w, a) && WellQueued(s.w, a) && UnderCap(c, s.w, a)
    requires Valid(s.w, a') && WellQueued(s.w, a') && UnderCap(c, s.w, a')
    requires Valid(s.w, b) && WellQueued(s.w, b) && UnderCap(c, s.w, b)
    requires var l := CountApplied(s.w.sessions[a.session], SlotsOf(s.w, a.session));
      t == s.(procs := map[1 := Alive(a, l), 2 := Alive(a', l), 3 := Alive(b, l)])
    ensures Leads(c, s, t)
  {
    var l := CountApplied(s.w.sessions[a.session], SlotsOf(s.w, a.session));
    SpawnToResync(c, s, 1, a);
    var s1 := At(s, s.w, 1, a, l);
    SpawnToResync(c, s1, 2, a');
    var s2 := At(s1, s.w, 2, a', l);
    LeadsOn(c, s, s1, s2);
    SpawnToResync(c, s2, 3, b);
    assert At(s2, s.w, 3, b, l) == t;
    LeadsOn(c, s, s2, t);
  }

  /** The first two resyncs. */
  lemma TwoResync(c: Config, s: System, a: Job, a': Job, row: Session, slots: int) returns (t: System)
    requires a.session == a'.session && {1, 2} <= s.procs.Keys && slots > 0
    requires s.procs[1] == Alive(a, CountApplied(row, slots)) && s.procs[2] == Alive(a', CountApplied(row, slots))
    ensures Leads(c, s, t)
    ensures t.w == s.w.(applied := t.w.applied) && t.applier == s.applier
    ensures Counter(t.w.applied, a.session) == |AppliedIn(s.w.coupons, a.session)|
    ensures t.procs == s.procs[1 := Alive(a, TakeSlot(row, slots))][2 := Alive(a', TakeSlot(row, slots))]
  {
    var w1 := s.w.(applied := Synced(s.w, a.session, slots));
    var s1 := At(s, w1, 1, a, TakeSlot(row, slots));
    Resync(c, s, 1, a, row, slots);
    t := At(s1, w1.(applied := Synced(w1, a.session, slots)), 2, a', TakeSlot(row, slots));
    Resync(c, s1, 2, a', row, slots);
    LeadsOn(c, s, s1, t);
  }

  /** Then the first two slots: two positions are out. */
  lemma TwoTake(c: Config, s: System, a: Job, a': Job, row: Session, slots: int, n: nat) returns (t: System)
    requires a.session == a'.session && {1, 2} <= s.procs.Keys && n + 2 <= slots
    requires s.procs[1] == Alive(a, TakeSlot(row, slots)) && s.procs[2] == Alive(a', TakeSlot(row, slots))
    requires Counter(s.w.applied, a.session) == n
    ensures Leads(c, s, t)
    ensures t.w == s.w.(applied := t.w.applied) && t.applier == s.applier
    ensures t.procs == s.procs[1 := Alive(a, MarkCoupon(row, slots, n + 1))][2 := Alive(a', MarkCoupon(row, slots, n + 2))]
  {
    var s1 := At(s, s.w.(applied := s.w.applied[a.session := n + 1]), 1, a, MarkCoupon(row, slots, n + 1));
    Take(c, s, 1, a, row, slots);
    t := At(s1, s1.w.(applied := s1.w.applied[a.session := n + 2]), 2, a', MarkCoupon(row, slots, n + 2));
    Take(c, s1, 2, a', row, slots);
    LeadsOn(c, s, s1, t);
  }

  /** The first job applies the coupon; the second finds it applied and owes its DECR. */
  lemma OneMarksOneOwes(c: Config, s: System, a: Job, a': Job, row: Session, slots: int, n: nat) returns (t: System)
    requires {1, 2} <= s.procs.Keys && a.coupon == a'.coupon && n + 2 <= slots
    requires s.procs[1] == Alive(a, MarkCoupon(row, slots, n + 1)) && s.procs[2] == Alive(a', MarkCoupon(row, slots, n + 2))
    requires a.coupon in s.w.coupons && s.w.coupons[a.coupon].appliedAt.None?
    ensures Leads(c, s, t)
    ensures t.w == s.w.(coupons := s.w.coupons[a.coupon := MarkedCoupon(s.w.coupons[a.coupon], slots, n + 1, a.at)])
    ensures t.procs == s.procs[1 := Alive(a, CreateReward(row, slots, n + 1))][2 := Alive(a', GiveBack)]
  {
    var w := s.w.(coupons := s.w.coupons[a.coupon := MarkedCoupon(s.w.coupons[a.coupon], slots, n + 1, a.at)]);
    var s1 := At(s, w, 1, a, CreateReward(row, slots, n + 1)).(applier := s.applier[a.coupon := 1]);
    Mark(c, s, 1, a, row, slots, n + 1);
    t := At(s1, w, 2, a', GiveBack);
    GoOne(c, s1, 2, a', MarkCoupon(row, slots, n + 2));
    LeadsOn(c, s, s1, t);
  }

  /** The third job resyncs, the second gives back, the third takes: the position the
      first one already has. */
  lemma ResyncGiveBackTake(c: Config, s: System, a': Job, b: Job, row: Session, slots: int, n: nat) returns (t: System)
    requires {2, 3} <= s.procs.Keys && a'.session == b.session && n + 2 <= slots
    requires s.procs[2] == Alive(a', GiveBack) && s.procs[3] == Alive(b, CountApplied(row, slots))
    requires |AppliedIn(s.w.coupons, b.session)| == n + 1
    ensures Leads(c, s, t)
    ensures t.w == s.w.(applied := t.w.applied) && t.applier == s.applier
    ensures 3 in t.procs && t.procs[3] == Alive(b, MarkCoupon(row, slots, n + 1))
  {
    var w1 := s.w.(applied := Synced(s.w, b.session, slots));
    var s1 := At(s, w1, 3, b, TakeSlot(row, slots));
    Resync(c, s, 3, b, row, slots);
    assert Counter(w1.applied, b.session) == n + 1;
    var w2 := w1.(applied := w1.applied[b.session := n]);
    var s2 := At(s1, w2, 2, a', Reread);
    GoOne(c, s1, 2, a', GiveBack);
    LeadsOn(c, s, s1, s2);
    t := At(s2, w2.(applied := w2.applied[b.session := n + 1]), 3, b, MarkCoupon(row, slots, n + 1));
    Take(c, s2, 3, b, row, slots);
    LeadsOn(c, s, s2, t);
  }

  /** The run up to the moment when the coupon is applied, the slower job owes its DECR,
      and the third job is about to resync. */
  lemma UpToOwed(c: Config, s: System, a: Job, a': Job, b: Job) returns (t: System)
    requires s.procs == map[] && a.session == a'.session == b.session && IsLimited(s.w, a.session)
    requires a.coupon == a'.coupon && a'.user == a.user
    requires Valid(s.w, a) && WellQueued(s.w, a) && UnderCap(c, s.w, a)
    requires Valid(s.w, b) && WellQueued(s.w, b) && UnderCap(c, s.w, b)
    requires s.w.coupons[a.coupon].appliedAt.None?
    requires |AppliedIn(s.w.coupons, a.session)| + 2 <= SlotsOf(s.w, a.session)
    ensures var row, slots := s.w.sessions[a.session], SlotsOf(s.w, a.session);
      var n := |AppliedIn(s.w.coupons, a.session)|;
      && Leads(c, s, t)
      && t.w.coupons == s.w.coupons[a.coupon := MarkedCoupon(s.w.coupons[a.coupon], slots, n + 1, a.at)]
      && {2, 3} <= t.procs.Keys
      && t.procs[2] == Alive(a', GiveBack) && t.procs[3] == Alive(b, CountApplied(row, slots))
  {
    var row, slots := s.w.sessions[a.session], SlotsOf(s.w, a.session);
    var n := |AppliedIn(s.w.coupons, a.session)|;
    var l := CountApplied(row, slots);
    var s1 := s.(procs := map[1 := Alive(a, l), 2 := Alive(a', l), 3 := Alive(b, l)]);
    ThreeSpawned(c, s, a, a', b, s1);
    var s2 := TwoResync(c, s1, a, a', row, slots);
    LeadsOn(c, s, s1, s2);
    var s3 := TwoTake(c, s2, a, a', row, slots, n);
    LeadsOn(c, s, s2, s3);
    t := OneMarksOneOwes(c, s3, a, a', row, slots, n);
    LeadsOn(c, s, s3, t);
  }

  /** The window of the resync does not end with the conditional update.  Of two jobs
      of one coupon the slower one finds it applied and owes its DECR; a third job that
      resyncs before that DECR and takes its slot after it gets the position the faster
      one was given.  From every state with two free slots, two coupons of the session
      end up applied at one position. */
  lemma ResyncBeforeGiveBackRepeatsPosition(c: Config, s: System, a: Job, a': Job, b: Job) returns (t: System)
    requires s.procs == map[] && a.session == a'.session == b.session && IsLimited(s.w, a.session)
    requires a.coupon == a'.coupon != b.coupon
    requires Valid(s.w, a) && WellQueued(s.w, a) && UnderCap(c, s.w, a) && a'.user == a.user
    requires Valid(s.w, b) && WellQueued(s.w, b) && UnderCap(c, s.w, b)
    requires s.w.coupons[a.coupon].appliedAt.None? && s.w.coupons[b.coupon].appliedAt.None?
    requires |AppliedIn(s.w.coupons, a.session)| + 2 <= SlotsOf(s.w, a.session)
    ensures Leads(c, s, t)
    ensures {a.coupon, b.coupon} <= AppliedIn(t.w.coupons, a.session)
    ensures t.w.coupons[a.coupon].position == t.w.coupons[b.coupon].position
         == Some(|AppliedIn(s.w.coupons, a.session)| + 1)
  {
    var row, slots := s.w.sessions[a.session], SlotsOf(s.w, a.session);
    var n := |AppliedIn(s.w.coupons, a.session)|;
    var s3 := UpToOwed(c, s, a, a', b);
    MarkApplied(s.w.coupons, a.coupon, slots, n + 1, a.at, a.session);
    var s4 := ResyncGiveBackTake(c, s3, a', b, row, slots, n);
    LeadsOn(c, s, s3, s4);
    t := MarkAt(c, s4, 3, b, row, slots, n + 1);
    LeadsOn(c, s, s4, t);
  }

  /** A DECR that Redis does not answer is lost: the job is refused, and the slot it took
      stays counted. */
  lemma LostDecrementStays(c: Config, s: System, id: int)
    requires id in s.procs && s.procs[id].Alive? && s.procs[id].l.GiveBack?
    ensures var t := At(s, s.w, id, s.procs[id].j, Step(c, s.w, s.procs[id].j, Reread, true).1);
      Leads(c, s, t) && t.procs[id].l.Rejected? && t.w == s.w
  {
    var j := s.procs[id].j;
    LeadsOne(c, s, Go(id, false));
    var u := At(s, s.w, id, j, Reread);
    assert MoveOn(c, s, Go(id, false)) == u;
    GoOne(c, u, id, j, Reread);
    LeadsOn(c, s, u, At(u, s.w, id, j, Step(c, s.w, j, Reread, true).1));
    assert At(u, s.w, id, j, Step(c, s.w, j, Reread, true).1) == At(s, s.w, id, j, Step(c, s.w, j, Reread, true).1);
  }

  // ----- Rewards under crashes ------------------------------------------------------------------

  predicate CreatesReward(p: Proc, coupon: int) { p.Alive? && p.l.CreateReward? && p.j.coupon == coupon }

  /** A winner that has no reward, and whose job is not about to create it. */
  ghost predicate Unpaid(s: System, coupon: int) {
    && coupon in s.w.coupons && s.w.coupons[coupon].appliedAt.Some? && s.w.coupons[coupon].status == Winner
    && Unrewarded(s.w, coupon)
    && forall id :: id in s.procs ==> !CreatesReward(s.procs[id], coupon)
  }

  /** What one statement does to the rewards and to the application data. */
  lemma StepPays(c: Config, w: World, j: Job, l: Local, up: bool, k: int)
    requires !IsFinal(l) && k in w.coupons
    ensures var r := Step(c, w, j, l, up);
      && (r.1.CreateReward? ==> Marks(w, j, l))
      && (Unrewarded(r.0, k) <==> Unrewarded(w, k) && !(l.CreateReward? && k == j.coupon))
      && (Marks(w, j, l) && k == j.coupon && IsWinner(l.slots, l.position) ==> r.1.CreateReward?)
      && (Marks(w, j, l) && k == j.coupon && !IsWinner(l.slots, l.position) ==> r.0.coupons[k].status != Winner)
      && (!(Marks(w, j, l) && k == j.coupon) ==>
            r.0.coupons[k].appliedAt == w.coupons[k].appliedAt && r.0.coupons[k].status == w.coupons[k].status)
  {
    var r := Step(c, w, j, l, up).0;
    if l.CreateReward? {
      var rewards := w.rewards + [Reward(j.session, j.user, j.coupon, l.session.profile)];
      assert r.rewards == rewards && rewards[|w.rewards|].coupon == j.coupon;
      assert forall i :: 0 <= i < |w.rewards| ==> rewards[i] == w.rewards[i];
    } else {
      assert r.rewards == w.rewards;
    }
  }

  /** A crash costs a winner its reward at one statement only: a coupon becomes unpaid
      exactly when the job that applied it dies before it creates the reward. */
  lemma UnpaidStarts(c: Config, s: System, m: Move, coupon: int)
    requires OnceInv(s) && CanMove(s, m) && !Unpaid(s, coupon)
    ensures Unpaid(MoveOn(c, s, m), coupon) <==> m.Kill? && CreatesReward(s.procs[m.id], coupon)
  {
    var s' := MoveOn(c, s, m);
    match m {
      case Go(id, up) =>
        var p := s.procs[id];
        StepAppliedStay(c, s.w, p.j, p.l, up);
        if coupon in s.w.coupons {
          StepPays(c, s.w, p.j, p.l, up, coupon);
          GoIsPaid(c, s, id, up, coupon);
        }
      case Spawn(id, j) =>
        if k :| k in s.procs && CreatesReward(s.procs[k], coupon) {
          assert CreatesReward(s'.procs[k], coupon);
        }
      case Kill(id) =>
        if CreatesReward(s.procs[id], coupon) {
          assert ProcOk(s, id);
          OneCreator(s, id, coupon);
        } else if k :| k in s.procs && CreatesReward(s.procs[k], coupon) {
          assert CreatesReward(s'.procs[k], coupon);
        }
      case LoseCounters(_) =>
        if k :| k in s.procs && CreatesReward(s.procs[k], coupon) {
          assert CreatesReward(s'.procs[k], coupon);
        }
    }
  }

  /** Two jobs never create the reward of one coupon. */
  lemma OneCreator(s: System, id: int, coupon: int)
    requires OnceInv(s) && id in s.procs && CreatesReward(s.procs[id], coupon)
    ensures forall k :: k in s.procs && CreatesReward(s.procs[k], coupon) ==> k == id
  {
    forall k | k in s.procs && CreatesReward(s.procs[k], coupon) ensures k == id {
      assert ProcOk(s, k) && ProcOk(s, id);
    }
  }

  lemma GoIsPaid(c: Config, s: System, id: int, up: bool, coupon: int)
    requires OnceInv(s) && CanMove(s, Go(id, up)) && !Unpaid(s, coupon) && coupon in s.w.coupons
    ensures !Unpaid(MoveOn(c, s, Go(id, up)), coupon)
  {
    var p := s.procs[id];
    var s' := MoveOn(c, s, Go(id, up));
    StepPays(c, s.w, p.j, p.l, up, coupon);
    assert s'.procs[id] == Alive(p.j, Step(c, s.w, p.j, p.l, up).1);
    if k :| k in s.procs && k != id && CreatesReward(s.procs[k], coupon) {
      assert s'.procs[k] == s.procs[k];
      assert CreatesReward(s'.procs[k], coupon);
    } else if CreatesReward(s.procs[id], coupon) {
      assert !Unrewarded(s'.w, coupon);
    } else if Marks(s.w, p.j, p.l) && p.j.coupon == coupon {
      assert CreatesReward(s'.procs[id], coupon) || s'.w.coupons[coupon].status != Winner;
    }
  }

  /** And it stays unpaid for good, whatever runs afterwards. */
  lemma UnpaidStays(c: Config, s: System, m: Move, coupon: int)
    requires OnceInv(s) && CanMove(s, m) && Unpaid(s, coupon)
    ensures Unpaid(MoveOn(c, s, m), coupon)
  {
    if m.Go? {
      var p := s.procs[m.id];
      StepAppliedStay(c, s.w, p.j, p.l, m.up);
      StepPays(c, s.w, p.j, p.l, m.up, coupon);
    }
  }

  lemma {:induction false} UnpaidForGood(c: Config, s: System, ms: seq<Move>, coupon: int)
    requires OnceInv(s) && IsTrace(c, s, ms) && Unpaid(s, coupon)
    ensures Unpaid(Trace(c, s, ms), coupon)
    decreases |ms|
  {
    if ms != [] {
      UnpaidStays(c, s, ms[0], coupon);
      TraceKeepsOnce(c, s, [ms[0]]);
      TraceOfOne(c, s, ms[0]);
      UnpaidForGood(c, MoveOn(c, s, ms[0]), ms[1..], coupon);
    }
  }

  /** A lone job gets as far as the reward it is about to create. */
  lemma ReachesReward(c: Config, s: System, j: Job) returns (t: System)
    requires s.procs == map[] && Valid(s.w, j) && WellQueued(s.w, j) && UnderCap(c, s.w, j) && IsLimited(s.w, j.session)
    requires s.w.coupons[j.coupon].appliedAt.None?
    requires |AppliedIn(s.w.coupons, j.session)| < SlotsOf(s.w, j.session)
    ensures var slots, p := SlotsOf(s.w, j.session), |AppliedIn(s.w.coupons, j.session)| + 1;
      && Leads(c, s, t) && t.procs == map[1 := Alive(j, CreateReward(s.w.sessions[j.session], slots, p))]
      && t.w == s.w.(applied := t.w.applied,
                     coupons := s.w.coupons[j.coupon := MarkedCoupon(s.w.coupons[j.coupon], slots, p, j.at)])
  {
    var row, slots := s.w.sessions[j.session], SlotsOf(s.w, j.session);
    var n := |AppliedIn(s.w.coupons, j.session)|;
    var s1 := At(s, s.w, 1, j, CountApplied(row, slots));
    SpawnToResync(c, s, 1, j);
    var s2 := At(s1, s.w.(applied := Synced(s.w, j.session, slots)), 1, j, TakeSlot(row, slots));
    Resync(c, s1, 1, j, row, slots);
    LeadsOn(c, s, s1, s2);
    var s3 := At(s2, s2.w.(applied := s2.w.applied[j.session := n + 1]), 1, j, MarkCoupon(row, slots, n + 1));
    Take(c, s2, 1, j, row, slots);
    LeadsOn(c, s, s2, s3);
    t := MarkAt(c, s3, 1, j, row, slots, n + 1);
    LeadsOn(c, s, s3, t);
  }

  /** Such a crash is possible wherever a job can be accepted under a slot limit. */
  lemma CrashLosesReward(c: Config, s: System, j: Job) returns (t: System)
    requires s.procs == map[] && Valid(s.w, j) && WellQueued(s.w, j) && UnderCap(c, s.w, j) && IsLimited(s.w, j.session)
    requires s.w.coupons[j.coupon].appliedAt.None? && RewardsOk(s.w)
    requires |AppliedIn(s.w.coupons, j.session)| < SlotsOf(s.w, j.session)
    ensures Leads(c, s, t) && Unpaid(t, j.coupon)
  {
    var u := ReachesReward(c, s, j);
    LeadsOne(c, u, Kill(1));
    t := MoveOn(c, u, Kill(1));
    LeadsOn(c, s, u, t);
    forall i | 0 <= i < |s.w.rewards| ensures s.w.rewards[i].coupon != j.coupon {
      assert s.w.coupons[s.w.rewards[i].coupon].appliedAt.Some?;
    }
  }
}
