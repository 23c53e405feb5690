/** `handleExpireSessionCoupons`: once the sales trigger of a completed session has
    been reached, its unused coupons are expired in batches. */
module Expiry {
  import opened Schema

  /** A JavaScript number, or a value of another type (`NoNumber`). */
  datatype Number = Finite(x: real) | PosInfinity | NegInfinity | NaN | NoNumber

  /** Identifiers that are falsy in the payload are zero here. */
  datatype Job = Job(session: int, profile: int, sales: Number, batchSize: Number)

  datatype SkipReason = SessionNotCompleted | NoSalesTrigger | ThresholdNotReached | NoPendingCoupons

  datatype Outcome =
    | InvalidPayload
    | SessionNotFound
    | WrongProfile
    | Skipped(reason: SkipReason)
    | Done(expired: nat, batches: nat)

  const MAX_BATCH_SIZE := 2000

  /** `configured` is what `parseInt` makes of the environment variable, if a number. */
  function DefaultBatchSize(configured: Option<int>): int {
    var n := if configured == None || configured == Some(0) then 500 else configured.value;
    if n < 100 then 100 else n
  }

  function ResolveBatchSize(requested: Number, configured: Option<int>): int {
    if requested.Finite? && 0.0 < requested.x <= MAX_BATCH_SIZE as real then requested.x.Floor
    else if DefaultBatchSize(configured) < MAX_BATCH_SIZE then DefaultBatchSize(configured)
    else MAX_BATCH_SIZE
  }

  /** Whatever is requested and configured, a batch has at most 2000 coupons, and it
      has none exactly when a fraction below one is requested. */
  lemma BatchSizeRange(requested: Number, configured: Option<int>)
    ensures 0 <= ResolveBatchSize(requested, configured) <= MAX_BATCH_SIZE
    ensures ResolveBatchSize(requested, configured) == 0 <==> requested.Finite? && 0.0 < requested.x < 1.0
    ensures !requested.Finite? || requested.x <= 0.0 || requested.x > MAX_BATCH_SIZE as real ==>
      ResolveBatchSize(requested, configured) >= 100
    ensures requested.Finite? && 1.0 <= requested.x <= MAX_BATCH_SIZE as real ==>
      ResolveBatchSize(requested, configured) as real <= requested.x < ResolveBatchSize(requested, configured) as real + 1.0
    ensures requested == NoNumber && (configured.None? || configured == Some(0)) ==>
      ResolveBatchSize(requested, configured) == 500
    ensures requested == NoNumber && configured.Some? && configured.value != 0 ==>
      var n := ResolveBatchSize(requested, configured);
      && (100 <= configured.value <= 2000 ==> n == configured.value)
      && (configured.value < 100 ==> n == 100) && (configured.value > 2000 ==> n == 2000)
  {
    if requested.Finite? && 0.0 < requested.x <= MAX_BATCH_SIZE as real {
      assert requested.x.Floor as real <= requested.x < (requested.x.Floor + 1) as real;
    }
  }

  // ----- Which coupons ------------------------------------------------------------------

  predicate IsPending(k: Coupon, session: int) {
    k.session == Some(session) && k.isValid && !k.isRedeemed && k.appliedAt.None?
  }

  function PendingIn(coupons: map<int, Coupon>, session: int): set<int> {
    set id | id in coupons && IsPending(coupons[id], session)
  }

  /** The update statement: `WHERE id IN (ids)`. */
  function Expire(coupons: map<int, Coupon>, ids: set<int>): map<int, Coupon> {
    map id | id in coupons ::
      if id in ids then coupons[id].(status := CouponStatus.Expired, isValid := false) else coupons[id]
  }

  /** Reached by the stored count or by the count in the payload. */
  predicate Reached(stored: int, payload: Number, trigger: int) {
    stored >= trigger || payload.PosInfinity? || (payload.Finite? && payload.x >= trigger as real)
  }

  /** Why the job ends before the loop, if it does. */
  function Refusal(w: World, j: Job): Option<Outcome> {
    if j.session == 0 || j.profile == 0 then Some(InvalidPayload)
    else if j.session !in w.sessions then Some(SessionNotFound)
    else
      var s := w.sessions[j.session];
      if s.profile != j.profile then Some(WrongProfile)
      else if s.status != Written(Completed) then Some(Skipped(SessionNotCompleted))
      else
        var trigger := if s.profile in w.profiles then w.profiles[s.profile].salesTrigger else None;
        if trigger.None? || trigger.value <= 0 then Some(Skipped(NoSalesTrigger))
        else if !Reached(s.sales, j.sales, trigger.value) then Some(Skipped(ThresholdNotReached))
        else None
  }

  function Ceil(n: nat, b: nat): nat
    requires b > 0
  {
    (n + b - 1) / b
  }

  // ----- The loop -------------------------------------------------------------------------

  ghost predicate IsLeast(m: int, s: set<int>) { m in s && forall y :: y in s ==> m <= y }

  lemma {:induction false} LeastExists(s: set<int>)
    requires exists x :: x in s
    ensures exists m :: IsLeast(m, s)
    decreases |s|
  {
    var x :| x in s;
    var rest := s - {x};
    if exists y :: y in rest {
      LeastExists(rest);
      var m :| IsLeast(m, rest);
      LeastOfTwo(s, x, m);
    } else {
      assert s == {x};
      assert IsLeast(x, s);
    }
  }

  lemma LeastOfTwo(s: set<int>, x: int, m: int)
    requires x in s && IsLeast(m, s - {x})
    ensures IsLeast(if m < x then m else x, s)
  {
    forall y | y in s ensures (if m < x then m else x) <= y {
      assert y == x || y in s - {x};
    }
  }

  /** The first rows of a table by id: `ORDER BY id ASC` with a `take`. */
  ghost predicate IsPage(rows: set<int>, take: nat, page: seq<int>) {
    && |page| == (if take < |rows| then take else |rows|)
    && (forall i :: 0 <= i < |page| ==> page[i] in rows)
    && Ascending(page)
    && (forall i, id :: 0 <= i < |page| && id in rows && id !in page ==> page[i] < id)
  }

  function Members(s: seq<int>): set<int> { set x | x in s }

  lemma {:induction false} AscendingMembers(s: seq<int>)
    requires Ascending(s)
    ensures |Members(s)| == |s|
    decreases |s|
  {
    if s != [] {
      var n := |s| - 1;
      AscendingMembers(s[..n]);
      assert Members(s) == Members(s[..n]) + {s[n]};
    }
  }

  ghost predicate Ascending(s: seq<int>) { forall i, j :: 0 <= i < j < |s| ==> s[i] < s[j] }

  ghost predicate AllBelow(s: seq<int>, rest: set<int>) { forall i, x :: 0 <= i < |s| && x in rest ==> s[i] < x }

  /** `page` is an ascending list of the least rows, and `rest` are the others. */
  ghost predicate Split(rows: set<int>, page: seq<int>, rest: set<int>) {
    && Members(page) <= rows && rest == rows - Members(page) && |rest| == |rows| - |page|
    && Ascending(page) && AllBelow(page, rest)
  }

  lemma AppendAscends(page: seq<int>, rest: set<int>, least: int)
    requires Ascending(page) && AllBelow(page, rest)
    requires least in rest && forall y :: y in rest ==> least <= y
    ensures Ascending(page + [least]) && AllBelow(page + [least], rest - {least})
  {
    var longer := page + [least];
    forall i, j | 0 <= i < j < |longer| ensures longer[i] < longer[j] {
      assert longer[i] == page[i];
      assert longer[j] in rest || longer[j] == page[j];
    }
  }

  lemma SplitStep(rows: set<int>, page: seq<int>, rest: set<int>, least: int)
    requires Split(rows, page, rest) && least in rest && forall y :: y in rest ==> least <= y
    ensures Split(rows, page + [least], rest - {least})
  {
    assert Members(page + [least]) == Members(page) + {least};
    AppendAscends(page, rest, least);
  }

  method FindPage(rows: set<int>, take: nat) returns (page: seq<int>)
    ensures IsPage(rows, take, page)
  {
    page := [];
    var rest := rows;
    while |page| < take && exists x :: x in rest
      invariant Split(rows, page, rest) && |page| <= take
      decreases |rest|
    {
      LeastExists(rest);
      ghost var m :| IsLeast(m, rest);
      var least :| least in rest && forall y :: y in rest ==> least <= y;
      SplitStep(rows, page, rest, least);
      page := page + [least];
      rest := rest - {least};
    }
    assert |page| == take || rest == {};
    assert forall i :: 0 <= i < |page| ==> page[i] in Members(page);
    forall i, id | 0 <= i < |page| && id in rows && id !in page ensures page[i] < id {
      assert id in rest;
    }
  }

  /** `done` has been expired, in full batches. */
  ghost predicate Progress(
    before: map<int, Coupon>, after: map<int, Coupon>, session: int, done: set<int>, expired: nat)
  {
    && done <= PendingIn(before, session)
    && after == Expire(before, done) && expired == |done|
  }

  lemma ProgressLeaves(before: map<int, Coupon>, after: map<int, Coupon>, session: int, done: set<int>, expired: nat)
    requires Progress(before, after, session, done, expired)
    ensures PendingIn(after, session) == PendingIn(before, session) - done
    ensures |PendingIn(after, session)| == |PendingIn(before, session)| - expired
  {
    var was, now := PendingIn(before, session), PendingIn(after, session);
    forall id ensures id in now <==> id in was && id !in done {
      if id in before {
        assert after[id] == if id in done then before[id].(status := CouponStatus.Expired, isValid := false) else before[id];
      }
    }
    assert now == was - done;
  }

  lemma ExpireTwice(coupons: map<int, Coupon>, a: set<int>, b: set<int>)
    ensures Expire(Expire(coupons, a), b) == Expire(coupons, a + b)
  {
  }

  lemma ProgressMade(
    before: map<int, Coupon>, after: map<int, Coupon>, session: int, done: set<int>, expired: nat,
    take: nat, page: seq<int>)
    requires Progress(before, after, session, done, expired) && IsPage(PendingIn(after, session), take, page)
    ensures Progress(before, Expire(after, Members(page)), session, done + Members(page), expired + |page|)
  {
    ProgressLeaves(before, after, session, done, expired);
    AscendingMembers(page);
    ExpireTwice(before, done, Members(page));
    var was, more := PendingIn(before, session), Members(page);
    forall id | id in more ensures id in was && id !in done {
      assert id in PendingIn(after, session);
    }
    assert done * more == {};
    assert done + more <= was;
  }

  lemma FullBatches(n: nat, b: nat, batches: nat, last: nat)
    requires b > 0 && n == batches * b + last && last < b
    ensures Ceil(n, b) == batches + (if last > 0 then 1 else 0)
  {
    if last > 0 {
      assert n + b - 1 == (batches + 1) * b + (last - 1);
      DivideExactly(n + b - 1, b, batches + 1, last - 1);
    } else {
      DivideExactly(n + b - 1, b, batches, b - 1);
    }
  }

  lemma DivideExactly(n: nat, b: nat, q: nat, r: nat)
    requires b > 0 && n == q * b + r && r < b
    ensures n / b == q
  {
    var d := n / b;
    assert n == d * b + n % b;
    Monotone(d + 1, q, b);
    Monotone(q + 1, d, b);
  }

  lemma Monotone(x: nat, y: nat, b: nat)
    ensures x <= y ==> x * b <= y * b
  {
  }

  /** What must hold for coupons to expire: a completed session of the named profile, whose
      positive trigger the stored count or a number in the payload has reached. */
  ghost predicate MayExpire(profiles: map<int, Profile>, sessions: map<int, Session>, j: Job) {
    && j.session != 0 && j.profile != 0
    && j.session in sessions && sessions[j.session].profile == j.profile
    && sessions[j.session].status == StatusText(Completed, true)
    && j.profile in profiles && profiles[j.profile].salesTrigger.Some? && profiles[j.profile].salesTrigger.value > 0
    && (sessions[j.session].sales >= profiles[j.profile].salesTrigger.value
        || j.sales.PosInfinity?
        || (j.sales.Finite? && j.sales.x >= profiles[j.profile].salesTrigger.value as real))
  }

  /** Each refusal and its exact condition, the first that applies.  The threshold is met
      when the stored count is at least the trigger, or a number in the payload is. */
  lemma RefusalInColumns(w: World, j: Job)
    ensures var named := j.session != 0 && j.profile != 0;
      var found := named && j.session in w.sessions;
      var fits := found && w.sessions[j.session].profile == j.profile;
      var ended := fits && w.sessions[j.session].status == StatusText(Completed, true);
      var triggered := ended && j.profile in w.profiles
                       && w.profiles[j.profile].salesTrigger.Some? && w.profiles[j.profile].salesTrigger.value > 0;
      && (Refusal(w, j) == Some(InvalidPayload) <==> !named)
      && (Refusal(w, j) == Some(SessionNotFound) <==> named && !found)
      && (Refusal(w, j) == Some(WrongProfile) <==> found && !fits)
      && (Refusal(w, j) == Some(Skipped(SessionNotCompleted)) <==> fits && !ended)
      && (Refusal(w, j) == Some(Skipped(NoSalesTrigger)) <==> ended && !triggered)
      && (Refusal(w, j) == Some(Skipped(ThresholdNotReached)) <==>
            triggered && !MeetsTrigger(w.sessions[j.session].sales, j.sales, w.profiles[j.profile].salesTrigger.value))
      && (Refusal(w, j) == None <==>
            triggered && MeetsTrigger(w.sessions[j.session].sales, j.sales, w.profiles[j.profile].salesTrigger.value))
  {
  }

  /** `max(stored, payload) >= trigger`, where a payload that is no number counts as zero. */
  ghost predicate MeetsTrigger(stored: int, payload: Number, trigger: int) {
    match payload
    case Finite(x) => (if stored as real > x then stored as real else x) >= trigger as real
    case PosInfinity => true
    case NegInfinity => stored >= trigger
    case NaN => (if stored > 0 then stored else 0) >= trigger
    case NoNumber => (if stored > 0 then stored else 0) >= trigger
  }

  method CheckJob(store: Store, j: Job) returns (refusal: Option<Outcome>)
    ensures refusal == Refusal(store.W(), j)
  {
    if j.session == 0 || j.profile == 0 {
      return Some(InvalidPayload);
    }
    if j.session !in store.sessions {
      return Some(SessionNotFound);
    }
    var s := store.sessions[j.session];
    if s.profile != j.profile {
      return Some(WrongProfile);
    }
    if s.status != Written(Completed) {
      return Some(Skipped(SessionNotCompleted));
    }
    var trigger := if s.profile in store.profiles then store.profiles[s.profile].salesTrigger else None;
    if trigger.None? || trigger.value <= 0 {
      return Some(Skipped(NoSalesTrigger));
    }
    if !Reached(s.sales, j.sales, trigger.value) {
      return Some(Skipped(ThresholdNotReached));
    }
    return None;
  }

  /** The outcome and the coupons after the job, by the specification. */
  ghost predicate Handled(w: World, j: Job, b: int, r: Outcome, after: map<int, Coupon>) {
    var pending, refusal := PendingIn(w.coupons, j.session), Refusal(w, j);
    && (refusal.Some? ==> r == refusal.value && after == w.coupons)
    && (refusal.None? && (b <= 0 || pending == {}) ==> r == Skipped(NoPendingCoupons) && after == w.coupons)
    && (refusal.None? && b > 0 && pending != {} ==>
          r == Done(|pending|, Ceil(|pending|, b)) && after == Expire(w.coupons, pending))
  }

  /** Column by column: coupons expire, and the job says so, exactly if they may, the batch
      size is not zero, and some are valid, neither redeemed nor applied; then all of these
      do, and no other coupon changes. */
  lemma HandledInColumns(w: World, j: Job, b: int, r: Outcome, after: map<int, Coupon>)
    requires Handled(w, j, b, r, after)
    ensures r.Done? <==>
      && MayExpire(w.profiles, w.sessions, j) && b > 0
      && exists id :: id in w.coupons && w.coupons[id].session == Some(j.session) && w.coupons[id].isValid
                      && !w.coupons[id].isRedeemed && w.coupons[id].appliedAt.None?
    ensures !r.Done? ==> after == w.coupons
    ensures r.Done? ==>
      after.Keys == w.coupons.Keys
      && forall id :: id in w.coupons ==>
           var k := w.coupons[id];
           after[id] == if k.session == Some(j.session) && k.isValid && !k.isRedeemed && k.appliedAt.None?
                        then k.(status := CouponStatus.Expired, isValid := false) else k
  {
    RefusalInColumns(w, j);
    var pending := PendingIn(w.coupons, j.session);
    assert (forall id :: id !in pending) ==> pending == {};
    forall id | id in w.coupons && w.coupons[id].session == Some(j.session) && w.coupons[id].isValid
                && !w.coupons[id].isRedeemed && w.coupons[id].appliedAt.None?
      ensures id in pending
    {
    }
  }

  /** A job that passes the checks expires exactly the pending coupons of its session,
      in ceil(n / b) batches.  It is skipped, and changes nothing, when a check fails, when
      nothing is pending, and when the batch size came out as zero. */
  method HandleExpireSessionCoupons(store: Store, j: Job, configured: Option<int>) returns (r: Outcome)
    modifies store`coupons
    ensures Handled(old(store.W()), j, ResolveBatchSize(j.batchSize, configured), r, store.coupons)
  {
    var refusal := CheckJob(store, j);
    if refusal.Some? {
      return refusal.value;
    }
    BatchSizeRange(j.batchSize, configured);
    var expired, batches := ExpireInBatches(store, j.session, ResolveBatchSize(j.batchSize, configured));
    return if expired == 0 then Skipped(NoPendingCoupons) else Done(expired, batches);
  }

  /** What the loop leaves behind. */
  ghost predicate AllExpired(
    before: map<int, Coupon>, after: map<int, Coupon>, session: int, b: nat, expired: nat, batches: nat)
  {
    var pending := PendingIn(before, session);
    && (b == 0 ==> expired == batches == 0 && after == before)
    && (b > 0 ==> after == Expire(before, pending) && expired == |pending| && batches == Ceil(|pending|, b))
  }

  ghost predicate FullOnly(
    before: map<int, Coupon>, after: map<int, Coupon>, session: int, done: set<int>,
    b: nat, expired: nat, batches: nat)
  {
    Progress(before, after, session, done, expired) && expired == batches * b && (b == 0 ==> batches == 0)
  }

  lemma EmptyPage(
    before: map<int, Coupon>, after: map<int, Coupon>, session: int, done: set<int>,
    b: nat, expired: nat, batches: nat)
    requires FullOnly(before, after, session, done, b, expired, batches)
    requires IsPage(PendingIn(after, session), b, [])
    ensures AllExpired(before, after, session, b, expired, batches)
  {
    ProgressLeaves(before, after, session, done, expired);
    if b > 0 {
      FullBatches(expired, b, batches, 0);
      assert done == PendingIn(before, session);
    } else {
      assert done == {};
    }
  }

  lemma LastPage(
    before: map<int, Coupon>, after: map<int, Coupon>, session: int, done: set<int>,
    b: nat, expired: nat, batches: nat, page: seq<int>)
    requires FullOnly(before, after, session, done, b, expired, batches)
    requires IsPage(PendingIn(after, session), b, page) && 0 < |page| < b
    ensures AllExpired(before, Expire(after, Members(page)), session, b, expired + |page|, batches + 1)
  {
    ProgressLeaves(before, after, session, done, expired);
    ProgressMade(before, after, session, done, expired, b, page);
    ProgressLeaves(before, Expire(after, Members(page)), session, done + Members(page), expired + |page|);
    assert done + Members(page) == PendingIn(before, session);
    FullBatches(expired + |page|, b, batches, |page|);
  }

  lemma FullPage(
    before: map<int, Coupon>, after: map<int, Coupon>, session: int, done: set<int>,
    b: nat, expired: nat, batches: nat, page: seq<int>)
    requires FullOnly(before, after, session, done, b, expired, batches)
    requires IsPage(PendingIn(after, session), b, page) && 0 < |page| == b
    ensures FullOnly(
      before, Expire(after, Members(page)), session, done + Members(page), b, expired + |page|, batches + 1)
    ensures expired + |page| <= |PendingIn(before, session)|
  {
    ProgressLeaves(before, after, session, done, expired);
    ProgressMade(before, after, session, done, expired, b, page);
    assert expired + b == (batches + 1) * b;
  }

  method ExpireInBatches(store: Store, session: int, b: nat) returns (expired: nat, batches: nat)
    modifies store`coupons
    ensures AllExpired(old(store.coupons), store.coupons, session, b, expired, batches)
  {
    expired, batches := 0, 0;
    ghost var before, done := store.coupons, {};
    assert Expire(before, {}) == before;
    while true
      invariant FullOnly(before, store.coupons, session, done, b, expired, batches)
      invariant expired <= |PendingIn(before, session)|
      decreases |PendingIn(before, session)| - expired
    {
      ghost var coupons := store.coupons;
      var page := FindPage(PendingIn(store.coupons, session), b);
      if |page| == 0 {
        EmptyPage(before, coupons, session, done, b, expired, batches);
        break;
      }
      store.coupons := Expire(store.coupons, Members(page));
      expired := expired + |page|;
      batches := batches + 1;
      if |page| < b {
        LastPage(before, coupons, session, done, b, expired - |page|, batches - 1, page);
        break;
      }
      FullPage(before, coupons, session, done, b, expired - |page|, batches - 1, page);
      done := done + Members(page);
    }
  }

  // ----- What that means ------------------------------------------------------------------

  /** Afterwards nothing is pending, so a second run changes nothing, and a coupon that
      was redeemed, applied, invalid or of another session is as it was. */
  lemma SecondRunChangesNothing(coupons: map<int, Coupon>, session: int)
    ensures var after := Expire(coupons, PendingIn(coupons, session));
      && PendingIn(after, session) == {}
      && Expire(after, PendingIn(after, session)) == after
      && after.Keys == coupons.Keys
      && forall id :: id in coupons ==>
           var k := coupons[id];
           after[id] == if k.session == Some(session) && k.isValid && !k.isRedeemed && k.appliedAt.None?
                        then k.(status := CouponStatus.Expired, isValid := false) else k
  {
    var after := Expire(coupons, PendingIn(coupons, session));
    assert forall id :: id in after ==> !IsPending(after[id], session);
  }
}
