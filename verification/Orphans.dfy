/** `OrphanCouponService`: coupons that were sold without a session are linked to
    the next upcoming session of their term or, failing that, refunded.

    Row orders that the database imposes are inputs: `byCreation` lists the coupons
    by creation time, `byPriority` the sessions by (priority_position, created_at). */
module Orphans {
  import opened Schema

  datatype Gateway = Razorpay | Stripe | OtherGateway

  /** A row of `transactions`; `hasPayment` tells whether `payment_id` is set. */
  datatype Payment = Payment(hasPayment: bool, gateway: Gateway)

  /** What stays fixed during a run: the enabled (profile, term) pairs, the payments
      by order, and the row orders. */
  datatype Context = Context(
    terms: set<(int, int)>, payments: map<int, Payment>, byCreation: seq<int>, byPriority: seq<int>)

  /** The calls that fail while one coupon is processed; the profile and the count are
      read twice, by the loop and by the assignment. */
  datatype Faults = Faults(
    find: bool, readCount: bool, profile: bool, profileAgain: bool, readAgain: bool,
    link: bool, increment: bool, publish: bool, lookup: bool, refund: bool, mark: bool)

  /** `refunds` records the coupons the payment gateways have refunded. */
  datatype Shop = Shop(w: World, refunds: seq<int>)

  datatype Orphan = Orphan(id: int, term: Option<int>, order: Option<int>)

  datatype Verdict = NoTerm | Assigned | Refunded | Failed

  // ----- Queries ------------------------------------------------------------------------

  predicate IsOrphan(k: Coupon) { k.session.None? && k.isValid }

  /** `WHERE session_id IS NULL AND is_valid` in creation order. */
  function OrphansIn(coupons: map<int, Coupon>, order: seq<int>): seq<Orphan> {
    if order == [] then []
    else
      var id, rest := order[|order| - 1], OrphansIn(coupons, order[..|order| - 1]);
      if id in coupons && IsOrphan(coupons[id])
      then rest + [Orphan(id, coupons[id].term, coupons[id].order)] else rest
  }

  predicate IsUpcomingFor(w: World, terms: set<(int, int)>, term: int, id: int) {
    && id in w.sessions
    && var s := w.sessions[id];
       s.status == Written(Upcoming) && s.isActive && !s.isDeleted
       && s.profile in w.profiles && w.profiles[s.profile].isActive && !w.profiles[s.profile].isDeleted
       && (s.profile, term) in terms
  }

  ghost predicate IsFirstUpcoming(w: World, terms: set<(int, int)>, term: int, order: seq<int>, k: nat) {
    && k < |order| && IsUpcomingFor(w, terms, term, order[k])
    && forall i :: 0 <= i < k ==> !IsUpcomingFor(w, terms, term, order[i])
  }

  /** The first suitable session in the row order, if there is one. */
  function FindUpcoming(w: World, terms: set<(int, int)>, term: int, order: seq<int>): (r: Option<int>)
    ensures r.Some? ==> IsUpcomingFor(w, terms, term, r.value)
    ensures r.Some? ==> exists k: nat :: IsFirstUpcoming(w, terms, term, order, k) && order[k] == r.value
    ensures r.None? ==> forall i :: 0 <= i < |order| ==> !IsUpcomingFor(w, terms, term, order[i])
  {
    if order == [] then None
    else if IsUpcomingFor(w, terms, term, order[0]) then
      assert IsFirstUpcoming(w, terms, term, order, 0);
      Some(order[0])
    else
      FirstInRest(w, terms, term, order);
      FindUpcoming(w, terms, term, order[1..])
  }

  lemma FirstInRest(w: World, terms: set<(int, int)>, term: int, order: seq<int>)
    requires order != [] && !IsUpcomingFor(w, terms, term, order[0])
    ensures forall k: nat :: IsFirstUpcoming(w, terms, term, order[1..], k) ==>
      IsFirstUpcoming(w, terms, term, order, k + 1) && order[k + 1] == order[1..][k]
    ensures forall i :: 1 <= i < |order| ==> order[i] == order[1..][i - 1]
  {
    assert forall i :: 1 <= i < |order| ==> order[i] == order[1..][i - 1];
  }

  /** GET: a missing key reads as zero. */
  function SalesOf(sales: map<int, Text>, id: int): Text {
    if id in sales then sales[id] else Number(0)
  }

  /** A count that is no number compares false with everything. */
  predicate TriggerReached(trigger: Option<int>, count: Text) {
    trigger.Some? && count.Number? && count.n >= trigger.value
  }

  // ----- One coupon ---------------------------------------------------------------------

  predicate RefundSucceeds(ctx: Context, order: Option<int>, f: Faults) {
    && order.Some? && !f.lookup && order.value in ctx.payments
    && ctx.payments[order.value].hasPayment && !ctx.payments[order.value].gateway.OtherGateway?
    && !f.refund
  }

  function Refund(sh: Shop, ctx: Context, o: Orphan, f: Faults): (Shop, Verdict) {
    if !RefundSucceeds(ctx, o.order, f) then (sh, Failed)
    else
      (Shop(if f.mark || o.id !in sh.w.coupons then sh.w
            else sh.w.(coupons := sh.w.coupons[o.id := sh.w.coupons[o.id].(isValid := false)]),
            sh.refunds + [o.id]),
       Refunded)
  }

  function Linked(w: World, coupon: int, session: int): World {
    if coupon in w.coupons then w.(coupons := w.coupons[coupon := w.coupons[coupon].(session := Some(session))]) else w
  }

  datatype Assignment = Made | ShouldRefund | NotMade

  /** A failure after the link leaves the coupon linked, with its sale not counted. */
  function Assign(sh: Shop, o: Orphan, session: int, profile: int, f: Faults): (Shop, Assignment) {
    if f.profileAgain || profile !in sh.w.profiles || f.readAgain then (sh, NotMade)
    else if TriggerReached(sh.w.profiles[profile].salesTrigger, SalesOf(sh.w.sales, session)) then (sh, ShouldRefund)
    else if f.link || o.id !in sh.w.coupons || session !in sh.w.sessions then (sh, NotMade)
    else
      var w := Linked(sh.w, o.id, session);
      var count := SalesOf(w.sales, session);
      if f.increment || count.NotANumber? then (sh.(w := w), NotMade)
      else
        (sh.(w := w.(sales := w.sales[session := Number(count.n + 1)])), if f.publish then NotMade else Made)
  }

  function Process(sh: Shop, ctx: Context, o: Orphan, f: Faults): (Shop, Verdict) {
    if o.term.None? || o.term.value == 0 then (sh, NoTerm)
    else
      var found := if f.find then None else FindUpcoming(sh.w, ctx.terms, o.term.value, ctx.byPriority);
      if found.None? then Refund(sh, ctx, o, f)
      else if f.readCount || f.profile then (sh, Failed)
      else
        var profile := sh.w.sessions[found.value].profile;
        if TriggerReached(sh.w.profiles[profile].salesTrigger, SalesOf(sh.w.sales, found.value))
        then Refund(sh, ctx, o, f)
        else
          var r := Assign(sh, o, found.value, profile, f);
          (r.0, if r.1.Made? then Assigned else Failed)
  }

  /** The assignment's own check of the trigger is for a count that has grown since the
      loop's: when it refuses, nothing changes, so the coupon is still an orphan, and it
      refuses only what the loop, reading the same count, would have refunded itself. */
  lemma SecondCheckOnlyRefuses(sh: Shop, o: Orphan, session: int, profile: int, f: Faults)
    ensures Assign(sh, o, session, profile, f).1.ShouldRefund? ==>
      && Assign(sh, o, session, profile, f).0 == sh && profile in sh.w.profiles
      && TriggerReached(sh.w.profiles[profile].salesTrigger, SalesOf(sh.w.sales, session))
    ensures profile in sh.w.profiles && !f.profileAgain && !f.readAgain
            && TriggerReached(sh.w.profiles[profile].salesTrigger, SalesOf(sh.w.sales, session)) ==>
      Assign(sh, o, session, profile, f).1.ShouldRefund?
  {
  }

  // ----- One coupon, column by column -----------------------------------------------------------

  /** The session may take coupons of the term: upcoming, active and undeleted, with an
      active, undeleted profile that enables the term. */
  ghost predicate Takes(w: World, ctx: Context, term: int, id: int) {
    && id in w.sessions && w.sessions[id].status == StatusText(Upcoming, true)
    && w.sessions[id].isActive && !w.sessions[id].isDeleted
    && w.sessions[id].profile in w.profiles
    && w.profiles[w.sessions[id].profile].isActive && !w.profiles[w.sessions[id].profile].isDeleted
    && (w.sessions[id].profile, term) in ctx.terms
  }

  /** The order has a payment that can be given back. */
  ghost predicate IsPaid(ctx: Context, order: Option<int>) {
    && order.Some? && order.value in ctx.payments && ctx.payments[order.value].hasPayment
    && (ctx.payments[order.value].gateway.Razorpay? || ctx.payments[order.value].gateway.Stripe?)
  }

  /** The sales counter has reached the trigger of the session's profile. */
  ghost predicate IsSoldOut(w: World, session: int)
    requires session in w.sessions && w.sessions[session].profile in w.profiles
  {
    var trigger := w.profiles[w.sessions[session].profile].salesTrigger;
    && trigger.Some?
    && if session in w.sales then w.sales[session].Number? && w.sales[session].n >= trigger.value
       else 0 >= trigger.value
  }

  /** A refund: the coupon joins the refunded ones and is no longer valid, unless marking it
      failed; without a payment, or when the look-up or the gateway fails, an error that
      changes nothing. */
  ghost predicate GivenBack(sh: Shop, ctx: Context, o: Orphan, f: Faults, sh': Shop, v: Verdict)
    requires o.id in sh.w.coupons
  {
    if IsPaid(ctx, o.order) && !f.lookup && !f.refund then
      && v == Refunded && sh'.refunds == sh.refunds + [o.id]
      && sh'.w == if f.mark then sh.w
                  else sh.w.(coupons := sh.w.coupons[o.id := sh.w.coupons[o.id].(isValid := false)])
    else v == Failed && sh' == sh
  }

  /** A link: the coupon names the session and the session's count is one higher.  An early
      failure leaves everything alone, a failed increment the count; after a failed message
      only the answer differs. */
  ghost predicate HandedTo(sh: Shop, o: Orphan, session: int, f: Faults, sh': Shop, v: Verdict)
    requires o.id in sh.w.coupons
  {
    if f.profileAgain || f.readAgain || f.link then v == Failed && sh' == sh
    else
      var counts := !f.increment && (session in sh.w.sales ==> sh.w.sales[session].Number?);
      var n := if session in sh.w.sales && sh.w.sales[session].Number? then sh.w.sales[session].n else 0;
      && v == (if counts && !f.publish then Assigned else Failed)
      && sh' == sh.(w := sh.w.(
           coupons := sh.w.coupons[o.id := sh.w.coupons[o.id].(session := Some(session))],
           sales := if counts then sh.w.sales[session := Number(n + 1)] else sh.w.sales))
  }

  /** A coupon with a term goes to the first session in the priority order that takes it,
      unless that one is sold out; then, and if there is none, it is refunded. */
  lemma ProcessInColumns(sh: Shop, ctx: Context, o: Orphan, f: Faults)
    requires o.id in sh.w.coupons
    ensures var (sh', v) := Process(sh, ctx, o, f);
      if o.term.None? || o.term.value == 0 then sh' == sh && v == NoTerm
      else
        && ((f.find || forall i :: 0 <= i < |ctx.byPriority| ==> !Takes(sh.w, ctx, o.term.value, ctx.byPriority[i])) ==>
              GivenBack(sh, ctx, o, f, sh', v))
        && (forall k: nat :: !f.find && k < |ctx.byPriority| && Takes(sh.w, ctx, o.term.value, ctx.byPriority[k])
                             && (forall i :: 0 <= i < k ==> !Takes(sh.w, ctx, o.term.value, ctx.byPriority[i])) ==>
              if f.readCount || f.profile then v == Failed && sh' == sh
              else if IsSoldOut(sh.w, ctx.byPriority[k]) then GivenBack(sh, ctx, o, f, sh', v)
              else HandedTo(sh, o, ctx.byPriority[k], f, sh', v))
  {
    if o.term.Some? && o.term.value != 0 && !f.find {
      var term, order := o.term.value, ctx.byPriority;
      forall i | 0 <= i < |order| ensures Takes(sh.w, ctx, term, order[i]) <==> IsUpcomingFor(sh.w, ctx.terms, term, order[i]) {
      }
      var found := FindUpcoming(sh.w, ctx.terms, term, order);
      if found.Some? {
        var j: nat :| IsFirstUpcoming(sh.w, ctx.terms, term, order, j) && order[j] == found.value;
        FirstIsFound(sh, ctx, o, f, found.value);
        forall k: nat | k < |order| && Takes(sh.w, ctx, term, order[k])
                        && (forall i :: 0 <= i < k ==> !Takes(sh.w, ctx, term, order[i]))
          ensures k == j
        {
        }
      }
    }
  }

  lemma FirstIsFound(sh: Shop, ctx: Context, o: Orphan, f: Faults, session: int)
    requires o.id in sh.w.coupons && o.term.Some? && o.term.value != 0 && !f.find
    requires FindUpcoming(sh.w, ctx.terms, o.term.value, ctx.byPriority) == Some(session)
    ensures session in sh.w.sessions && sh.w.sessions[session].profile in sh.w.profiles
    ensures var (sh', v) := Process(sh, ctx, o, f);
      if f.readCount || f.profile then v == Failed && sh' == sh
      else if IsSoldOut(sh.w, session) then GivenBack(sh, ctx, o, f, sh', v)
      else HandedTo(sh, o, session, f, sh', v)
  {
  }

  // ----- A run ----------------------------------------------------------------------------

  datatype Stats = Stats(processed: nat, linked: nat, refunded: nat, errors: nat, noTerm: nat)

  function Tally(s: Stats, v: Verdict): Stats {
    var t := s.(processed := s.processed + 1);
    match v
    case NoTerm => t.(noTerm := s.noTerm + 1)
    case Assigned => t.(linked := s.linked + 1)
    case Refunded => t.(refunded := s.refunded + 1)
    case Failed => t.(errors := s.errors + 1)
  }

  /** The first `n` orphans of the list, processed in order. */
  function ProcessFirst(sh: Shop, ctx: Context, list: seq<Orphan>, n: nat, faults: int -> Faults): (Shop, Stats)
    requires n <= |list|
  {
    if n == 0 then (sh, Stats(0, 0, 0, 0, 0))
    else
      var before := ProcessFirst(sh, ctx, list, n - 1, faults);
      var r := Process(before.0, ctx, list[n - 1], faults(list[n - 1].id));
      (r.0, Tally(before.1, r.1))
  }

  function RunOrphans(sh: Shop, ctx: Context, faults: int -> Faults): (Shop, Stats) {
    var list := OrphansIn(sh.w.coupons, ctx.byCreation);
    ProcessFirst(sh, ctx, list, |list|, faults)
  }

  // ----- The methods ----------------------------------------------------------------------

  class Refunds {
    var done: seq<int>
  }

  function Take<T>(s: seq<T>, skip: nat, n: nat): seq<T> {
    if skip >= |s| then [] else if skip + n <= |s| then s[skip..skip + n] else s[skip..]
  }

  /** The skip/take loop returns the whole result, each row once. */
  method FindOrphanCoupons(store: Store, ctx: Context, batchSize: nat) returns (all: seq<Orphan>)
    requires batchSize > 0
    ensures all == OrphansIn(store.coupons, ctx.byCreation)
  {
    ghost var rows := OrphansIn(store.coupons, ctx.byCreation);
    var skip := 0;
    all := [];
    while true
      invariant all == rows[..if skip < |rows| then skip else |rows|]
      decreases |rows| - skip
    {
      var batch := Take(OrphansIn(store.coupons, ctx.byCreation), skip, batchSize);
      if |batch| == 0 {
        break;
      }
      all := all + batch;
      skip := skip + batchSize;
    }
    assert rows[..|rows|] == rows;
  }

  method ProcessRefund(store: Store, refunds: Refunds, ctx: Context, o: Orphan, f: Faults) returns (v: Verdict)
    modifies store`coupons, refunds
    ensures (Shop(store.W(), refunds.done), v) == Refund(Shop(old(store.W()), old(refunds.done)), ctx, o, f)
  {
    if o.order.None? || f.lookup {
      return Failed;
    }
    if o.order.value !in ctx.payments || !ctx.payments[o.order.value].hasPayment {
      return Failed;
    }
    var gateway := ctx.payments[o.order.value].gateway;
    if gateway == OtherGateway || f.refund {
      return Failed;
    }
    refunds.done := refunds.done + [o.id];
    if !f.mark && o.id in store.coupons {
      store.coupons := store.coupons[o.id := store.coupons[o.id].(isValid := false)];
    }
    return Refunded;
  }

  method AssignCouponToSession(store: Store, o: Orphan, session: int, profile: int, f: Faults)
    returns (r: Assignment)
    modifies store`coupons, store`sales
    ensures forall refunds ::
      (Shop(store.W(), refunds), r) == Assign(Shop(old(store.W()), refunds), o, session, profile, f)
  {
    if f.profileAgain || profile !in store.profiles {
      return NotMade;
    }
    if f.readAgain {
      return NotMade;
    }
    var trigger := store.profiles[profile].salesTrigger;
    var current := SalesOf(store.sales, session);
    if trigger.Some? && current.Number? && current.n >= trigger.value {
      return ShouldRefund;
    }
    if f.link || o.id !in store.coupons || session !in store.sessions {
      return NotMade;
    }
    store.coupons := store.coupons[o.id := store.coupons[o.id].(session := Some(session))];
    var count := SalesOf(store.sales, session);
    if f.increment || count.NotANumber? {
      return NotMade;
    }
    store.sales := store.sales[session := Number(count.n + 1)];
    return if f.publish then NotMade else Made;
  }

  method ProcessOrphanCoupons(store: Store, refunds: Refunds, ctx: Context, faults: int -> Faults) returns (stats: Stats)
    modifies store`coupons, store`sales, refunds
    ensures (Shop(store.W(), refunds.done), stats)
         == RunOrphans(Shop(old(store.W()), old(refunds.done)), ctx, faults)
  {
    ghost var sh := Shop(store.W(), refunds.done);
    var list := FindOrphanCoupons(store, ctx, 50);
    stats := Stats(0, 0, 0, 0, 0);
    for i := 0 to |list|
      invariant (Shop(store.W(), refunds.done), stats) == ProcessFirst(sh, ctx, list, i, faults)
    {
      var o := list[i];
      var f := faults(o.id);
      var v := Failed;
      if o.term.None? || o.term.value == 0 {
        v := NoTerm;
      } else {
        var found := if f.find then None else FindUpcoming(store.W(), ctx.terms, o.term.value, ctx.byPriority);
        if found.None? {
          v := ProcessRefund(store, refunds, ctx, o, f);
        } else if !f.readCount && !f.profile {
          var profile := store.sessions[found.value].profile;
          if TriggerReached(store.profiles[profile].salesTrigger, SalesOf(store.sales, found.value)) {
            v := ProcessRefund(store, refunds, ctx, o, f);
          } else {
            var r := AssignCouponToSession(store, o, found.value, profile, f);
            v := if r.Made? then Assigned else Failed;
          }
        }
      }
      stats := Tally(stats, v);
    }
  }

  // ----- Counting ---------------------------------------------------------------------------

  /** What became of the first `n` listed coupons, one by one. */
  function Verdicts(sh: Shop, ctx: Context, list: seq<Orphan>, n: nat, faults: int -> Faults): (vs: seq<Verdict>)
    requires n <= |list|
    ensures |vs| == n
  {
    if n == 0 then []
    else
      Verdicts(sh, ctx, list, n - 1, faults)
      + [Process(ProcessFirst(sh, ctx, list, n - 1, faults).0, ctx, list[n - 1], faults(list[n - 1].id)).1]
  }

  function TallyAll(vs: seq<Verdict>): Stats {
    if vs == [] then Stats(0, 0, 0, 0, 0) else Tally(TallyAll(vs[..|vs| - 1]), vs[|vs| - 1])
  }

  /** Each verdict counts in its own tally. */
  lemma {:induction false} TallyCounts(vs: seq<Verdict>)
    ensures var m := multiset(vs);
      TallyAll(vs) == Stats(|vs|, m[Assigned], m[Refunded], m[Failed], m[NoTerm])
    ensures var m := multiset(vs); |vs| == m[Assigned] + m[Refunded] + m[Failed] + m[NoTerm]
    decreases |vs|
  {
    if vs != [] {
      var n := |vs| - 1;
      TallyCounts(vs[..n]);
      assert vs == vs[..n] + [vs[n]];
    }
  }

  lemma {:induction false} StatsAreTallies(sh: Shop, ctx: Context, list: seq<Orphan>, n: nat, faults: int -> Faults)
    requires n <= |list|
    ensures ProcessFirst(sh, ctx, list, n, faults).1 == TallyAll(Verdicts(sh, ctx, list, n, faults))
    decreases n
  {
    if n > 0 {
      StatsAreTallies(sh, ctx, list, n - 1, faults);
      assert Verdicts(sh, ctx, list, n, faults)[..n - 1] == Verdicts(sh, ctx, list, n - 1, faults);
    }
  }

  lemma RefundsCount(sh: Shop, ctx: Context, o: Orphan, f: Faults)
    ensures var r := Process(sh, ctx, o, f);
      |r.0.refunds| == |sh.refunds| + (if r.1 == Refunded then 1 else 0)
  {
  }

  lemma {:induction false} RefundsAreCounted(sh: Shop, ctx: Context, list: seq<Orphan>, n: nat, faults: int -> Faults)
    requires n <= |list|
    ensures |ProcessFirst(sh, ctx, list, n, faults).0.refunds|
         == |sh.refunds| + multiset(Verdicts(sh, ctx, list, n, faults))[Refunded]
    decreases n
  {
    if n > 0 {
      RefundsAreCounted(sh, ctx, list, n - 1, faults);
      RefundsCount(ProcessFirst(sh, ctx, list, n - 1, faults).0, ctx, list[n - 1], faults(list[n - 1].id));
    }
  }

  /** The tallies count the verdicts, one for each orphan, and the refunds made. */
  lemma RunProcessesEachOrphan(sh: Shop, ctx: Context, faults: int -> Faults)
    ensures var (sh', s) := RunOrphans(sh, ctx, faults);
      var list := OrphansIn(sh.w.coupons, ctx.byCreation);
      var m := multiset(Verdicts(sh, ctx, list, |list|, faults));
      && s == Stats(|list|, m[Assigned], m[Refunded], m[Failed], m[NoTerm])
      && s.processed == s.linked + s.refunded + s.errors + s.noTerm
      && |sh'.refunds| == |sh.refunds| + s.refunded
  {
    var list := OrphansIn(sh.w.coupons, ctx.byCreation);
    StatsAreTallies(sh, ctx, list, |list|, faults);
    TallyCounts(Verdicts(sh, ctx, list, |list|, faults));
    RefundsAreCounted(sh, ctx, list, |list|, faults);
  }

  // ----- What a run touches -------------------------------------------------------------------

  predicate DistinctOrphans(list: seq<Orphan>) {
    forall i, j :: 0 <= i < j < |list| ==> list[i].id != list[j].id
  }

  lemma {:induction false} OrphansAreOrphans(coupons: map<int, Coupon>, order: seq<int>)
    requires forall i, j :: 0 <= i < j < |order| ==> order[i] != order[j]
    ensures var list := OrphansIn(coupons, order);
      && DistinctOrphans(list)
      && (forall i :: 0 <= i < |list| ==>
            && list[i].id in order && list[i].id in coupons && IsOrphan(coupons[list[i].id])
            && coupons[list[i].id].session.None? && coupons[list[i].id].isValid
            && list[i] == Orphan(list[i].id, coupons[list[i].id].term, coupons[list[i].id].order))
      && (forall id :: id in order && id in coupons && coupons[id].session.None? && coupons[id].isValid ==>
            exists i :: 0 <= i < |list| && list[i].id == id)
    decreases |order|
  {
    if order != [] {
      var n := |order| - 1;
      OrphansAreOrphans(coupons, order[..n]);
      var list, front := OrphansIn(coupons, order), OrphansIn(coupons, order[..n]);
      assert forall i :: 0 <= i < n ==> order[..n][i] == order[i];
      assert order[n] !in order[..n];
      forall id | id in order && id in coupons && IsOrphan(coupons[id])
        ensures exists i :: 0 <= i < |list| && list[i].id == id
      {
        if id == order[n] {
          assert list[|front|].id == id;
        } else {
          assert id in order[..n];
          var i :| 0 <= i < |front| && front[i].id == id;
          assert list[i].id == id;
        }
      }
    }
  }

  /** One coupon's processing changes that coupon only: it links it to an upcoming
      session, strikes it out, or leaves it alone. */
  ghost predicate Framed(w: World, w': World, id: int) {
    && w'.profiles == w.profiles && w'.sessions == w.sessions
    && w'.rewards == w.rewards && w'.applied == w.applied
    && w'.coupons.Keys == w.coupons.Keys
    && (forall x :: x in w.coupons && x != id ==> w'.coupons[x] == w.coupons[x])
    && (id in w.coupons ==>
          var k, k' := w.coupons[id], w'.coupons[id];
          || k' == k || k' == k.(isValid := false)
          || (k'.session.Some? && k' == k.(session := k'.session)
              && k'.session.value in w.sessions && w.sessions[k'.session.value].status == Written(Upcoming)))
  }

  lemma RefundFrame(sh: Shop, ctx: Context, o: Orphan, f: Faults)
    ensures Framed(sh.w, Refund(sh, ctx, o, f).0.w, o.id)
  {
    if RefundSucceeds(ctx, o.order, f) && !f.mark && o.id in sh.w.coupons {
      var after := sh.w.coupons[o.id := sh.w.coupons[o.id].(isValid := false)];
      assert after.Keys == sh.w.coupons.Keys;
      assert Refund(sh, ctx, o, f).0.w.coupons == after;
    } else {
      assert Refund(sh, ctx, o, f).0.w == sh.w;
    }
  }

  lemma AssignFrame(sh: Shop, o: Orphan, session: int, profile: int, f: Faults)
    requires session in sh.w.sessions && sh.w.sessions[session].status == Written(Upcoming)
    ensures Framed(sh.w, Assign(sh, o, session, profile, f).0.w, o.id)
  {
    var w := Assign(sh, o, session, profile, f).0.w;
    if w != sh.w {
      var after := sh.w.coupons[o.id := sh.w.coupons[o.id].(session := Some(session))];
      assert after.Keys == sh.w.coupons.Keys;
      assert w.coupons == after;
    }
  }

  lemma ProcessFrame(sh: Shop, ctx: Context, o: Orphan, f: Faults)
    ensures Framed(sh.w, Process(sh, ctx, o, f).0.w, o.id)
  {
    RefundFrame(sh, ctx, o, f);
    if o.term.Some? {
      var found := FindUpcoming(sh.w, ctx.terms, o.term.value, ctx.byPriority);
      if found.Some? {
        AssignFrame(sh, o, found.value, sh.w.sessions[found.value].profile, f);
      }
    }
  }

  // ----- Conservation of the sales counters -----------------------------------------------------

  /** The coupons a stretch of processing has linked to the session. */
  function NewLinks(before: map<int, Coupon>, after: map<int, Coupon>, session: int): set<int> {
    set id | id in before && id in after && before[id].session.None? && after[id].session == Some(session)
  }

  predicate IsNumber(sales: map<int, Text>, session: int) { session in sales ==> sales[session].Number? }

  function Count(sales: map<int, Text>, session: int): int {
    if session in sales && sales[session].Number? then sales[session].n else 0
  }

  function TriggerOf(w: World, session: int): Option<int> {
    if session in w.sessions && w.sessions[session].profile in w.profiles
    then w.profiles[w.sessions[session].profile].salesTrigger else None
  }

  /** Linking a coupon is the only way a counter moves, and it moves by one, from
      below the trigger. */
  ghost predicate CountMoves(w: World, w': World, id: int, session: int, sure: bool)
    requires id in w'.coupons
  {
    var linked := w'.coupons[id].session == Some(session);
    var n, n' := Count(w.sales, session), Count(w'.sales, session);
    && IsNumber(w'.sales, session)
    && (n' == n || (n' == n + 1 && linked))
    && (linked && sure ==> n' == n + 1)
    && (n' == n + 1 && TriggerOf(w, session).Some? ==> n' <= TriggerOf(w, session).value)
  }

  lemma RefundCounts(sh: Shop, ctx: Context, o: Orphan, f: Faults, session: int)
    requires o.id in sh.w.coupons && IsOrphan(sh.w.coupons[o.id]) && IsNumber(sh.w.sales, session)
    ensures o.id in Refund(sh, ctx, o, f).0.w.coupons
    ensures CountMoves(sh.w, Refund(sh, ctx, o, f).0.w, o.id, session, !f.increment)
  {
  }

  lemma AssignCounts(sh: Shop, o: Orphan, found: int, f: Faults, session: int)
    requires o.id in sh.w.coupons && IsOrphan(sh.w.coupons[o.id]) && IsNumber(sh.w.sales, session)
    requires found in sh.w.sessions
    ensures var r := Assign(sh, o, found, sh.w.sessions[found].profile, f).0;
      o.id in r.w.coupons && CountMoves(sh.w, r.w, o.id, session, !f.increment)
  {
  }

  lemma ProcessCounts(sh: Shop, ctx: Context, o: Orphan, f: Faults, session: int)
    requires o.id in sh.w.coupons && IsOrphan(sh.w.coupons[o.id]) && IsNumber(sh.w.sales, session)
    ensures o.id in Process(sh, ctx, o, f).0.w.coupons
    ensures CountMoves(sh.w, Process(sh, ctx, o, f).0.w, o.id, session, !f.increment)
  {
    RefundCounts(sh, ctx, o, f, session);
    if o.term.Some? {
      var found := FindUpcoming(sh.w, ctx.terms, o.term.value, ctx.byPriority);
      if found.Some? {
        AssignCounts(sh, o, found.value, f, session);
      }
    }
  }

  /** Coupons not yet reached are as they were. */
  lemma {:induction false} Unreached(sh: Shop, ctx: Context, list: seq<Orphan>, n: nat, faults: int -> Faults)
    requires n <= |list|
    ensures var sh' := ProcessFirst(sh, ctx, list, n, faults).0;
      && sh'.w.profiles == sh.w.profiles && sh'.w.sessions == sh.w.sessions
      && sh'.w.rewards == sh.w.rewards && sh'.w.applied == sh.w.applied
      && sh'.w.coupons.Keys == sh.w.coupons.Keys
      && (forall id :: id in sh.w.coupons && (forall i :: 0 <= i < n ==> list[i].id != id) ==>
            sh'.w.coupons[id] == sh.w.coupons[id])
    decreases n
  {
    if n > 0 {
      Unreached(sh, ctx, list, n - 1, faults);
      ProcessFrame(ProcessFirst(sh, ctx, list, n - 1, faults).0, ctx, list[n - 1], faults(list[n - 1].id));
    }
  }

  ghost predicate Listable(w: World, list: seq<Orphan>) {
    DistinctOrphans(list) && forall i :: 0 <= i < |list| ==> list[i].id in w.coupons && IsOrphan(w.coupons[list[i].id])
  }

  /** The coupon about to be processed is as it was, and so are all profiles and sessions. */
  ghost predicate Untouched(sh: Shop, mid: Shop, id: int) {
    && mid.w.profiles == sh.w.profiles && mid.w.sessions == sh.w.sessions
    && mid.w.coupons.Keys == sh.w.coupons.Keys
    && id in sh.w.coupons && mid.w.coupons[id] == sh.w.coupons[id] && IsOrphan(sh.w.coupons[id])
  }

  lemma NextUntouched(sh: Shop, ctx: Context, list: seq<Orphan>, n: nat, faults: int -> Faults)
    requires 0 < n <= |list| && Listable(sh.w, list)
    ensures Untouched(sh, ProcessFirst(sh, ctx, list, n - 1, faults).0, list[n - 1].id)
  {
    var id := list[n - 1].id;
    assert forall i :: 0 <= i < n - 1 ==> list[i].id != id;
    UnreachedOne(sh, ctx, list, n - 1, faults, id);
  }

  lemma UnreachedOne(sh: Shop, ctx: Context, list: seq<Orphan>, n: nat, faults: int -> Faults, id: int)
    requires n <= |list| && id in sh.w.coupons && forall i :: 0 <= i < n ==> list[i].id != id
    ensures var sh' := ProcessFirst(sh, ctx, list, n, faults).0;
      && sh'.w.profiles == sh.w.profiles && sh'.w.sessions == sh.w.sessions
      && sh'.w.coupons.Keys == sh.w.coupons.Keys && sh'.w.coupons[id] == sh.w.coupons[id]
  {
    Unreached(sh, ctx, list, n, faults);
  }

  /** One more coupon adds itself, and nothing else, to the links. */
  lemma LinksGrow(c0: map<int, Coupon>, c1: map<int, Coupon>, c2: map<int, Coupon>, id: int, session: int)
    requires c1.Keys == c0.Keys == c2.Keys && id in c0 && c1[id] == c0[id] && c0[id].session.None?
    requires forall x :: x in c1 && x != id ==> c2[x] == c1[x]
    ensures |NewLinks(c0, c2, session)| == |NewLinks(c0, c1, session)| + (if c2[id].session == Some(session) then 1 else 0)
  {
    var was, now := NewLinks(c0, c1, session), NewLinks(c0, c2, session);
    forall x ensures x in now <==> x in was || (x == id && c2[id].session == Some(session)) {
      if x in c0 && x != id {
        assert x in c1 && c2[x] == c1[x];
      }
    }
    assert id !in was;
    assert now == if c2[id].session == Some(session) then was + {id} else was;
  }

  /** What the counter of one session and the links to it have to do with each other
      between two moments; `sure` says that no increment failed in between. */
  ghost predicate Follows(sh: Shop, sh': Shop, session: int, sure: bool) {
    var links := |NewLinks(sh.w.coupons, sh'.w.coupons, session)|;
    var before, after := Count(sh.w.sales, session), Count(sh'.w.sales, session);
    && before <= after <= before + links
    && (sure ==> after == before + links)
    && (TriggerOf(sh.w, session).Some? ==> after <= before || after <= TriggerOf(sh.w, session).value)
  }

  /** What processing one orphan does to the rows and to one counter. */
  ghost predicate OneMore(mid: Shop, sh': Shop, id: int, session: int, sure: bool) {
    && mid.w.coupons.Keys == sh'.w.coupons.Keys && id in mid.w.coupons
    && (forall x :: x in mid.w.coupons && x != id ==> sh'.w.coupons[x] == mid.w.coupons[x])
    && CountMoves(mid.w, sh'.w, id, session, sure)
  }

  lemma ProcessIsOneMore(mid: Shop, ctx: Context, o: Orphan, f: Faults, session: int)
    requires o.id in mid.w.coupons && IsOrphan(mid.w.coupons[o.id]) && IsNumber(mid.w.sales, session)
    ensures OneMore(mid, Process(mid, ctx, o, f).0, o.id, session, !f.increment)
  {
    ProcessCounts(mid, ctx, o, f, session);
    ProcessFrame(mid, ctx, o, f);
  }

  lemma FollowsOneMore(sh: Shop, mid: Shop, sh': Shop, id: int, session: int, sure: bool)
    requires Follows(sh, mid, session, sure) && OneMore(mid, sh', id, session, sure)
    requires sh.w.coupons.Keys == mid.w.coupons.Keys
    requires mid.w.coupons[id] == sh.w.coupons[id] && sh.w.coupons[id].session.None?
    requires TriggerOf(mid.w, session) == TriggerOf(sh.w, session)
    ensures Follows(sh, sh', session, sure)
  {
    LinksGrow(sh.w.coupons, mid.w.coupons, sh'.w.coupons, id, session);
  }

  lemma FollowsItself(sh: Shop, session: int, sure: bool)
    ensures Follows(sh, sh, session, sure)
  {
    assert NewLinks(sh.w.coupons, sh.w.coupons, session) == {};
  }

  lemma {:induction false} CountsFollowLinks(
    sh: Shop, ctx: Context, list: seq<Orphan>, n: nat, faults: int -> Faults, session: int, sure: bool)
    requires n <= |list| && Listable(sh.w, list) && IsNumber(sh.w.sales, session)
    requires sure ==> forall i :: 0 <= i < n ==> !faults(list[i].id).increment
    ensures IsNumber(ProcessFirst(sh, ctx, list, n, faults).0.w.sales, session)
    ensures Follows(sh, ProcessFirst(sh, ctx, list, n, faults).0, session, sure)
    decreases n
  {
    if n == 0 {
      FollowsItself(sh, session, sure);
    } else {
      var mid := ProcessFirst(sh, ctx, list, n - 1, faults).0;
      CountsFollowLinks(sh, ctx, list, n - 1, faults, session, sure);
      NextUntouched(sh, ctx, list, n, faults);
      FollowsStep(sh, mid, ctx, list[n - 1], faults(list[n - 1].id), session, sure);
    }
  }

  lemma FollowsStep(sh: Shop, mid: Shop, ctx: Context, o: Orphan, f: Faults, session: int, sure: bool)
    requires Follows(sh, mid, session, sure) && IsNumber(mid.w.sales, session) && (sure ==> !f.increment)
    requires Untouched(sh, mid, o.id)
    ensures Follows(sh, Process(mid, ctx, o, f).0, session, sure)
    ensures IsNumber(Process(mid, ctx, o, f).0.w.sales, session)
  {
    ProcessIsOneMore(mid, ctx, o, f, session);
    FollowsOneMore(sh, mid, Process(mid, ctx, o, f).0, o.id, session, sure);
  }

  ghost predicate StableOrder(ctx: Context) {
    forall i, j :: 0 <= i < j < |ctx.byCreation| ==> ctx.byCreation[i] != ctx.byCreation[j]
  }

  /** A run moves each session's sales counter by exactly the coupons it linked to
      the session, less increments that failed, and never past the larger of its
      initial value and the profile's trigger. */
  lemma RunConservesCounts(sh: Shop, ctx: Context, faults: int -> Faults, session: int)
    requires StableOrder(ctx) && IsNumber(sh.w.sales, session)
    ensures var sh' := RunOrphans(sh, ctx, faults).0;
      var links := |NewLinks(sh.w.coupons, sh'.w.coupons, session)|;
      var before, after := Count(sh.w.sales, session), Count(sh'.w.sales, session);
      && before <= after <= before + links
      && ((forall id :: !faults(id).increment) ==> after == before + links)
      && (TriggerOf(sh.w, session).Some? ==> after <= before || after <= TriggerOf(sh.w, session).value)
  {
    OrphansAreOrphans(sh.w.coupons, ctx.byCreation);
    var list := OrphansIn(sh.w.coupons, ctx.byCreation);
    CountsFollowLinks(sh, ctx, list, |list|, faults, session, false);
    if forall id :: !faults(id).increment {
      CountsFollowLinks(sh, ctx, list, |list|, faults, session, true);
    }
  }

  // ----- What becomes of an orphan ---------------------------------------------------------------

  ghost predicate NoFaults(f: Faults) {
    && !f.find && !f.readCount && !f.profile && !f.profileAgain && !f.readAgain && !f.link
    && !f.increment && !f.publish && !f.lookup && !f.refund && !f.mark
  }

  /** After a faultless run: linked to a session that takes its term, or refunded and struck
      out; only a coupon without a term, or one that cannot be paid back, is as before. */
  ghost predicate IsDealtWith(sh: Shop, sh': Shop, ctx: Context, o: Orphan)
    requires o.id in sh.w.coupons && o.id in sh'.w.coupons
  {
    var k, k' := sh.w.coupons[o.id], sh'.w.coupons[o.id];
    if o.term.None? || o.term.value == 0 then k' == k
    else
      || (k'.session.Some? && k' == k.(session := k'.session) && Takes(sh.w, ctx, o.term.value, k'.session.value))
      || (if IsPaid(ctx, o.order) then k' == k.(isValid := false) && o.id in sh'.refunds else k' == k)
  }

  lemma OneIsDealtWith(sh: Shop, mid: Shop, ctx: Context, o: Orphan, f: Faults)
    requires Untouched(sh, mid, o.id) && NoFaults(f)
    ensures o.id in Process(mid, ctx, o, f).0.w.coupons && IsDealtWith(sh, Process(mid, ctx, o, f).0, ctx, o)
  {
    ProcessInColumns(mid, ctx, o, f);
    ProcessFrame(mid, ctx, o, f);
    if o.term.Some? && o.term.value != 0 {
      var term, order := o.term.value, ctx.byPriority;
      forall x ensures Takes(mid.w, ctx, term, x) <==> Takes(sh.w, ctx, term, x) {
      }
      var found := FindUpcoming(mid.w, ctx.terms, term, order);
      if found.Some? {
        FirstIsFound(mid, ctx, o, f, found.value);
      } else {
        assert forall i :: 0 <= i < |order| ==> !Takes(mid.w, ctx, term, order[i]);
      }
    }
  }

  lemma StaysDealtWith(sh: Shop, mid: Shop, sh': Shop, ctx: Context, o: Orphan)
    requires o.id in sh.w.coupons && o.id in mid.w.coupons && IsDealtWith(sh, mid, ctx, o)
    requires o.id in sh'.w.coupons && sh'.w.coupons[o.id] == mid.w.coupons[o.id] && mid.refunds <= sh'.refunds
    ensures IsDealtWith(sh, sh', ctx, o)
  {
  }

  lemma {:induction false} FirstAreDealtWith(
    sh: Shop, ctx: Context, list: seq<Orphan>, n: nat, faults: int -> Faults)
    requires n <= |list| && Listable(sh.w, list) && forall id :: NoFaults(faults(id))
    ensures var sh' := ProcessFirst(sh, ctx, list, n, faults).0;
      sh'.w.coupons.Keys == sh.w.coupons.Keys && forall i :: 0 <= i < n ==> IsDealtWith(sh, sh', ctx, list[i])
    decreases n
  {
    Unreached(sh, ctx, list, n, faults);
    if n > 0 {
      var mid, o := ProcessFirst(sh, ctx, list, n - 1, faults).0, list[n - 1];
      var sh' := ProcessFirst(sh, ctx, list, n, faults).0;
      FirstAreDealtWith(sh, ctx, list, n - 1, faults);
      NextUntouched(sh, ctx, list, n, faults);
      OneIsDealtWith(sh, mid, ctx, o, faults(o.id));
      ProcessFrame(mid, ctx, o, faults(o.id));
      RefundsGrowByOne(mid, ctx, o, faults(o.id));
      forall i | 0 <= i < n - 1 ensures IsDealtWith(sh, sh', ctx, list[i]) {
        StaysDealtWith(sh, mid, sh', ctx, list[i]);
      }
    }
  }

  /** A faultless run leaves no orphan behind that could have been linked or refunded. */
  lemma RunDealsWithOrphans(sh: Shop, ctx: Context, faults: int -> Faults, id: int)
    requires StableOrder(ctx) && forall x :: NoFaults(faults(x))
    requires id in ctx.byCreation && id in sh.w.coupons
    requires sh.w.coupons[id].session.None? && sh.w.coupons[id].isValid
    ensures var sh' := RunOrphans(sh, ctx, faults).0;
      id in sh'.w.coupons
      && IsDealtWith(sh, sh', ctx, Orphan(id, sh.w.coupons[id].term, sh.w.coupons[id].order))
  {
    OrphansAreOrphans(sh.w.coupons, ctx.byCreation);
    var list := OrphansIn(sh.w.coupons, ctx.byCreation);
    var i :| 0 <= i < |list| && list[i].id == id;
    FirstAreDealtWith(sh, ctx, list, |list|, faults);
    assert IsDealtWith(sh, RunOrphans(sh, ctx, faults).0, ctx, list[i]);
  }

  // ----- Refunded at most once, and never linked ---------------------------------------------------

  /** Every refunded coupon is struck out and unlinked, and occurs once. */
  ghost predicate RefundsSound(sh: Shop) {
    && (forall i :: 0 <= i < |sh.refunds| ==>
          sh.refunds[i] in sh.w.coupons
          && !sh.w.coupons[sh.refunds[i]].isValid && sh.w.coupons[sh.refunds[i]].session.None?)
    && (forall i, j :: 0 <= i < j < |sh.refunds| ==> sh.refunds[i] != sh.refunds[j])
  }

  lemma ProcessKeepsRefunds(sh: Shop, ctx: Context, o: Orphan, f: Faults)
    requires RefundsSound(sh) && o.id in sh.w.coupons && IsOrphan(sh.w.coupons[o.id]) && !f.mark
    ensures RefundsSound(Process(sh, ctx, o, f).0)
  {
    ProcessFrame(sh, ctx, o, f);
    var sh' := Process(sh, ctx, o, f).0;
    assert sh'.refunds == sh.refunds || (sh'.refunds == sh.refunds + [o.id]
      && sh'.w.coupons[o.id] == sh.w.coupons[o.id].(isValid := false));
    forall i | 0 <= i < |sh.refunds| ensures sh.refunds[i] != o.id {
    }
  }

  lemma {:induction false} FirstKeepRefunds(sh: Shop, ctx: Context, list: seq<Orphan>, n: nat, faults: int -> Faults)
    requires n <= |list| && Listable(sh.w, list) && RefundsSound(sh) && forall id :: !faults(id).mark
    ensures RefundsSound(ProcessFirst(sh, ctx, list, n, faults).0)
    decreases n
  {
    if n > 0 {
      FirstKeepRefunds(sh, ctx, list, n - 1, faults);
      NextUntouched(sh, ctx, list, n, faults);
      ProcessKeepsRefunds(ProcessFirst(sh, ctx, list, n - 1, faults).0, ctx, list[n - 1], faults(list[n - 1].id));
    }
  }

  /** What was refunded stays refunded. */
  lemma {:induction false} RefundsGrow(sh: Shop, ctx: Context, list: seq<Orphan>, n: nat, faults: int -> Faults)
    requires n <= |list|
    ensures sh.refunds <= ProcessFirst(sh, ctx, list, n, faults).0.refunds
    decreases n
  {
    if n > 0 {
      RefundsGrow(sh, ctx, list, n - 1, faults);
      RefundsGrowByOne(ProcessFirst(sh, ctx, list, n - 1, faults).0, ctx, list[n - 1], faults(list[n - 1].id));
    }
  }

  lemma RefundsGrowByOne(sh: Shop, ctx: Context, o: Orphan, f: Faults)
    ensures sh.refunds <= Process(sh, ctx, o, f).0.refunds
  {
  }

  datatype RunInput = RunInput(ctx: Context, faults: int -> Faults)

  function Runs(sh: Shop, inputs: seq<RunInput>): Shop
    decreases |inputs|
  {
    if inputs == [] then sh else Runs(RunOrphans(sh, inputs[0].ctx, inputs[0].faults).0, inputs[1..])
  }

  /** A link is for good. */
  ghost predicate LinksStay(a: map<int, Coupon>, b: map<int, Coupon>) {
    a.Keys == b.Keys && forall id :: id in a && a[id].session.Some? ==> b[id] == a[id]
  }

  lemma {:induction false} FirstKeepLinks(sh: Shop, ctx: Context, list: seq<Orphan>, n: nat, faults: int -> Faults)
    requires n <= |list| && Listable(sh.w, list)
    ensures LinksStay(sh.w.coupons, ProcessFirst(sh, ctx, list, n, faults).0.w.coupons)
    decreases n
  {
    Unreached(sh, ctx, list, n, faults);
    var after := ProcessFirst(sh, ctx, list, n, faults).0.w.coupons;
    forall id | id in sh.w.coupons && sh.w.coupons[id].session.Some? ensures after[id] == sh.w.coupons[id] {
      assert forall i :: 0 <= i < n ==> list[i].id != id;
    }
  }

  /** Over any sequence of runs in which the marking writes succeed, no coupon is
      refunded twice, none is both linked and refunded, and no link is ever undone. */
  lemma {:induction false} RefundedOnceNeverLinked(sh: Shop, inputs: seq<RunInput>)
    requires RefundsSound(sh)
    requires forall i :: 0 <= i < |inputs| ==> StableOrder(inputs[i].ctx) && forall id :: !inputs[i].faults(id).mark
    ensures RefundsSound(Runs(sh, inputs))
    ensures LinksStay(sh.w.coupons, Runs(sh, inputs).w.coupons)
    decreases |inputs|
  {
    if inputs != [] {
      var ctx, faults := inputs[0].ctx, inputs[0].faults;
      OrphansAreOrphans(sh.w.coupons, ctx.byCreation);
      var list := OrphansIn(sh.w.coupons, ctx.byCreation);
      FirstKeepRefunds(sh, ctx, list, |list|, faults);
      FirstKeepLinks(sh, ctx, list, |list|, faults);
      RefundedOnceNeverLinked(RunOrphans(sh, ctx, faults).0, inputs[1..]);
    }
  }

  /** The marking write is what prevents a second refund: a refunded orphan is an
      orphan no longer exactly when the write succeeded, and if it failed the next
      pass over the same coupon refunds it again. */
  lemma MarkingPreventsSecondRefund(sh: Shop, ctx: Context, o: Orphan, f: Faults)
    requires o.id in sh.w.coupons && IsOrphan(sh.w.coupons[o.id]) && Process(sh, ctx, o, f).1 == Refunded
    ensures IsOrphan(Process(sh, ctx, o, f).0.w.coupons[o.id]) <==> f.mark
    ensures f.mark ==> Process(Process(sh, ctx, o, f).0, ctx, o, f).0.refunds == sh.refunds + [o.id, o.id]
  {
    var sh' := Process(sh, ctx, o, f).0;
    if f.mark {
      assert sh'.w == sh.w;
      assert sh.refunds + [o.id] + [o.id] == sh.refunds + [o.id, o.id];
    }
  }
}
