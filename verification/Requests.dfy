/** `CouponService.applyCoupon`, which queues an apply job, and the follow-up the
    worker queues when a job has taken the last slot. */
module Requests {
  import opened Schema
  import opened ApplyCoupon
  import opened ApplyQueue
  import Expiry

  datatype Refusal = Handler(reason: Reason) | NotLinked | SessionInactive

  datatype Response = Queued(job: Job) | AlreadyQueued(job: Job) | Refused(refusal: Refusal)

  predicate SameRequest(a: Job, b: Job) { a.coupon == b.coupon && a.user == b.user }

  /** The first of the jobs `seen` in the queue that is for the same coupon and user. */
  function FindDuplicate(seen: seq<Job>, j: Job): (r: Option<Job>)
    ensures r.Some? <==> exists i :: 0 <= i < |seen| && SameRequest(seen[i], j)
    ensures r.Some? ==> r.value in seen && SameRequest(r.value, j)
  {
    if seen == [] then None
    else if SameRequest(seen[0], j) then Some(seen[0]) else FindDuplicate(seen[1..], j)
  }

  /** What the request answers and what it does to the coupons.  `seen` is what the
      look-up of waiting jobs returns, nothing if it fails. */
  function Answer(c: Config, w: World, user: int, coupon: int, at: int, seen: seq<Job>): (World, Response) {
    if coupon !in w.coupons then (w, Refused(Handler(CouponNotFound)))
    else
      var k := w.coupons[coupon];
      if k.user != user then (w, Refused(Handler(NotOwner)))
      else if !k.isValid then (w, Refused(Handler(InvalidCoupon)))
      else if k.isRedeemed then (w, Refused(Handler(AlreadyUsed)))
      else if k.session.None? || k.session.value == 0 then (w, Refused(NotLinked))
      else
        var session := k.session.value;
        if HasCap(c) && |WinsOf(w.coupons, user, session)| >= c.cap.value then
          (if c.invalidate then w.(coupons := InvalidateRemaining(w.coupons, user, session)) else w,
           Refused(Handler(MaxWinsReached)))
        else if session !in w.sessions then (w, Refused(Handler(SessionNotFound)))
        else if w.sessions[session].status != Written(Live) then (w, Refused(Handler(SessionClosed)))
        else if !w.sessions[session].isActive then (w, Refused(SessionInactive))
        else
          var j := Job(user, coupon, session, at);
          var d := FindDuplicate(seen, j);
          (w, if d.Some? then AlreadyQueued(d.value) else Queued(j))
  }

  class Queue {
    var jobs: seq<Job>
  }

  method QueueApplication(store: Store, queue: Queue, c: Config, user: int, coupon: int, at: int, seen: seq<Job>)
    returns (r: Response)
    modifies store`coupons, queue
    ensures (store.W(), r) == Answer(c, old(store.W()), user, coupon, at, seen)
    ensures queue.jobs == old(queue.jobs) + (if r.Queued? then [r.job] else [])
  {
    if coupon !in store.coupons {
      return Refused(Handler(CouponNotFound));
    }
    var k := store.coupons[coupon];
    if k.user != user {
      return Refused(Handler(NotOwner));
    }
    if !k.isValid {
      return Refused(Handler(InvalidCoupon));
    }
    if k.isRedeemed {
      return Refused(Handler(AlreadyUsed));
    }
    if k.session.None? || k.session.value == 0 {
      return Refused(NotLinked);
    }
    var session := k.session.value;
    if HasCap(c) && |WinsOf(store.coupons, user, session)| >= c.cap.value {
      if c.invalidate {
        store.coupons := InvalidateRemaining(store.coupons, user, session);
      }
      return Refused(Handler(MaxWinsReached));
    }
    if session !in store.sessions {
      return Refused(Handler(SessionNotFound));
    }
    if store.sessions[session].status != Written(Live) {
      return Refused(Handler(SessionClosed));
    }
    if !store.sessions[session].isActive {
      return Refused(SessionInactive);
    }
    var j := Job(user, coupon, session, at);
    var duplicate := FindDuplicate(seen, j);
    if duplicate.Some? {
      return AlreadyQueued(duplicate.value);
    }
    queue.jobs := queue.jobs + [j];
    return Queued(j);
  }

  // ----- The answer, column by column -----------------------------------------------------------

  /** All that a request asks for but the session's flag. */
  ghost predicate Asks(c: Config, w: World, user: int, coupon: int) {
    && coupon in w.coupons && w.coupons[coupon].user == user
    && w.coupons[coupon].isValid && !w.coupons[coupon].isRedeemed
    && w.coupons[coupon].session.Some? && w.coupons[coupon].session.value != 0
    && var session := w.coupons[coupon].session.value;
       && session in w.sessions && w.sessions[session].status == StatusText(Live, true)
       && (c.cap.Some? && c.cap.value > 0 ==>
             |set id | id in w.coupons && w.coupons[id].user == user && w.coupons[id].status == Winner
                       && w.coupons[id].session == Some(session) && w.coupons[id].appliedAt.Some?| < c.cap.value)
  }

  /** A request is taken exactly if everything it asks for holds and the session is active;
      it is then queued exactly if no waiting job is for the same coupon and user, and
      otherwise answered with such a job.  Taking it changes no table.  It is refused as
      inactive exactly if the flag is all that is missing. */
  lemma TakenInColumns(c: Config, w: World, user: int, coupon: int, at: int, seen: seq<Job>)
    ensures var (w', r) := Answer(c, w, user, coupon, at, seen);
      && (r.Queued? || r.AlreadyQueued? <==>
            Asks(c, w, user, coupon) && w.sessions[w.coupons[coupon].session.value].isActive)
      && (r == Refused(SessionInactive) <==>
            Asks(c, w, user, coupon) && !w.sessions[w.coupons[coupon].session.value].isActive)
      && (r.Queued? || r.AlreadyQueued? || r == Refused(SessionInactive) ==> w' == w)
      && (r.Queued? ==>
            && r.job == Job(user, coupon, w.coupons[coupon].session.value, at)
            && forall i :: 0 <= i < |seen| ==> seen[i].coupon != coupon || seen[i].user != user)
      && (r.AlreadyQueued? ==> r.job in seen && r.job.coupon == coupon && r.job.user == user)
  {
    WinsInColumns(w, user, coupon);
  }

  lemma WinsInColumns(w: World, user: int, coupon: int)
    ensures coupon in w.coupons && w.coupons[coupon].session.Some? ==>
      var session := w.coupons[coupon].session.value;
      WinsOf(w.coupons, user, session)
      == set id | id in w.coupons && w.coupons[id].user == user && w.coupons[id].status == Winner
                  && w.coupons[id].session == Some(session) && w.coupons[id].appliedAt.Some?
  {
  }

  /** Every other refusal has its reason, the first that applies; the one at the cap, and no
      other, may strike out the coupons the user has left. */
  lemma RefusedInColumns(c: Config, w: World, user: int, coupon: int, at: int, seen: seq<Job>)
    ensures var (w', r) := Answer(c, w, user, coupon, at, seen);
      && (r == Refused(Handler(CouponNotFound)) <==> coupon !in w.coupons)
      && (coupon in w.coupons ==>
            var k := w.coupons[coupon];
            && (r == Refused(Handler(NotOwner)) <==> k.user != user)
            && (r == Refused(Handler(InvalidCoupon)) <==> k.user == user && !k.isValid)
            && (r == Refused(Handler(AlreadyUsed)) <==> k.user == user && k.isValid && k.isRedeemed)
            && (r == Refused(NotLinked) <==>
                  k.user == user && k.isValid && !k.isRedeemed && (k.session.None? || k.session.value == 0))
            && var linked := k.user == user && k.isValid && !k.isRedeemed && k.session.Some? && k.session.value != 0;
               var capped := linked && c.cap.Some? && 0 < c.cap.value <= |WinsOf(w.coupons, user, k.session.value)|;
               && (r == Refused(Handler(MaxWinsReached)) <==> capped)
               && (capped ==>
                     && w' == w.(coupons := w'.coupons)
                     && OnlyRemaining(c.invalidate, w.coupons, w'.coupons, user, k.session.value))
               && (r == Refused(Handler(SessionNotFound)) <==> linked && !capped && k.session.value !in w.sessions)
               && (r == Refused(Handler(SessionClosed)) <==>
                     linked && !capped && k.session.value in w.sessions
                     && w.sessions[k.session.value].status != StatusText(Live, true)))
      && (r != Refused(Handler(MaxWinsReached)) ==> w' == w)
  {
  }

  // ----- The request anticipates the handler ------------------------------------------------

  /** A queued job, if its turn came at once, could only fail for want of a slot or of
      the profile. */
  lemma QueuedWouldSucceed(c: Config, w: World, user: int, coupon: int, at: int, seen: seq<Job>)
    requires Answer(c, w, user, coupon, at, seen).1.Queued? && w.coupons[coupon].appliedAt.None?
    ensures var j := Answer(c, w, user, coupon, at, seen).1.job;
      && WellQueued(w, j) && Valid(w, j) && UnderCap(c, w, j)
      && (Handle(c, w, j).1.Accepted? <==>
            w.sessions[j.session].profile in w.profiles
            && (SlotsOf(w, j.session) > 0 ==> |AppliedIn(w.coupons, j.session)| < SlotsOf(w, j.session)))
  {
    var j := Answer(c, w, user, coupon, at, seen).1.job;
    if Eligible(c, w, j) {
      AcceptedAt(c, w, j);
    } else {
      RejectedFull(c, w, j);
    }
  }

  /** A refusal is never premature: the handler would refuse the job too, unless the
      session is marked inactive, which the handler does not look at. */
  lemma RefusedWouldFail(c: Config, w: World, user: int, coupon: int, at: int, seen: seq<Job>, session: int)
    requires Answer(c, w, user, coupon, at, seen).1.Refused?
    requires Answer(c, w, user, coupon, at, seen).1.refusal != SessionInactive
    requires coupon in w.coupons && session != 0 && w.coupons[coupon].session == Some(session)
    ensures Handle(c, w, Job(user, coupon, session, at)).1.Rejected?
  {
    var j := Job(user, coupon, session, at);
    if !Valid(w, j) {
      RejectedEarly(c, w, j);
    } else {
      RejectedAtCap(c, w, j);
    }
  }

  // ----- The follow-up job --------------------------------------------------------------------

  /** The worker queues an expiry job exactly for the job that took the last slot. */
  function FollowUp(w: World, j: Job, result: Local): Option<Expiry.Job>
    requires j.session in w.sessions && w.sessions[j.session].profile in w.profiles
  {
    if result.Accepted? && FillsSession(SlotsOf(w, j.session), result.position)
    then Some(Expiry.Job(j.session, w.sessions[j.session].profile, Expiry.NoNumber, Expiry.NoNumber))
    else None
  }

  /** A job has a follow-up exactly when it completes its session, and the follow-up
      then passes every check but those of the sales trigger. */
  lemma FollowUpFits(c: Config, w: World, j: Job)
    requires WellQueued(w, j) && Valid(w, j) && w.coupons[j.coupon].appliedAt.None?
    requires w.sessions[j.session].profile in w.profiles && w.sessions[j.session].profile != 0
    ensures var (w', result) := Handle(c, w, j);
      var follow := FollowUp(w, j, result);
      && j.session in w'.sessions
      && (follow.Some? <==> w'.sessions[j.session].status == Written(Completed))
      && (follow.Some? ==> follow.value.session == j.session && follow.value.profile == w.sessions[j.session].profile)
      && (follow.Some? ==>
            Expiry.Refusal(w', follow.value) in
              {None, Some(Expiry.Skipped(Expiry.NoSalesTrigger)), Some(Expiry.Skipped(Expiry.ThresholdNotReached))})
  {
    if Eligible(c, w, j) {
      AcceptedAt(c, w, j);
    } else if !UnderCap(c, w, j) {
      RejectedAtCap(c, w, j);
    } else {
      RejectedFull(c, w, j);
    }
  }
}
