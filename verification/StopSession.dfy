/** `handleStopSession`: a LIVE session ends because its time is up. */
module StopSession {
  import opened Schema
  import opened ApplyCoupon

  datatype Outcome = InvalidJob | NotFound | NotLive | Stopped

  /** A missing session id is zero here. */
  predicate IsLive(sessions: map<int, Session>, id: int) {
    id != 0 && id in sessions && sessions[id].status.kind == Live
  }

  function Ended(s: Session, now: int): Session {
    s.(status := Written(TimeReached), endTime := Some(now), isActive := false)
  }

  function Stop(sessions: map<int, Session>, id: int, now: int): map<int, Session> {
    if IsLive(sessions, id) then sessions[id := Ended(sessions[id], now)] else sessions
  }

  method HandleStopSession(store: Store, id: int, now: int) returns (r: Outcome)
    modifies store`sessions
    ensures store.sessions == Stop(old(store.sessions), id, now)
    ensures r.InvalidJob? <==> id == 0
    ensures r.NotFound? <==> id != 0 && id !in old(store.sessions)
    ensures r.Stopped? <==> id != 0 && id in old(store.sessions) && old(store.sessions)[id].status.kind == Live
  {
    if id == 0 {
      return InvalidJob;
    }
    if id !in store.sessions {
      return NotFound;
    }
    var session := store.sessions[id];
    if session.status.kind != Live {
      return NotLive;
    }
    store.sessions := store.sessions[id :=
      session.(status := Written(TimeReached), endTime := Some(now), isActive := false)];
    return Stopped;
  }

  /** Column by column: exactly a row that is LIVE, in any letter case, changes, and of it the
      status, the end time and the flag; the service's own spelling is written. */
  lemma StopInColumns(sessions: map<int, Session>, id: int, now: int)
    requires id != 0
    ensures Stop(sessions, id, now).Keys == sessions.Keys
    ensures forall x :: x in sessions ==>
      var s, s' := sessions[x], Stop(sessions, id, now)[x];
      if x == id && s.status.kind == Live
      then s' == s.(status := StatusText(TimeReached, true), endTime := Some(now), isActive := false)
      else s' == s
  {
  }

  /** Stopping is final: stopping again changes nothing, and from then on every
      apply job of the session is refused at its first check and changes nothing. */
  lemma StopIsFinal(c: Config, w: World, j: Job, now: int, later: int)
    requires IsLive(w.sessions, j.session)
    ensures var w' := w.(sessions := Stop(w.sessions, j.session, now));
      && Stop(w'.sessions, j.session, later) == w'.sessions
      && Handle(c, w', j) == (w', Rejected(SessionClosed))
  {
    var w' := w.(sessions := Stop(w.sessions, j.session, now));
    assert w'.sessions[j.session].status == Written(TimeReached);
    assert Finish(c, w', j, Rejected(SessionClosed)) == (w', Rejected(SessionClosed));
  }
}
