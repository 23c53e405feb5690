/** `createSession`, of the service and of the worker: a session whose sales threshold
    was reached opens, and the profile gets its next upcoming session. */
module SessionCreation {
  import opened Schema
  import opened Durations

  /** The service sets the start time of the session it opens, and leaves the times of
      its successor to later; the worker does it the other way round. */
  datatype Creator = Service | Worker(addYears: (int, int) -> int)

  /** A falsy session id is zero here; `id` is the key the database assigns. */
  datatype Event = Event(session: int, profile: int, id: int, now: int, creator: Creator)

  datatype Result = ProfileUnavailable | SessionNotFound | WrongProfile | LimitReached | Created(id: int)

  predicate Usable(w: World, profile: int) {
    profile in w.profiles && w.profiles[profile].isActive && !w.profiles[profile].isDeleted
  }

  function Opened(s: Session, e: Event): Session {
    if e.creator.Service? then s.(status := Written(Opening), startTime := Some(e.now)) else s.(status := Written(Opening))
  }

  /** The named session, if any, after the first part of the call. */
  function OpenNamed(w: World, e: Event): World {
    if e.session in w.sessions && w.sessions[e.session].status == Written(Upcoming)
    then w.(sessions := w.sessions[e.session := Opened(w.sessions[e.session], e)]) else w
  }

  function NewSession(p: Profile, e: Event): Session {
    Session(
      e.profile, p.sessionsCount + 1, Written(Upcoming),
      if e.creator.Service? then None else Some(e.now),
      if e.creator.Service? then None else AddDuration(Some(e.now), p.durationValue, p.durationUnit, e.creator.addYears),
      Some(e.now), p.priority, true, false, false, 0, 0)
  }

  predicate AtLimit(p: Profile) { p.maxSessions.Some? && p.sessionsCount >= p.maxSessions.value }

  /** One call; `p` is the profile row as the call read it at its start. */
  function CreateWith(w: World, p: Profile, e: Event): (World, Result)
    requires e.profile in w.profiles
  {
    if e.session != 0 && e.session !in w.sessions then (w, SessionNotFound)
    else if e.session != 0 && w.sessions[e.session].profile != e.profile then (w, WrongProfile)
    else
      var start := if e.session != 0 then OpenNamed(w, e) else w;
      if AtLimit(p) then (start, LimitReached)
      else
        (start.(
           sessions := start.sessions[e.id := NewSession(p, e)],
           profiles := w.profiles[e.profile :=
             w.profiles[e.profile].(sessionsCount := w.profiles[e.profile].sessionsCount + 1)]),
         Created(e.id))
  }

  /** A call that nothing interrupts. */
  function Create(w: World, e: Event): (World, Result) {
    if !Usable(w, e.profile) then (w, ProfileUnavailable) else CreateWith(w, w.profiles[e.profile], e)
  }

  method CreateSession(store: Store, e: Event) returns (r: Result)
    requires e.creator.Service?
    modifies store`sessions, store`profiles
    ensures (store.W(), r) == Create(old(store.W()), e)
  {
    if e.profile !in store.profiles {
      return ProfileUnavailable;
    }
    var p := store.profiles[e.profile];
    if !p.isActive || p.isDeleted {
      return ProfileUnavailable;
    }
    if e.session != 0 {
      if e.session !in store.sessions {
        return SessionNotFound;
      }
      var existing := store.sessions[e.session];
      if existing.profile != e.profile {
        return WrongProfile;
      }
      if existing.status == Written(Upcoming) {
        store.sessions := store.sessions[e.session :=
          existing.(status := Written(Opening), startTime := Some(e.now))];
      }
    }
    if p.maxSessions.Some? && p.sessionsCount >= p.maxSessions.value {
      return LimitReached;
    }
    var number := p.sessionsCount + 1;
    store.sessions := store.sessions[e.id := Session(
      e.profile, number, Written(Upcoming), None, None, Some(e.now), p.priority, true, false, false, 0, 0)];
    var row := store.profiles[e.profile];
    store.profiles := store.profiles[e.profile := row.(sessionsCount := row.sessionsCount + 1)];
    return Created(e.id);
  }

  method CreateSessionInWorker(store: Store, e: Event) returns (r: Result)
    requires e.creator.Worker?
    modifies store`sessions, store`profiles
    ensures (store.W(), r) == Create(old(store.W()), e)
  {
    if e.profile !in store.profiles {
      return ProfileUnavailable;
    }
    var p := store.profiles[e.profile];
    if !p.isActive || p.isDeleted {
      return ProfileUnavailable;
    }
    if e.session != 0 {
      if e.session !in store.sessions {
        return SessionNotFound;
      }
      var existing := store.sessions[e.session];
      if existing.profile != e.profile {
        return WrongProfile;
      }
      if existing.status == Written(Upcoming) {
        store.sessions := store.sessions[e.session := existing.(status := Written(Opening))];
      }
    }
    if p.maxSessions.Some? && p.sessionsCount >= p.maxSessions.value {
      return LimitReached;
    }
    var endTime := AddDuration(Some(e.now), p.durationValue, p.durationUnit, e.creator.addYears);
    var number := p.sessionsCount + 1;
    store.sessions := store.sessions[e.id := Session(
      e.profile, number, Written(Upcoming), Some(e.now), endTime, Some(e.now), p.priority, true, false, false, 0, 0)];
    var row := store.profiles[e.profile];
    store.profiles := store.profiles[e.profile := row.(sessionsCount := row.sessionsCount + 1)];
    return Created(e.id);
  }

  // ----- One call, column by column ----------------------------------------------------------

  /** The call names no session, or one of its own profile. */
  ghost predicate NamesOwn(w: World, e: Event) {
    e.session == 0 || (e.session in w.sessions && w.sessions[e.session].profile == e.profile)
  }

  ghost predicate IsOpenTo(w: World, e: Event) {
    e.profile in w.profiles && w.profiles[e.profile].isActive && !w.profiles[e.profile].isDeleted
  }

  ghost predicate IsFull(w: World, e: Event)
    requires e.profile in w.profiles
  {
    w.profiles[e.profile].maxSessions.Some?
    && w.profiles[e.profile].sessionsCount >= w.profiles[e.profile].maxSessions.value
  }

  /** Each answer and its exact condition. */
  lemma AnswerInColumns(w: World, e: Event)
    ensures var r := Create(w, e).1;
      && (r == ProfileUnavailable <==> !IsOpenTo(w, e))
      && (r == SessionNotFound <==> IsOpenTo(w, e) && e.session != 0 && e.session !in w.sessions)
      && (r == WrongProfile <==> IsOpenTo(w, e) && e.session in w.sessions && !NamesOwn(w, e))
      && (r == LimitReached <==> IsOpenTo(w, e) && NamesOwn(w, e) && IsFull(w, e))
      && (r == Created(e.id) <==> IsOpenTo(w, e) && NamesOwn(w, e) && !IsFull(w, e))
  {
  }

  /** Of the existing sessions only the named one may change, if it is upcoming and of the
      call's own usable profile: it opens, and the service sets its start time. */
  lemma OpeningInColumns(w: World, e: Event)
    requires e.id !in w.sessions
    ensures forall id :: id in w.sessions ==>
      id in Create(w, e).0.sessions
      && Create(w, e).0.sessions[id] ==
           if IsOpenTo(w, e) && NamesOwn(w, e) && id == e.session != 0
              && w.sessions[id].status == StatusText(Upcoming, true)
           then w.sessions[id].(
                  status := StatusText(Opening, true),
                  startTime := if e.creator.Service? then Some(e.now) else w.sessions[id].startTime)
           else w.sessions[id]
  {
    if IsOpenTo(w, e) && NamesOwn(w, e) && e.session != 0 {
      assert OpenNamed(w, e).sessions.Keys == w.sessions.Keys;
    }
  }

  /** One row is inserted, and the profile's count goes up by one, exactly if the call
      created a session; nothing else changes. */
  lemma CreationInColumns(w: World, e: Event)
    requires e.id !in w.sessions
    ensures var (w', r) := Create(w, e);
      && w' == w.(sessions := w'.sessions, profiles := w'.profiles)
      && w'.sessions.Keys == w.sessions.Keys + (if r.Created? then {e.id} else {})
      && (r.Created? ==>
            && e.profile in w.profiles
            && var p := w.profiles[e.profile];
               && w'.profiles == w.profiles[e.profile := p.(sessionsCount := p.sessionsCount + 1)]
               && w'.sessions[e.id] == Session(
                    e.profile, p.sessionsCount + 1, StatusText(Upcoming, true),
                    if e.creator.Service? then None else Some(e.now),
                    if e.creator.Service? then None
                    else AddDuration(Some(e.now), p.durationValue, p.durationUnit, e.creator.addYears),
                    Some(e.now), p.priority, true, false, false, 0, 0))
      && (!r.Created? ==> w'.profiles == w.profiles)
  {
    assert OpenNamed(w, e).sessions.Keys == w.sessions.Keys;
  }

  // ----- Any sequence of calls ------------------------------------------------------------

  function Run(w: World, es: seq<Event>): World
    decreases |es|
  {
    if es == [] then w else Create(Run(w, es[..|es| - 1]), es[|es| - 1]).0
  }

  /** The database never assigns a key twice. */
  ghost predicate FreshIds(w: World, es: seq<Event>) {
    && (forall i :: 0 <= i < |es| ==> es[i].id !in w.sessions)
    && (forall i, j :: 0 <= i < j < |es| ==> es[i].id != es[j].id)
  }

  /** The sessions a profile has gained. */
  function NewOf(w0: World, w: World, profile: int): set<int> {
    set id | id in w.sessions && id !in w0.sessions && w.sessions[id].profile == profile
  }

  function CountOf(w: World, profile: int): int {
    if profile in w.profiles then w.profiles[profile].sessionsCount else 0
  }

  ghost predicate HasNumber(w: World, ids: set<int>, k: int) {
    exists id :: id in ids && id in w.sessions && w.sessions[id].number == k
  }

  /** The sessions carry the numbers from n0 + 1 to n, each number once. */
  ghost predicate Consecutive(w: World, ids: set<int>, n0: int, n: int) {
    && (forall id :: id in ids ==> id in w.sessions && n0 < w.sessions[id].number <= n)
    && (forall a, b :: a in ids && b in ids && a != b ==> w.sessions[a].number != w.sessions[b].number)
    && (forall k :: n0 < k <= n ==> HasNumber(w, ids, k))
  }

  /** Between two moments a profile's count has grown by exactly its new sessions, they
      are numbered consecutively, each number once, and the limit is kept. */
  ghost predicate Numbered(w0: World, w: World, profile: int) {
    var n0, n := CountOf(w0, profile), CountOf(w, profile);
    && |NewOf(w0, w, profile)| == n - n0
    && Consecutive(w, NewOf(w0, w, profile), n0, n)
    && (profile in w0.profiles && w0.profiles[profile].maxSessions.Some? ==>
          n <= w0.profiles[profile].maxSessions.value || n == n0)
  }

  /** Rows only gain what the calls give them: a count, or an opening. */
  ghost predicate RowsKept(w0: World, w: World) {
    && w.profiles.Keys == w0.profiles.Keys && w0.sessions.Keys <= w.sessions.Keys
    && (forall p :: p in w0.profiles ==>
          w.profiles[p] == w0.profiles[p].(sessionsCount := w.profiles[p].sessionsCount))
    && (forall id :: id in w0.sessions ==>
          w.sessions[id] == w0.sessions[id]
          || (w0.sessions[id].status == Written(Upcoming)
              && w.sessions[id]
                 == w0.sessions[id].(status := Written(Opening), startTime := w.sessions[id].startTime)))
    && w.coupons == w0.coupons && w.rewards == w0.rewards && w.applied == w0.applied && w.sales == w0.sales
  }

  lemma OpeningKeepsRows(w0: World, w: World, e: Event)
    requires RowsKept(w0, w)
    ensures RowsKept(w0, OpenNamed(w, e))
  {
  }

  lemma InsertKeepsRows(w0: World, w: World, id: int, s: Session, profile: int, n: int)
    requires RowsKept(w0, w) && id !in w.sessions && profile in w.profiles
    ensures RowsKept(w0, w.(
      sessions := w.sessions[id := s], profiles := w.profiles[profile := w.profiles[profile].(sessionsCount := n)]))
  {
  }

  lemma StepRows(w0: World, w: World, e: Event)
    requires RowsKept(w0, w) && e.id !in w.sessions
    ensures RowsKept(w0, Create(w, e).0)
  {
    if Usable(w, e.profile) {
      var p := w.profiles[e.profile];
      var start := if e.session != 0 then OpenNamed(w, e) else w;
      OpeningKeepsRows(w0, w, e);
      InsertKeepsRows(w0, start, e.id, NewSession(p, e), e.profile, p.sessionsCount + 1);
    }
  }

  /** A session keeps its number and its profile, and appears only as the one created. */
  ghost predicate Added(w: World, w': World, e: Event) {
    && w.sessions.Keys <= w'.sessions.Keys <= w.sessions.Keys + {e.id}
    && (forall id :: id in w.sessions ==>
          w'.sessions[id].number == w.sessions[id].number && w'.sessions[id].profile == w.sessions[id].profile)
    && (e.id in w'.sessions ==>
          && w'.sessions[e.id].profile == e.profile && e.profile in w.profiles
          && w'.sessions[e.id].number == w.profiles[e.profile].sessionsCount + 1
          && !AtLimit(w.profiles[e.profile]))
    && (forall p :: CountOf(w', p) == CountOf(w, p) + (if p == e.profile && e.id in w'.sessions then 1 else 0))
  }

  lemma StepAdds(w: World, e: Event)
    requires e.id !in w.sessions
    ensures Added(w, Create(w, e).0, e)
  {
  }

  lemma GainsOne(w0: World, w: World, w': World, e: Event, profile: int)
    requires e.id !in w.sessions && e.id !in w0.sessions && Added(w, w', e)
    ensures NewOf(w0, w', profile)
         == NewOf(w0, w, profile) + (if profile == e.profile && e.id in w'.sessions then {e.id} else {})
    ensures e.id !in NewOf(w0, w, profile)
  {
    var was, now := NewOf(w0, w, profile), NewOf(w0, w', profile);
    forall id ensures id in now <==> id in was || (profile == e.profile && e.id in w'.sessions && id == e.id) {
      if id in w.sessions {
        assert w'.sessions[id].profile == w.sessions[id].profile;
      }
    }
  }

  lemma ConsecutiveStays(w: World, w': World, ids: set<int>, e: Event, n0: int, n: int)
    requires Added(w, w', e) && Consecutive(w, ids, n0, n)
    ensures Consecutive(w', ids, n0, n)
  {
    forall k | n0 < k <= n ensures HasNumber(w', ids, k) {
      assert HasNumber(w, ids, k);
      var id :| id in ids && id in w.sessions && w.sessions[id].number == k;
      assert w'.sessions[id].number == k;
    }
  }

  lemma ConsecutiveGrows(w: World, ids: set<int>, id: int, n0: int, n: int)
    requires Consecutive(w, ids, n0, n) && n0 <= n && id in w.sessions && w.sessions[id].number == n + 1
    ensures Consecutive(w, ids + {id}, n0, n + 1)
  {
    forall k | n0 < k <= n + 1 ensures HasNumber(w, ids + {id}, k) {
      if k <= n {
        assert HasNumber(w, ids, k);
        var x :| x in ids && x in w.sessions && w.sessions[x].number == k;
        assert x in ids + {id};
      } else {
        assert id in ids + {id};
      }
    }
  }

  lemma StepNumbered(w0: World, w: World, w': World, e: Event, profile: int)
    requires Numbered(w0, w, profile) && RowsKept(w0, w)
    requires e.id !in w.sessions && Added(w, w', e)
    ensures Numbered(w0, w', profile)
  {
    var was := NewOf(w0, w, profile);
    var n0, n := CountOf(w0, profile), CountOf(w, profile);
    GainsOne(w0, w, w', e, profile);
    ConsecutiveStays(w, w', was, e, n0, n);
    if profile == e.profile && e.id in w'.sessions {
      ConsecutiveGrows(w', was, e.id, n0, n);
    }
  }

  /** Whatever the sequence of calls, repetitions included. */
  lemma {:induction false} RunNumbers(w: World, es: seq<Event>, profile: int)
    requires FreshIds(w, es)
    ensures RowsKept(w, Run(w, es)) && Numbered(w, Run(w, es), profile)
    ensures forall id :: id in Run(w, es).sessions && id !in w.sessions ==> exists i :: 0 <= i < |es| && es[i].id == id
    decreases |es|
  {
    if es == [] {
      assert NewOf(w, w, profile) == {};
    } else {
      var n := |es| - 1;
      RunNumbers(w, es[..n], profile);
      var mid := Run(w, es[..n]);
      assert es[n].id !in mid.sessions;
      StepRows(w, mid, es[n]);
      StepAdds(mid, es[n]);
      StepNumbered(w, mid, Create(mid, es[n]).0, es[n], profile);
      forall id | id in Run(w, es).sessions && id !in w.sessions
        ensures exists i :: 0 <= i < |es| && es[i].id == id
      {
        if id in mid.sessions {
          var i :| 0 <= i < n && es[..n][i].id == id;
          assert es[i].id == id;
        } else {
          assert es[n].id == id;
        }
      }
    }
  }

  /** A session changes only by a call that names it and is for its own profile. */
  lemma {:induction false} OnlyNamedChange(w: World, es: seq<Event>, id: int)
    requires FreshIds(w, es) && id in w.sessions
    ensures id in Run(w, es).sessions
    ensures Run(w, es).sessions[id] != w.sessions[id] ==>
      exists i :: 0 <= i < |es| && es[i].session == id && es[i].profile == w.sessions[id].profile
    decreases |es|
  {
    if es != [] {
      var n := |es| - 1;
      RunNumbers(w, es[..n], 0);
      OnlyNamedChange(w, es[..n], id);
      var mid := Run(w, es[..n]);
      assert es[n].id !in mid.sessions;
      OpeningInColumns(mid, es[n]);
      if mid.sessions[id] != w.sessions[id] {
        var i :| 0 <= i < n && es[..n][i].session == id && es[..n][i].profile == w.sessions[id].profile;
        assert es[i].session == id;
      }
    }
  }

  /** A profile that starts within its limit stays within it. */
  lemma LimitHolds(w: World, es: seq<Event>, profile: int)
    requires FreshIds(w, es) && profile in w.profiles && w.profiles[profile].maxSessions.Some?
    requires w.profiles[profile].sessionsCount <= w.profiles[profile].maxSessions.value
    ensures profile in Run(w, es).profiles
    ensures Run(w, es).profiles[profile].sessionsCount <= w.profiles[profile].maxSessions.value
    ensures |NewOf(w, Run(w, es), profile)| <= w.profiles[profile].maxSessions.value - w.profiles[profile].sessionsCount
  {
    RunNumbers(w, es, profile);
  }

  // ----- Opening --------------------------------------------------------------------------------

  /** An upcoming session that is named in a call for its own, usable profile is
      opening afterwards, created successor or not. */
  lemma NamedSessionOpens(w: World, e: Event)
    requires e.id !in w.sessions && e.session != 0 && e.session in w.sessions && Usable(w, e.profile)
    requires w.sessions[e.session].profile == e.profile && w.sessions[e.session].status == Written(Upcoming)
    ensures var s, s' := w.sessions[e.session], Create(w, e).0.sessions[e.session];
      && s'.status == Written(Opening) && s'.startTime == (if e.creator.Service? then Some(e.now) else s.startTime)
      && s' == s.(status := s'.status, startTime := s'.startTime)
    ensures AtLimit(w.profiles[e.profile]) <==> Create(w, e).1 == LimitReached
    ensures !AtLimit(w.profiles[e.profile]) <==> Create(w, e).1 == Created(e.id)
  {
  }

  /** A successor is created exactly for a usable profile below its limit, and for no
      session or one of the profile; it starts out upcoming, without sales
      or participants, and with times only if the worker created it. */
  lemma SuccessorIsUpcoming(w: World, e: Event)
    requires e.id !in w.sessions
    ensures var (w', r) := Create(w, e);
      && (r == Created(e.id) <==> e.id in w'.sessions)
      && (e.id in w'.sessions <==>
            && Usable(w, e.profile) && !AtLimit(w.profiles[e.profile])
            && (e.session != 0 ==> e.session in w.sessions && w.sessions[e.session].profile == e.profile))
      && (e.id in w'.sessions ==>
            var s := w'.sessions[e.id];
            && s.status == Written(Upcoming) && s.sales == s.participants == 0
            && (e.creator.Service? ==> s.startTime.None? && s.endTime.None?)
            && (e.creator.Worker? ==> s.startTime == Some(e.now))
            && (e.creator.Worker? ==> s.endTime == AddDuration(
                  Some(e.now), w.profiles[e.profile].durationValue, w.profiles[e.profile].durationUnit,
                  e.creator.addYears))
            && s.isActive && !s.isDeleted && !s.forceStop
            && s.profile == e.profile && s.number == w'.profiles[e.profile].sessionsCount)
  {
  }

  /** A call changes no session that is not upcoming. */
  lemma OthersKept(w: World, e: Event, id: int)
    requires e.id !in w.sessions && id in w.sessions && w.sessions[id].status != Written(Upcoming)
    ensures id in Create(w, e).0.sessions && Create(w, e).0.sessions[id] == w.sessions[id]
  {
  }

  lemma NamedIsOpen(w: World, e: Event)
    requires e.id !in w.sessions && e.session != 0 && e.session in w.sessions && Usable(w, e.profile)
    requires w.sessions[e.session].profile == e.profile
    ensures e.session in Create(w, e).0.sessions && Create(w, e).0.sessions[e.session].status != Written(Upcoming)
  {
  }

  /** A repeated call for the same session, by whichever creator, opens nothing more: it
      keeps its start time. */
  lemma OpeningHappensOnce(w: World, e: Event, e': Event)
    requires e.id !in w.sessions && e'.id !in Create(w, e).0.sessions
    requires e.session in w.sessions && e.session == e'.session && w.sessions[e.session].profile == e.profile
    requires e.session != 0 && Usable(w, e.profile)
    ensures e.session in Create(Create(w, e).0, e').0.sessions
    ensures Create(Create(w, e).0, e').0.sessions[e.session] == Create(w, e).0.sessions[e.session]
  {
    NamedIsOpen(w, e);
    OthersKept(Create(w, e).0, e', e.session);
  }

  /** A session that the service created and the worker opens has no start time, so that
      no duration ever says when it is to go LIVE. */
  lemma MixedCreatorsLeaveNoStart(w: World, e: Event, e': Event)
    requires e.id !in w.sessions && e.creator.Service? && Create(w, e).1 == Created(e.id)
    requires e'.creator.Worker? && e'.session == e.id != 0 && e'.profile == e.profile
    requires e'.id !in Create(w, e).0.sessions && Usable(Create(w, e).0, e.profile)
    ensures e.id in Create(Create(w, e).0, e').0.sessions
    ensures var s := Create(Create(w, e).0, e').0.sessions[e.id];
      && s.status == Written(Opening) && s.startTime.None?
      && forall value, unit, addYears :: AddDuration(s.startTime, value, unit, addYears).None?
  {
    SuccessorIsUpcoming(w, e);
    NamedSessionOpens(Create(w, e).0, e');
    NamedIsOpen(Create(w, e).0, e');
  }

  // ----- Interleaved calls ------------------------------------------------------------------------

  /** Two calls that both read the profile before either has written it create two
      sessions with one number, and pass the limit if only one place was left: the
      limit and the numbering need calls that do not overlap. */
  lemma OverlappingCallsBreakTheLimit(w: World, a: Event, b: Event)
    requires a.profile == b.profile && Usable(w, a.profile) && a.session == b.session == 0
    requires a.id !in w.sessions && b.id !in w.sessions && a.id != b.id
    requires w.profiles[a.profile].maxSessions == Some(w.profiles[a.profile].sessionsCount + 1)
    ensures var p := w.profiles[a.profile];
      var w' := CreateWith(CreateWith(w, p, a).0, p, b).0;
      && w'.profiles[a.profile].sessionsCount == p.sessionsCount + 2 > p.maxSessions.value
      && a.id in w'.sessions && b.id in w'.sessions
      && w'.sessions[a.id].number == w'.sessions[b.id].number
  {
  }
}
