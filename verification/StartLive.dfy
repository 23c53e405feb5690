/** `startLiveSession` run without competitors, and the `sync-opening` job that
    calls it for every OPENING session whose time has come. */
module StartLive {
  import opened Schema
  import opened StartLiveProtocol

  // ----- The outcome of one uncontended transaction ---------------------------

  datatype Outcome = NotFound | Refused | Promoted

  predicate ProfileUsable(profiles: map<int, Profile>, id: int) {
    id in profiles && profiles[id].isActive && !profiles[id].isDeleted
  }

  /** `order` is what the locking statement returns. */
  function OutcomeOf(profiles: map<int, Profile>, rows: map<int, Session>, id: int, order: seq<int>): Outcome {
    if id !in rows then NotFound
    else if !ProfileUsable(profiles, rows[id].profile) then Refused
    else if rows[id].status.kind != Opening then Refused
    else if Blocked(rows, rows[id].profile, id) then Refused
    else if |order| > 0 && order[0] == id then Promoted
    else Refused
  }

  function Promote(rows: map<int, Session>, id: int): map<int, Session>
    requires id in rows
  {
    rows[id := rows[id].(status := Written(Live))]
  }

  function After(rows: map<int, Session>, id: int, r: Outcome): map<int, Session>
    requires r.Promoted? ==> id in rows
  {
    if r.Promoted? then Promote(rows, id) else rows
  }

  /** How far a lone transaction has come: its checks passed, and it holds the
      prefix of the list it has been through. */
  ghost predicate OnItsWay(s: Db, t: int, order: seq<int>) {
    && t in s.txns && s.locks.Values <= {t}
    && var x := s.txns[t];
      && (x.pc != Precheck ==> x.session in s.rows && ProfileUsable(s.profiles, s.rows[x.session].profile)
                               && s.rows[x.session].status.kind == Opening)
      && (x.pc !in {Precheck, Recheck} ==> x.profile == s.rows[x.session].profile)
      && (x.pc !in {Precheck, Recheck, FirstLiveCheck} ==> !Blocked(s.rows, x.profile, x.session))
      && (HasSnapshot(x) ==> x.cands == order && x.next <= |order| && x.got == order[..x.next])
      && (HasSnapshot(x) && x.pc != LockRows ==> x.next == |order|)
      && (Critical(x) ==> |order| > 0 && order[0] == x.session)
  }

  ghost function StepsLeft(x: Txn): nat {
    match x.pc
    case Precheck => 9
    case Recheck => 8
    case FirstLiveCheck => 7
    case TakeSnapshot => 6
    case LockRows => 5
    case CheckPosition => 4
    case FinalLiveCheck => 3
    case WriteLive => 2
    case AwaitCommit => 1
    case Finished(_) => 0
  }

  /** The protocol's state machine, run for one transaction alone, ends with
      exactly the outcome and the rows of `OutcomeOf`. */
  lemma {:induction false} SoloRun(s: Db, t: int, order: seq<int>) returns (es: seq<Event>)
    requires OnItsWay(s, t, order) && !s.txns[t].pc.Finished?
    requires var x := s.txns[t];
      x.session in s.rows ==> IsCandidateList(s.rows, s.rows[x.session].profile, order)
    ensures IsRun(s, es) && t in Run(s, es).txns
    ensures var r := OutcomeOf(s.profiles, s.rows, s.txns[t].session, order);
      && Run(s, es).txns[t].pc == Finished(r.Promoted?)
      && Run(s, es).rows == After(s.rows, s.txns[t].session, r)
      && Run(s, es).profiles == s.profiles
    decreases StepsLeft(s.txns[t]), |order| - s.txns[t].next
  {
    var e := Tick(t, order, false);
    assert Enabled(s, e) by {
      var x := s.txns[t];
      if x.pc == LockRows && x.next < |x.cands| && x.cands[x.next] in s.locks {
        assert s.locks[x.cands[x.next]] in s.locks.Values;
      }
    }
    var s' := Next(s, e);
    SoloStep(s, t, order);
    if s'.txns[t].pc.Finished? {
      RunOne(s, e);
      es := [e];
    } else {
      var fs := SoloRun(s', t, order);
      RunOne(s, e);
      RunAppend(s, [e], fs);
      es := [e] + fs;
    }
  }

  lemma SoloStep(s: Db, t: int, order: seq<int>)
    requires OnItsWay(s, t, order) && !s.txns[t].pc.Finished?
    requires var x := s.txns[t];
      x.session in s.rows ==> IsCandidateList(s.rows, s.rows[x.session].profile, order)
    ensures var s', x := Advance(s, t, order, false), s.txns[t];
      var r := OutcomeOf(s.profiles, s.rows, x.session, order);
      && t in s'.txns && s'.txns[t].session == x.session && s'.profiles == s.profiles
      && if s'.txns[t].pc.Finished?
         then s'.txns[t].pc == Finished(r.Promoted?) && s'.rows == After(s.rows, x.session, r)
         else s'.rows == s.rows && OnItsWay(s', t, order)
              && (StepsLeft(s'.txns[t]) < StepsLeft(x)
                  || (StepsLeft(s'.txns[t]) == StepsLeft(x) && s'.txns[t].next == x.next + 1 && x.next < |order|))
  {
    var x := s.txns[t];
    match x.pc {
      case LockRows => SoloLock(s, t, order);
      case CheckPosition => assert x.got == order;
      case FinalLiveCheck =>
      case WriteLive =>
      case AwaitCommit =>
      case _ => SoloCheck(s, t, order);
    }
  }

  /** The statements up to the snapshot. */
  lemma SoloCheck(s: Db, t: int, order: seq<int>)
    requires OnItsWay(s, t, order) && s.txns[t].pc in {Precheck, Recheck, FirstLiveCheck, TakeSnapshot}
    requires var x := s.txns[t];
      x.session in s.rows ==> IsCandidateList(s.rows, s.rows[x.session].profile, order)
    ensures var s', x := Advance(s, t, order, false), s.txns[t];
      var r := OutcomeOf(s.profiles, s.rows, x.session, order);
      && t in s'.txns && s'.txns[t].session == x.session && s'.profiles == s.profiles
      && if s'.txns[t].pc.Finished?
         then s'.txns[t].pc == Finished(r.Promoted?) && s'.rows == After(s.rows, x.session, r)
         else s'.rows == s.rows && OnItsWay(s', t, order)
              && (StepsLeft(s'.txns[t]) < StepsLeft(x)
                  || (StepsLeft(s'.txns[t]) == StepsLeft(x) && s'.txns[t].next == x.next + 1 && x.next < |order|))
  {
    match s.txns[t].pc {
      case Precheck =>
      case Recheck =>
      case FirstLiveCheck =>
      case TakeSnapshot =>
    }
  }

  lemma SoloLock(s: Db, t: int, order: seq<int>)
    requires OnItsWay(s, t, order) && s.txns[t].pc == LockRows
    requires var x := s.txns[t];
      x.session in s.rows ==> IsCandidateList(s.rows, s.rows[x.session].profile, order)
    ensures var s', x := Lock(s, t, false), s.txns[t];
      && s'.rows == s.rows && s'.profiles == s.profiles && OnItsWay(s', t, order)
      && s'.txns[t] == if x.next < |order| then x.(next := x.next + 1, got := order[..x.next + 1])
                       else x.(pc := CheckPosition)
  {
    var x := s.txns[t];
    var s' := Lock(s, t, false);
    if x.next < |order| {
      assert order[..x.next + 1] == order[..x.next] + [order[x.next]];
      assert s'.locks == s.locks[order[x.next] := t];
    } else {
      assert s'.locks == s.locks;
    }
  }

  // ----- In the columns of the tables -------------------------------------------

  /** A row comes no later than another one: by start time and then by creation time,
      nulls last. */
  lemma OrderInColumns(a: Session, b: Session)
    ensures !KeyLess(KeyOf(b), KeyOf(a)) <==>
      if a.startTime != b.startTime
      then a.startTime.Some? && (b.startTime.Some? ==> a.startTime.value < b.startTime.value)
      else a.createdAt == b.createdAt
           || (a.createdAt.Some? && (b.createdAt.Some? ==> a.createdAt.value < b.createdAt.value))
  {
  }

  /** The list of the lock statement: the OPENING rows of the profile, each once, none
      before one that precedes it. */
  lemma ListInColumns(rows: map<int, Session>, profile: int, order: seq<int>)
    ensures IsCandidateList(rows, profile, order) <==>
      && (forall x :: x in order <==>
            x in rows && rows[x].profile == profile && rows[x].status.kind == Opening && !rows[x].isDeleted)
      && (forall i :: 0 <= i < |order| ==> order[i] in rows)
      && (forall i, j :: 0 <= i < j < |order| ==>
            order[i] != order[j] && !KeyLess(KeyOf(rows[order[j]]), KeyOf(rows[order[i]])))
  {
    assert forall i :: 0 <= i < |order| ==> order[i] in order;
    if IsCandidateList(rows, profile, order) {
      forall x | x in order ensures x in rows && IsOpening(rows[x], profile) {
        var i :| 0 <= i < |order| && order[i] == x;
      }
    }
  }

  /** The session that heads the list is promoted exactly if its profile is active and
      undeleted, and every other row of the profile that is LIVE and not deleted is
      force-stopped.  Nothing else is promoted, and only a missing row is not found. */
  lemma PromotionInColumns(profiles: map<int, Profile>, rows: map<int, Session>, id: int, order: seq<int>)
    requires id in rows ==> IsCandidateList(rows, rows[id].profile, order)
    ensures OutcomeOf(profiles, rows, id, order) == NotFound <==> id !in rows
    ensures OutcomeOf(profiles, rows, id, order) == Promoted <==>
      && id in rows && |order| > 0 && order[0] == id
      && rows[id].profile in profiles
      && profiles[rows[id].profile].isActive && !profiles[rows[id].profile].isDeleted
      && (forall y | y in rows && y != id && rows[y].profile == rows[id].profile
                     && rows[y].status.kind == Live && !rows[y].isDeleted :: rows[y].forceStop)
  {
    if id in rows && |order| > 0 && order[0] == id {
      assert IsOpening(rows[id], rows[id].profile);
      assert Blocked(rows, rows[id].profile, id) <==>
        exists y :: y in rows && y != id && rows[y].profile == rows[id].profile
                    && rows[y].status.kind == Live && !rows[y].isDeleted && !rows[y].forceStop;
    }
  }

  /** Nothing OPENING precedes the head of the list, and what precedes everything heads it. */
  lemma HeadInColumns(rows: map<int, Session>, id: int, order: seq<int>)
    requires id in rows && IsCandidateList(rows, rows[id].profile, order)
    ensures |order| > 0 && order[0] == id ==>
      && rows[id].status.kind == Opening && !rows[id].isDeleted
      && forall y | y in rows && y != id && rows[y].profile == rows[id].profile && !rows[y].isDeleted
                    && rows[y].status.kind == Opening :: !KeyLess(KeyOf(rows[y]), KeyOf(rows[id]))
    ensures
      && rows[id].status.kind == Opening && !rows[id].isDeleted
      && (forall y | y in rows && y != id && rows[y].profile == rows[id].profile && !rows[y].isDeleted
                     && rows[y].status.kind == Opening :: KeyLess(KeyOf(rows[id]), KeyOf(rows[y]))) ==>
      |order| > 0 && order[0] == id
  {
    ListInColumns(rows, rows[id].profile, order);
    forall y | y in order && y != id && order[0] == id ensures !KeyLess(KeyOf(rows[y]), KeyOf(rows[id])) {
      var i :| 0 <= i < |order| && order[i] == y;
    }
    if id in order {
      var i :| 0 <= i < |order| && order[i] == id;
      assert i > 0 ==> order[0] in order && !KeyLess(KeyOf(rows[id]), KeyOf(rows[order[0]]));
    }
  }

  // ----- The serial method ----------------------------------------------------

  /** `ORDER BY start_time, created_at` over the given rows; how ties are ordered
      is not promised. */
  method OrderByStart(rows: map<int, Session>, ids: set<int>) returns (order: seq<int>)
    requires ids <= rows.Keys
    ensures forall x :: x in order <==> x in ids
    ensures forall i :: 0 <= i < |order| ==> order[i] in ids
    ensures Distinct(order) && Sorted(rows, order)
  {
    order := [];
    var todo := ids;
    while exists x :: x in todo
      invariant todo <= ids
      invariant forall i :: 0 <= i < |order| ==> order[i] in ids
      invariant forall x :: x in ids ==> x in todo || x in order
      invariant forall x :: x in todo ==> x !in order
      invariant Distinct(order)
      invariant Sorted(rows, order)
      decreases |todo|
    {
      var x :| x in todo;
      var k := 0;
      while k < |order| && !KeyLess(KeyOf(rows[x]), KeyOf(rows[order[k]]))
        invariant 0 <= k <= |order|
        invariant forall i :: 0 <= i < k ==> !KeyLess(KeyOf(rows[x]), KeyOf(rows[order[i]]))
      {
        k := k + 1;
      }
      InsertSorted(rows, order, k, x);
      order := order[..k] + [x] + order[k..];
      todo := todo - {x};
    }
  }

  method StartLiveSession(store: Store, id: int) returns (r: Outcome)
    modifies store`sessions
    ensures exists order ::
      && r == OutcomeOf(store.profiles, old(store.sessions), id, order)
      && (id in old(store.sessions) ==> IsCandidateList(old(store.sessions), old(store.sessions[id].profile), order))
    ensures r.NotFound? <==> id !in old(store.sessions)
    ensures r.Promoted? ==>
      && id in old(store.sessions)
      && var rows, s := old(store.sessions), old(store.sessions)[id];
         && s.status.kind == Opening && !s.isDeleted
         && s.profile in store.profiles && store.profiles[s.profile].isActive && !store.profiles[s.profile].isDeleted
         && forall y :: y in rows && y != id && rows[y].profile == s.profile && !rows[y].isDeleted ==>
              && (rows[y].status.kind == Live ==> rows[y].forceStop)
              && (rows[y].status.kind == Opening ==> !KeyLess(KeyOf(rows[y]), KeyOf(s)))
    ensures id in old(store.sessions) ==>
      var rows, s := old(store.sessions), old(store.sessions)[id];
      && s.status.kind == Opening && !s.isDeleted
      && s.profile in store.profiles && store.profiles[s.profile].isActive && !store.profiles[s.profile].isDeleted
      && (forall y :: y in rows && y != id && rows[y].profile == s.profile && !rows[y].isDeleted ==>
            && (rows[y].status.kind == Live ==> rows[y].forceStop)
            && (rows[y].status.kind == Opening ==> KeyLess(KeyOf(s), KeyOf(rows[y])))) ==>
      r.Promoted?
    ensures store.sessions ==
      if r.Promoted? then old(store.sessions)[id := old(store.sessions)[id].(status := Written(Live))]
      else old(store.sessions)
  {
    ghost var rows := store.sessions;
    if id !in store.sessions {
      assert NotFound == OutcomeOf(store.profiles, rows, id, []);
      return NotFound;
    }
    var session := store.sessions[id];
    var order := OrderByStart(store.sessions,
      set x | x in store.sessions && IsOpening(store.sessions[x], session.profile));
    assert IsCandidateList(rows, session.profile, order);
    PromotionInColumns(store.profiles, rows, id, order);
    HeadInColumns(rows, id, order);
    ghost var predicted := OutcomeOf(store.profiles, rows, id, order);
    if !ProfileUsable(store.profiles, session.profile) || session.status.kind != Opening {
      return Refused;
    }
    if Blocked(store.sessions, session.profile, id) {
      return Refused;
    }
    if |order| == 0 || order[0] != id {
      return Refused;
    }
    store.sessions := Promote(store.sessions, id);
    return Promoted;
  }
}
