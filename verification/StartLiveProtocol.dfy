/** Several `startLiveSession` transactions racing under PostgreSQL's Read
    Committed isolation (section 13.2.1 of the PostgreSQL documentation).

    Every statement reads the rows committed when it starts.  `SELECT ... FOR
    UPDATE` takes its candidate list from one snapshot and then locks the rows
    one by one in that order, waiting where another transaction holds a row and
    testing the WHERE clause again on the newest version.  A transaction's only
    write is its last statement, so a pending write is visible to nobody until
    it commits. */
module StartLiveProtocol {
  import opened Schema

  // ----- Rows and their order ------------------------------------------------

  datatype SortKey = SortKey(start: Option<int>, created: Option<int>)

  function KeyOf(r: Session): SortKey { SortKey(r.startTime, r.createdAt) }

  /** Ascending, nulls last. */
  predicate Before(a: Option<int>, b: Option<int>) {
    a.Some? && (b.None? || a.value < b.value)
  }

  predicate KeyLess(a: SortKey, b: SortKey) {
    Before(a.start, b.start) || (a.start == b.start && Before(a.created, b.created))
  }

  /** The WHERE clause of the locking statement. */
  predicate IsOpening(r: Session, profile: int) {
    r.profile == profile && r.status.kind == Opening && !r.isDeleted
  }

  /** A LIVE session that blocks its profile. */
  predicate IsActiveLive(r: Session, profile: int) {
    r.profile == profile && r.status.kind == Live && !r.isDeleted && !r.forceStop
  }

  predicate Blocked(rows: map<int, Session>, profile: int, session: int) {
    exists x | x in rows :: x != session && IsActiveLive(rows[x], profile)
  }

  predicate Distinct(s: seq<int>) {
    forall i, j :: 0 <= i < j < |s| ==> s[i] != s[j]
  }

  predicate Sorted(rows: map<int, Session>, s: seq<int>)
    requires forall i :: 0 <= i < |s| ==> s[i] in rows
  {
    forall i, j :: 0 <= i < j < |s| ==> !KeyLess(KeyOf(rows[s[j]]), KeyOf(rows[s[i]]))
  }

  /** What `ORDER BY start_time, created_at` may return: all OPENING rows of the
      profile, ties in any order. */
  ghost predicate IsCandidateList(rows: map<int, Session>, profile: int, order: seq<int>) {
    && (forall i :: 0 <= i < |order| ==> order[i] in rows && IsOpening(rows[order[i]], profile))
    && (forall x :: x in rows && IsOpening(rows[x], profile) ==> x in order)
    && Distinct(order)
    && Sorted(rows, order)
  }

  // ----- States and steps ----------------------------------------------------

  /** The statement a transaction executes next. */
  datatype Pc =
    | Precheck | Recheck | FirstLiveCheck | TakeSnapshot | LockRows
    | CheckPosition | FinalLiveCheck | WriteLive | AwaitCommit
    | Finished(success: bool)

  /** `cands` is the snapshot's list, `next` the row to lock next and `got` the
      rows locked and returned so far; `stamp` dates the snapshot. */
  datatype Txn = Txn(
    session: int, pc: Pc, profile: int,
    stamp: nat, cands: seq<int>, next: nat, got: seq<int>)

  datatype Db = Db(
    profiles: map<int, Profile>,
    rows: map<int, Session>,
    txns: map<int, Txn>,
    locks: map<int, int>,
    clock: nat)

  /** `Tick` runs the next statement of a transaction; `order` is used by the
      snapshot and `keep` tells whether a row that no longer matches stays
      locked.  `Write` is any other statement of the system that changes a row. */
  datatype Event =
    | Begin(txn: int, session: int)
    | Tick(txn: int, order: seq<int>, keep: bool)
    | Abort(txn: int)
    | Write(id: int, row: Session)

  /** What the rest of the system does to a session row: its status moves
      forward and never to LIVE, `is_deleted` and `force_stop` are only ever
      set, and the sort columns are fixed once the session is OPENING. */
  ghost predicate EnvironmentWrite(old_: Session, new_: Session) {
    && new_.profile == old_.profile
    && Rank(old_.status.kind) <= Rank(new_.status.kind)
    && (new_.status.kind == Live ==> old_.status.kind == Live)
    && (old_.isDeleted ==> new_.isDeleted)
    && (old_.forceStop ==> new_.forceStop)
    && (old_.status.kind != Upcoming ==> KeyOf(new_) == KeyOf(old_))
  }

  predicate CanLockNext(s: Db, t: int)
    requires t in s.txns
  {
    var x := s.txns[t];
    x.next < |x.cands| ==> x.cands[x.next] !in s.locks || s.locks[x.cands[x.next]] == t
  }

  ghost predicate Enabled(s: Db, e: Event) {
    match e
    case Begin(t, _) => t !in s.txns
    case Tick(t, order, _) =>
      && t in s.txns
      && !s.txns[t].pc.Finished?
      && (s.txns[t].pc == LockRows ==> CanLockNext(s, t))
      && (s.txns[t].pc == TakeSnapshot ==> IsCandidateList(s.rows, s.txns[t].profile, order))
    case Abort(t) => t in s.txns && !s.txns[t].pc.Finished?
    case Write(id, row) =>
      && id !in s.locks
      && if id in s.rows then EnvironmentWrite(s.rows[id], row) else row.status.kind == Upcoming
  }

  function Goto(s: Db, t: int, pc: Pc): Db
    requires t in s.txns
  {
    s.(txns := s.txns[t := s.txns[t].(pc := pc)])
  }

  /** Commit or rollback: the locks of `t` go. */
  function End(s: Db, t: int, ok: bool): Db
    requires t in s.txns
  {
    Goto(s, t, Finished(ok)).(locks := map x | x in s.locks && s.locks[x] != t :: s.locks[x])
  }

  function Lock(s: Db, t: int, keep: bool): Db
    requires t in s.txns && s.txns[t].pc == LockRows
  {
    var x := s.txns[t];
    if x.next >= |x.cands| then Goto(s, t, CheckPosition)
    else
      var id := x.cands[x.next];
      if id in s.rows && IsOpening(s.rows[id], x.profile) then
        s.(txns := s.txns[t := x.(next := x.next + 1, got := x.got + [id])], locks := s.locks[id := t])
      else
        s.(txns := s.txns[t := x.(next := x.next + 1)],
           locks := if keep then s.locks[id := t] else s.locks)
  }

  function Advance(s: Db, t: int, order: seq<int>, keep: bool): Db
    requires t in s.txns && !s.txns[t].pc.Finished?
  {
    var x := s.txns[t];
    match x.pc
    case Precheck =>
      if x.session in s.rows && s.rows[x.session].profile in s.profiles
         && s.profiles[s.rows[x.session].profile].isActive
         && !s.profiles[s.rows[x.session].profile].isDeleted
         && s.rows[x.session].status.kind == Opening
      then Goto(s, t, Recheck) else End(s, t, false)
    case Recheck =>
      if x.session in s.rows && s.rows[x.session].status.kind == Opening
      then s.(txns := s.txns[t := x.(pc := FirstLiveCheck, profile := s.rows[x.session].profile)])
      else End(s, t, false)
    case FirstLiveCheck =>
      if Blocked(s.rows, x.profile, x.session) then End(s, t, false) else Goto(s, t, TakeSnapshot)
    case TakeSnapshot =>
      s.(clock := s.clock + 1,
         txns := s.txns[t := x.(pc := LockRows, stamp := s.clock, cands := order, next := 0, got := [])])
    case LockRows => Lock(s, t, keep)
    case CheckPosition =>
      if |x.got| > 0 && x.got[0] == x.session then Goto(s, t, FinalLiveCheck) else End(s, t, false)
    case FinalLiveCheck =>
      if Blocked(s.rows, x.profile, x.session) then End(s, t, false) else Goto(s, t, WriteLive)
    case WriteLive => Goto(s, t, AwaitCommit)
    case AwaitCommit =>
      var s' := End(s, t, true);
      if x.session in s.rows
      then s'.(rows := s.rows[x.session := s.rows[x.session].(status := Written(Live))])
      else s'
    case Finished(_) => s
  }

  function Next(s: Db, e: Event): Db
    requires Enabled(s, e)
  {
    match e
    case Begin(t, session) => s.(txns := s.txns[t := Txn(session, Precheck, 0, 0, [], 0, [])])
    case Tick(t, order, keep) => Advance(s, t, order, keep)
    case Abort(t) => End(s, t, false)
    case Write(id, row) => s.(rows := s.rows[id := row])
  }

  ghost predicate IsRun(s: Db, es: seq<Event>)
    decreases |es|
  {
    es == [] || (Enabled(s, es[0]) && IsRun(Next(s, es[0]), es[1..]))
  }

  function Run(s: Db, es: seq<Event>): Db
    requires IsRun(s, es)
    decreases |es|
  {
    if es == [] then s else Run(Next(s, es[0]), es[1..])
  }

  // ----- The invariant -------------------------------------------------------

  /** From the snapshot until the transaction ends. */
  predicate HasSnapshot(x: Txn) {
    x.pc in {LockRows, CheckPosition, FinalLiveCheck, WriteLive, AwaitCommit}
  }

  /** Past the position check: this transaction may still promote its session. */
  predicate Critical(x: Txn) { x.pc in {FinalLiveCheck, WriteLive, AwaitCommit} }

  /** At most one LIVE, undeleted, not force-stopped session in the profile. */
  ghost predicate AtMostOneLive(rows: map<int, Session>, profile: int) {
    forall x, y :: x in rows && y in rows && x != y ==>
      !(IsActiveLive(rows[x], profile) && IsActiveLive(rows[y], profile))
  }

  /** `id` is one of the candidates the transaction has been through. */
  ghost predicate Processed(x: Txn, id: int) {
    exists k :: 0 <= k < x.next && k < |x.cands| && x.cands[k] == id
  }

  ghost predicate LocksOk(s: Db) {
    forall id :: id in s.locks ==>
      s.locks[id] in s.txns && HasSnapshot(s.txns[s.locks[id]]) && Processed(s.txns[s.locks[id]], id)
  }

  ghost predicate CandidatesOk(s: Db, x: Txn) {
    && (forall k :: 0 <= k < |x.cands| ==>
          x.cands[k] in s.rows && s.rows[x.cands[k]].profile == x.profile
          && s.rows[x.cands[k]].status.kind != Upcoming)
    && Distinct(x.cands)
    && Sorted(s.rows, x.cands)
    && x.next <= |x.cands|
    && (x.pc != LockRows ==> x.next == |x.cands|)
    && x.stamp < s.clock
  }

  ghost predicate ProgressOk(s: Db, t: int, x: Txn)
    requires CandidatesOk(s, x)
  {
    && (forall i :: 0 <= i < |x.got| ==>
          Processed(x, x.got[i]) && x.got[i] in s.locks && s.locks[x.got[i]] == t
          && x.got[i] in s.rows && IsOpening(s.rows[x.got[i]], x.profile))
    && (forall k :: 0 <= k < x.next && IsOpening(s.rows[x.cands[k]], x.profile) ==> x.cands[k] in x.got)
    && Sorted(s.rows, x.got)
    && (Critical(x) ==> |x.got| > 0 && x.got[0] == x.session)
    && (x.pc in {WriteLive, AwaitCommit} ==> !Blocked(s.rows, x.profile, x.session))
  }

  ghost predicate TxnOk(s: Db, t: int)
    requires t in s.txns
  {
    HasSnapshot(s.txns[t]) ==> CandidatesOk(s, s.txns[t]) && ProgressOk(s, t, s.txns[t])
  }

  /** The later of two snapshots has every candidate of the earlier one that is
      still OPENING. */
  ghost predicate PairOk(s: Db, x: Txn, y: Txn) {
    && (x.stamp < y.stamp && x.profile == y.profile ==>
          forall id :: id in x.cands && id in s.rows && IsOpening(s.rows[id], x.profile) ==> id in y.cands)
  }

  ghost predicate Pairs(s: Db) {
    forall a, b :: a in s.txns && b in s.txns && a != b && HasSnapshot(s.txns[a]) && HasSnapshot(s.txns[b]) ==>
      s.txns[a].stamp != s.txns[b].stamp && PairOk(s, s.txns[a], s.txns[b])
  }

  ghost predicate Inv(s: Db) {
    && LocksOk(s)
    && (forall t :: t in s.txns ==> TxnOk(s, t))
    && Pairs(s)
  }

  /** Two transactions of one profile are never both past the position check:
      the one with the later snapshot would have to hold the other's session. */
  lemma CriticalExcludes(s: Db, a: int, b: int)
    requires Inv(s) && a in s.txns && b in s.txns && a != b
    requires Critical(s.txns[a]) && Critical(s.txns[b])
    ensures s.txns[a].profile != s.txns[b].profile
  {
    var x, y := s.txns[a], s.txns[b];
    assert TxnOk(s, a) && TxnOk(s, b);
    assert x.session in x.got && y.session in y.got;
    if x.profile == y.profile {
      if x.stamp < y.stamp {
        LaterHolds(s, x.session, a, b);
      } else {
        LaterHolds(s, y.session, b, a);
      }
      assert false;
    }
  }

  /** A row that an earlier snapshot contains and that is still OPENING is held
      by every later transaction that has finished locking. */
  lemma LaterHolds(s: Db, id: int, a: int, b: int)
    requires Inv(s) && a in s.txns && b in s.txns && a != b
    requires HasSnapshot(s.txns[a]) && HasSnapshot(s.txns[b]) && s.txns[b].pc != LockRows
    requires s.txns[a].profile == s.txns[b].profile && s.txns[a].stamp < s.txns[b].stamp
    requires id in s.txns[a].cands && id in s.rows && IsOpening(s.rows[id], s.txns[a].profile)
    ensures id in s.locks && s.locks[id] == b
  {
    var x, y := s.txns[a], s.txns[b];
    assert TxnOk(s, a) && TxnOk(s, b);
    assert PairOk(s, x, y);
    var k :| 0 <= k < |y.cands| && y.cands[k] == id;
    assert y.cands[k] in y.got;
  }

  // ----- Every step keeps the invariant --------------------------------------

  /** Rows only move forward: nothing becomes OPENING that was not, and what has
      left UPCOMING keeps its sort key. */
  ghost predicate RowsKeep(r: map<int, Session>, r': map<int, Session>) {
    forall id :: id in r ==>
      && id in r'
      && r'[id].profile == r[id].profile
      && (r[id].status.kind != Upcoming ==>
            && r'[id].status.kind != Upcoming
            && KeyOf(r'[id]) == KeyOf(r[id])
            && (IsOpening(r'[id], r[id].profile) ==> IsOpening(r[id], r[id].profile)))
  }

  ghost predicate NoNewLive(r: map<int, Session>, r': map<int, Session>, profile: int) {
    forall id :: id in r' && IsActiveLive(r'[id], profile) ==> id in r && IsActiveLive(r[id], profile)
  }

  /** A step that leaves transaction `t`, its locks and the rows under them alone
      keeps what is known about `t`. */
  lemma TxnFrame(s: Db, s': Db, t: int)
    requires t in s.txns && t in s'.txns && s'.txns[t] == s.txns[t] && TxnOk(s, t)
    requires RowsKeep(s.rows, s'.rows) && s.clock <= s'.clock
    requires forall id :: id in s.locks && s.locks[id] == t && id in s.rows ==>
      id in s'.locks && s'.locks[id] == t && s'.rows[id] == s.rows[id]
    requires s.txns[t].pc in {WriteLive, AwaitCommit} ==> NoNewLive(s.rows, s'.rows, s.txns[t].profile)
    ensures TxnOk(s', t)
  {
    var x := s.txns[t];
    if HasSnapshot(x) {
      forall k | 0 <= k < |x.cands|
        ensures var id := x.cands[k];
          && id in s.rows && id in s'.rows && s'.rows[id].profile == x.profile
          && s'.rows[id].status.kind != Upcoming && KeyOf(s'.rows[id]) == KeyOf(s.rows[id])
          && (IsOpening(s'.rows[id], x.profile) ==> IsOpening(s.rows[id], x.profile))
      {
        var id := x.cands[k];
        assert id in s.rows;
      }
      assert CandidatesOk(s', x);
      forall k | 0 <= k < x.next && IsOpening(s'.rows[x.cands[k]], x.profile) ensures x.cands[k] in x.got {
        assert IsOpening(s.rows[x.cands[k]], x.profile);
      }
      assert ProgressOk(s', t, x);
    }
  }

  lemma PairsFrame(s: Db, s': Db, t: int)
    requires Inv(s) && RowsKeep(s.rows, s'.rows)
    requires forall u :: u in s'.txns && u != t ==> u in s.txns && s'.txns[u] == s.txns[u]
    requires t in s'.txns && HasSnapshot(s'.txns[t]) ==>
      && t in s.txns && HasSnapshot(s.txns[t]) && s'.txns[t].cands == s.txns[t].cands
      && s'.txns[t].stamp == s.txns[t].stamp && s'.txns[t].profile == s.txns[t].profile
    ensures Pairs(s')
  {
    forall a, b | a in s'.txns && b in s'.txns && a != b && HasSnapshot(s'.txns[a]) && HasSnapshot(s'.txns[b])
      ensures s'.txns[a].stamp != s'.txns[b].stamp && PairOk(s', s'.txns[a], s'.txns[b])
    {
      assert PairOk(s, s.txns[a], s.txns[b]);
      assert TxnOk(s, a);
      CandidateRows(s, s', s.txns[a]);
    }
  }

  lemma PairsStay(s: Db, s': Db)
    requires Inv(s) && RowsKeep(s.rows, s'.rows) && s'.txns == s.txns
    ensures Pairs(s')
  {
    forall a, b | a in s'.txns && b in s'.txns && a != b && HasSnapshot(s'.txns[a]) && HasSnapshot(s'.txns[b])
      ensures s'.txns[a].stamp != s'.txns[b].stamp && PairOk(s', s'.txns[a], s'.txns[b])
    {
      PairsFrame(s, s', a);
    }
  }

  lemma CandidateRows(s: Db, s': Db, x: Txn)
    requires CandidatesOk(s, x) && RowsKeep(s.rows, s'.rows)
    ensures forall id :: id in x.cands && id in s'.rows && IsOpening(s'.rows[id], x.profile) ==>
      id in s.rows && IsOpening(s.rows[id], x.profile)
  {
  }

  /** A step of `t` that changes neither rows, nor locks, nor its own snapshot. */
  lemma GotoKeeps(s: Db, t: int, x': Txn)
    requires Inv(s) && t in s.txns
    requires HasSnapshot(x') ==>
      && HasSnapshot(s.txns[t]) && x' == s.txns[t].(pc := x'.pc)
      && CandidatesOk(s, x') && ProgressOk(s, t, x')
    requires HasSnapshot(s.txns[t]) ==> HasSnapshot(x')
    ensures Inv(s.(txns := s.txns[t := x']))
  {
    var s' := s.(txns := s.txns[t := x']);
    forall u | u in s'.txns && u != t ensures TxnOk(s', u) {
      TxnFrame(s, s', u);
    }
    if HasSnapshot(x') {
      assert CandidatesOk(s', x') && ProgressOk(s', t, x');
    }
    PairsFrame(s, s', t);
  }

  lemma EndKeeps(s: Db, t: int, ok: bool)
    requires Inv(s) && t in s.txns
    ensures Inv(End(s, t, ok))
  {
    var s' := End(s, t, ok);
    forall u | u in s'.txns && u != t ensures TxnOk(s', u) {
      TxnFrame(s, s', u);
    }
    PairsFrame(s, s', t);
  }

  lemma SnapshotKeeps(s: Db, t: int, order: seq<int>, keep: bool)
    requires Inv(s) && t in s.txns && s.txns[t].pc == TakeSnapshot
    requires IsCandidateList(s.rows, s.txns[t].profile, order)
    ensures Inv(Advance(s, t, order, keep))
  {
    var s' := Advance(s, t, order, keep);
    forall u | u in s'.txns && u != t ensures TxnOk(s', u) {
      TxnFrame(s, s', u);
    }
    assert CandidatesOk(s', s'.txns[t]);
    forall a, b | a in s'.txns && b in s'.txns && a != b && HasSnapshot(s'.txns[a]) && HasSnapshot(s'.txns[b])
      ensures s'.txns[a].stamp != s'.txns[b].stamp && PairOk(s', s'.txns[a], s'.txns[b])
    {
      if a != t && b != t {
        assert PairOk(s, s.txns[a], s.txns[b]);
      } else {
        assert TxnOk(s, if a == t then b else a);
      }
    }
  }

  lemma LockKeeps(s: Db, t: int, keep: bool)
    requires Inv(s) && t in s.txns && s.txns[t].pc == LockRows && CanLockNext(s, t)
    ensures Inv(Lock(s, t, keep))
  {
    var x := s.txns[t];
    assert TxnOk(s, t);
    if x.next >= |x.cands| {
      GotoKeeps(s, t, x.(pc := CheckPosition));
    } else {
      LockShape(s, t, keep);
      LockKeepsOwn(s, t, keep);
      LockedWereProcessed(s, t, keep);
      LockKeepsRest(s, Lock(s, t, keep), t, x.cands[x.next]);
    }
  }

  /** What one locked or skipped row changes. */
  lemma LockShape(s: Db, t: int, keep: bool)
    requires t in s.txns && s.txns[t].pc == LockRows && s.txns[t].next < |s.txns[t].cands|
    ensures var s', x := Lock(s, t, keep), s.txns[t];
      && s'.rows == s.rows && s'.clock == s.clock
      && s'.txns.Keys == s.txns.Keys && (forall u :: u in s.txns && u != t ==> s'.txns[u] == s.txns[u])
      && (s'.locks == s.locks || s'.locks == s.locks[x.cands[x.next] := t])
      && s'.txns[t].cands == x.cands && s'.txns[t].stamp == x.stamp && s'.txns[t].profile == x.profile
  {
    var x := s.txns[t];
    var id := x.cands[x.next];
    if id in s.rows && IsOpening(s.rows[id], x.profile) {
      assert Lock(s, t, keep).txns == s.txns[t := x.(next := x.next + 1, got := x.got + [id])];
    } else {
      assert Lock(s, t, keep).txns == s.txns[t := x.(next := x.next + 1)];
    }
  }

  lemma LockKeepsRest(s: Db, s': Db, t: int, id: int)
    requires Inv(s) && t in s.txns && s'.rows == s.rows && s'.clock == s.clock
    requires s'.txns.Keys == s.txns.Keys && forall u :: u in s.txns && u != t ==> s'.txns[u] == s.txns[u]
    requires s'.locks == s.locks || s'.locks == s.locks[id := t]
    requires id in s.locks ==> s.locks[id] == t
    requires HasSnapshot(s.txns[t]) && s'.txns[t].cands == s.txns[t].cands
    requires s'.txns[t].stamp == s.txns[t].stamp && s'.txns[t].profile == s.txns[t].profile
    requires TxnOk(s', t) && LocksOk(s')
    ensures Inv(s')
  {
    LockOthers(s, s', t, id);
    PairsFrame(s, s', t);
  }

  lemma LockKeepsOwn(s: Db, t: int, keep: bool)
    requires t in s.txns && TxnOk(s, t) && s.txns[t].pc == LockRows && s.txns[t].next < |s.txns[t].cands|
    ensures TxnOk(Lock(s, t, keep), t)
  {
    var x, s' := s.txns[t], Lock(s, t, keep);
    var id := x.cands[x.next];
    assert id in s.rows;
    if IsOpening(s.rows[id], x.profile) {
      TakeOwn(s, s', t, id);
    } else {
      SkipOwn(s, s', t);
    }
  }

  lemma LockOthers(s: Db, s': Db, t: int, id: int)
    requires Inv(s) && t in s.txns && s'.rows == s.rows && s'.clock == s.clock
    requires s'.txns.Keys == s.txns.Keys && forall u :: u in s.txns && u != t ==> s'.txns[u] == s.txns[u]
    requires s'.locks == s.locks || s'.locks == s.locks[id := t]
    requires id in s.locks ==> s.locks[id] == t
    ensures forall u :: u in s'.txns && u != t ==> TxnOk(s', u)
  {
    forall u | u in s'.txns && u != t ensures TxnOk(s', u) {
      TxnFrame(s, s', u);
    }
  }

  lemma LockedWereProcessed(s: Db, t: int, keep: bool)
    requires LocksOk(s) && t in s.txns && s.txns[t].pc == LockRows
    requires s.txns[t].next < |s.txns[t].cands|
    ensures LocksOk(Lock(s, t, keep))
  {
    var x := s.txns[t];
    var s' := Lock(s, t, keep);
    var x' := s'.txns[t];
    assert x'.cands[x.next] == x.cands[x.next];
    assert Processed(x', x.cands[x.next]);
    forall id | Processed(x, id) ensures Processed(x', id) {
      var k :| 0 <= k < x.next && k < |x.cands| && x.cands[k] == id;
      assert x'.cands[k] == id;
    }
  }

  lemma TakeOwn(s: Db, s': Db, t: int, id: int)
    requires t in s.txns && TxnOk(s, t) && s.txns[t].pc == LockRows && s.txns[t].next < |s.txns[t].cands|
    requires id == s.txns[t].cands[s.txns[t].next] && id in s.rows && IsOpening(s.rows[id], s.txns[t].profile)
    requires s'.rows == s.rows && s'.clock == s.clock && s'.locks == s.locks[id := t] && t in s'.txns
    requires s'.txns[t] == s.txns[t].(next := s.txns[t].next + 1, got := s.txns[t].got + [id])
    ensures TxnOk(s', t)
  {
    var x, x' := s.txns[t], s'.txns[t];
    assert CandidatesOk(s', x');
    assert x'.cands[x.next] == id && Processed(x', id);
    forall i | 0 <= i < |x.got| ensures Processed(x', x.got[i]) && !KeyLess(KeyOf(s.rows[id]), KeyOf(s.rows[x.got[i]])) {
      assert Processed(x, x.got[i]);
      var k :| 0 <= k < x.next && k < |x.cands| && x.cands[k] == x.got[i];
      assert x'.cands[k] == x.got[i];
    }
    SortedAppend(s.rows, x.got, id);
    forall k | 0 <= k < x'.next && IsOpening(s'.rows[x'.cands[k]], x'.profile) ensures x'.cands[k] in x'.got {
      if k < x.next { assert x.cands[k] in x.got; } else { assert x'.got[|x.got|] == id; }
    }
  }

  lemma SortedAppend(rows: map<int, Session>, got: seq<int>, id: int)
    requires forall i :: 0 <= i < |got| ==> got[i] in rows
    requires id in rows && Sorted(rows, got)
    requires forall i :: 0 <= i < |got| ==> !KeyLess(KeyOf(rows[id]), KeyOf(rows[got[i]]))
    ensures forall i :: 0 <= i < |got + [id]| ==> (got + [id])[i] in rows
    ensures Sorted(rows, got + [id])
  {
  }

  lemma SkipOwn(s: Db, s': Db, t: int)
    requires t in s.txns && TxnOk(s, t) && s.txns[t].pc == LockRows && s.txns[t].next < |s.txns[t].cands|
    requires var id := s.txns[t].cands[s.txns[t].next];
      id in s.rows && !IsOpening(s.rows[id], s.txns[t].profile)
    requires s'.rows == s.rows && s'.clock == s.clock && t in s'.txns
    requires forall id :: id in s.locks && s.locks[id] == t ==> id in s'.locks && s'.locks[id] == t
    requires s'.txns[t] == s.txns[t].(next := s.txns[t].next + 1)
    ensures TxnOk(s', t)
  {
    var x, x' := s.txns[t], s'.txns[t];
    assert CandidatesOk(s', x');
    forall i | 0 <= i < |x.got| ensures Processed(x', x.got[i]) {
      assert Processed(x, x.got[i]);
      var k :| 0 <= k < x.next && k < |x.cands| && x.cands[k] == x.got[i];
      assert x'.cands[k] == x.got[i];
    }
  }

  /** A statement of the rest of the system waits for locks like any other. */
  lemma WriteKeeps(s: Db, id: int, row: Session)
    requires Inv(s) && Enabled(s, Write(id, row))
    ensures Inv(Next(s, Write(id, row)))
  {
    var s' := Next(s, Write(id, row));
    assert RowsKeep(s.rows, s'.rows);
    forall u | u in s'.txns ensures TxnOk(s', u) {
      TxnFrame(s, s', u);
    }
    PairsStay(s, s');
  }

  /** Of all transactions only one of another profile can be critical at a commit. */
  lemma CommitOthers(s: Db, t: int, order: seq<int>, keep: bool, u: int)
    requires Inv(s) && t in s.txns && s.txns[t].pc == AwaitCommit && u in s.txns && u != t
    requires RowsKeep(s.rows, Advance(s, t, order, keep).rows)
    ensures TxnOk(Advance(s, t, order, keep), u)
  {
    var x := s.txns[t];
    assert TxnOk(s, t);
    assert x.got[0] == x.session && IsOpening(s.rows[x.session], x.profile);
    if s.txns[u].pc in {WriteLive, AwaitCommit} {
      CriticalExcludes(s, t, u);
    }
    TxnFrame(s, Advance(s, t, order, keep), u);
  }

  lemma CommitKeeps(s: Db, t: int, order: seq<int>, keep: bool)
    requires Inv(s) && t in s.txns && s.txns[t].pc == AwaitCommit
    ensures Inv(Advance(s, t, order, keep))
  {
    var x := s.txns[t];
    var s' := Advance(s, t, order, keep);
    assert TxnOk(s, t);
    assert x.got[0] == x.session && IsOpening(s.rows[x.session], x.profile);
    assert RowsKeep(s.rows, s'.rows);
    forall u | u in s'.txns && u != t ensures TxnOk(s', u) {
      CommitOthers(s, t, order, keep, u);
    }
    PairsFrame(s, s', t);
  }

  lemma StepKeeps(s: Db, e: Event)
    requires Inv(s) && Enabled(s, e)
    ensures Inv(Next(s, e))
  {
    match e
    case Begin(t, session) =>
      var s' := Next(s, e);
      forall u | u in s'.txns && u != t ensures TxnOk(s', u) {
        TxnFrame(s, s', u);
      }
      PairsFrame(s, s', t);
    case Abort(t) => EndKeeps(s, t, false);
    case Write(id, row) => WriteKeeps(s, id, row);
    case Tick(t, order, keep) => TickKeeps(s, t, order, keep);
  }

  /** The statements before the snapshot. */
  lemma EarlyTickKeeps(s: Db, t: int, order: seq<int>, keep: bool)
    requires Inv(s) && t in s.txns && s.txns[t].pc in {Precheck, Recheck, FirstLiveCheck}
    ensures Inv(Advance(s, t, order, keep))
  {
    EndKeeps(s, t, false);
    var x' := Advance(s, t, order, keep).txns[t];
    if x'.pc != Finished(false) {
      GotoKeeps(s, t, x');
    }
  }

  /** The statements between the last lock and the commit. */
  lemma LateTickKeeps(s: Db, t: int, order: seq<int>, keep: bool)
    requires Inv(s) && t in s.txns && s.txns[t].pc in {CheckPosition, FinalLiveCheck, WriteLive}
    ensures Inv(Advance(s, t, order, keep))
  {
    assert TxnOk(s, t);
    EndKeeps(s, t, false);
    var x' := Advance(s, t, order, keep).txns[t];
    if x'.pc != Finished(false) {
      GotoKeeps(s, t, x');
    }
  }

  lemma TickKeeps(s: Db, t: int, order: seq<int>, keep: bool)
    requires Inv(s) && Enabled(s, Tick(t, order, keep))
    ensures Inv(Advance(s, t, order, keep))
  {
    match s.txns[t].pc {
      case TakeSnapshot => SnapshotKeeps(s, t, order, keep);
      case LockRows => LockKeeps(s, t, keep);
      case AwaitCommit => CommitKeeps(s, t, order, keep);
      case Precheck => EarlyTickKeeps(s, t, order, keep);
      case Recheck => EarlyTickKeeps(s, t, order, keep);
      case FirstLiveCheck => EarlyTickKeeps(s, t, order, keep);
      case CheckPosition => LateTickKeeps(s, t, order, keep);
      case FinalLiveCheck => LateTickKeeps(s, t, order, keep);
      case WriteLive => LateTickKeeps(s, t, order, keep);
    }
  }

  // ----- Mutual exclusion ----------------------------------------------------

  /** No transaction has begun; the rows may be any. */
  ghost predicate Initial(s: Db) { s.txns == map[] && s.locks == map[] }

  lemma {:induction false} RunKeeps(s: Db, es: seq<Event>)
    requires Inv(s) && IsRun(s, es)
    ensures Inv(Run(s, es))
    decreases |es|
  {
    if es != [] {
      StepKeeps(s, es[0]);
      RunKeeps(Next(s, es[0]), es[1..]);
    }
  }

  /** A commit finds no active LIVE session in its profile, and no other statement makes one. */
  lemma StepKeepsOneLive(s: Db, e: Event, profile: int)
    requires Inv(s) && Enabled(s, e) && AtMostOneLive(s.rows, profile)
    ensures AtMostOneLive(Next(s, e).rows, profile)
  {
    if e.Tick? && s.txns[e.txn].pc == AwaitCommit {
      var x := s.txns[e.txn];
      assert TxnOk(s, e.txn);
      assert x.got[0] == x.session && IsOpening(s.rows[x.session], x.profile);
      assert !Blocked(s.rows, x.profile, x.session);
    } else if e.Write? {
      assert NoNewLive(s.rows, Next(s, e).rows, profile);
    }
  }

  lemma {:induction false} RunKeepsOneLive(s: Db, es: seq<Event>, profile: int)
    requires Inv(s) && AtMostOneLive(s.rows, profile) && IsRun(s, es)
    ensures AtMostOneLive(Run(s, es).rows, profile)
    decreases |es|
  {
    if es != [] {
      StepKeeps(s, es[0]);
      StepKeepsOneLive(s, es[0], profile);
      RunKeepsOneLive(Next(s, es[0]), es[1..], profile);
    }
  }

  /** However many transactions start, interleave, commit and abort, and whatever
      the rest of the system writes meanwhile: a profile with at most one row that is LIVE
      (in any letter case), not deleted and not force-stopped never has two, whatever the
      other profiles look like. */
  lemma MutualExclusion(s: Db, es: seq<Event>, profile: int)
    requires Initial(s) && IsRun(s, es)
    requires forall x, y | x in s.rows && y in s.rows && x != y
                           && s.rows[x].profile == s.rows[y].profile == profile
                           && s.rows[x].status.kind == s.rows[y].status.kind == Live ::
      s.rows[x].isDeleted || s.rows[x].forceStop || s.rows[y].isDeleted || s.rows[y].forceStop
    ensures var r := Run(s, es).rows;
      forall x, y | x in r && y in r && x != y && r[x].profile == r[y].profile == profile
                    && r[x].status.kind == r[y].status.kind == Live ::
        r[x].isDeleted || r[x].forceStop || r[y].isDeleted || r[y].forceStop
  {
    RunKeepsOneLive(s, es, profile);
  }

  /** A commit makes exactly one row LIVE and changes nothing else. */
  lemma CommitPromotes(s: Db, es: seq<Event>, t: int, order: seq<int>, keep: bool)
    requires Initial(s) && IsRun(s, es)
    requires var m := Run(s, es); t in m.txns && m.txns[t].pc == AwaitCommit
    ensures var m := Run(s, es);
      var id := m.txns[t].session;
      && id in m.rows && m.rows[id].profile == m.txns[t].profile
      && m.rows[id].status.kind == Opening && !m.rows[id].isDeleted
      && Advance(m, t, order, keep).rows == m.rows[id := m.rows[id].(status := Written(Live))]
  {
    RunKeeps(s, es);
    var m := Run(s, es);
    assert TxnOk(m, t);
    assert m.txns[t].got[0] == m.txns[t].session;
  }

  // ----- The promoted session is the first one -------------------------------

  lemma StepRowsKeep(s: Db, e: Event)
    requires Inv(s) && Enabled(s, e)
    ensures RowsKeep(s.rows, Next(s, e).rows)
  {
    if e.Tick? && s.txns[e.txn].pc == AwaitCommit {
      assert TxnOk(s, e.txn);
      assert s.txns[e.txn].got[0] == s.txns[e.txn].session;
    }
  }

  lemma {:induction false} RunRowsKeep(s: Db, es: seq<Event>)
    requires Inv(s) && IsRun(s, es)
    ensures RowsKeep(s.rows, Run(s, es).rows)
    decreases |es|
  {
    if es != [] {
      StepKeeps(s, es[0]);
      StepRowsKeep(s, es[0]);
      RunRowsKeep(Next(s, es[0]), es[1..]);
    }
  }

  /** What one transaction may have become: its snapshot is never replaced and
      an ended transaction stays ended. */
  ghost predicate Continues(x: Txn, y: Txn) {
    && (x.pc.Finished? ==> y.pc.Finished?)
    && (HasSnapshot(x) ==> HasSnapshot(y) || y.pc.Finished?)
    && (HasSnapshot(x) && HasSnapshot(y) ==>
          x.cands == y.cands && x.profile == y.profile && x.session == y.session)
  }

  lemma OtherTick(s: Db, t: int, order: seq<int>, keep: bool, u: int)
    requires t in s.txns && !s.txns[t].pc.Finished? && u != t
    ensures u in Advance(s, t, order, keep).txns <==> u in s.txns
    ensures u in s.txns ==> Advance(s, t, order, keep).txns[u] == s.txns[u]
  {
    match s.txns[t].pc {
      case LockRows => assert u in Lock(s, t, keep).txns <==> u in s.txns;
      case _ =>
    }
  }

  lemma OwnTick(s: Db, t: int, order: seq<int>, keep: bool)
    requires t in s.txns && !s.txns[t].pc.Finished?
    ensures t in Advance(s, t, order, keep).txns
    ensures var x, y := s.txns[t], Advance(s, t, order, keep).txns[t];
      && (HasSnapshot(x) ==>
            (y.pc.Finished? || HasSnapshot(y)) && x.cands == y.cands && x.profile == y.profile && x.session == y.session)
      && (HasSnapshot(y) && !HasSnapshot(x) ==>
            x.pc == TakeSnapshot && y.cands == order && x.profile == y.profile)
  {
    match s.txns[t].pc {
      case LockRows => assert t in Lock(s, t, keep).txns;
      case _ =>
    }
  }

  lemma StepContinues(s: Db, e: Event, t: int)
    requires Enabled(s, e) && t in s.txns
    ensures t in Next(s, e).txns && Continues(s.txns[t], Next(s, e).txns[t])
  {
    if e.Tick? && e.txn == t {
      OwnTick(s, t, e.order, e.keep);
    } else if e.Tick? {
      OtherTick(s, e.txn, e.order, e.keep, t);
    }
  }

  /** A transaction keeps its snapshot for as long as it lives. */
  lemma {:induction false} SnapshotStays(s: Db, es: seq<Event>, t: int)
    requires IsRun(s, es) && t in s.txns
    ensures t in Run(s, es).txns && Continues(s.txns[t], Run(s, es).txns[t])
    decreases |es|
  {
    if es != [] {
      StepContinues(s, es[0], t);
      SnapshotStays(Next(s, es[0]), es[1..], t);
    }
  }

  /** Only the locking statement gives a transaction its snapshot. */
  lemma SnapshotStep(s: Db, e: Event, t: int)
    requires Enabled(s, e) && (t in s.txns ==> !HasSnapshot(s.txns[t]))
    requires t in Next(s, e).txns && HasSnapshot(Next(s, e).txns[t])
    ensures e.Tick? && e.txn == t && t in s.txns && s.txns[t].pc == TakeSnapshot
    ensures IsCandidateList(s.rows, s.txns[t].profile, Next(s, e).txns[t].cands)
    ensures Next(s, e).txns[t].profile == s.txns[t].profile
  {
    if e.Tick? && e.txn == t {
      OwnTick(s, t, e.order, e.keep);
    } else if e.Tick? {
      OtherTick(s, e.txn, e.order, e.keep, t);
    }
  }

  lemma {:induction false} RunPrefix(s: Db, es: seq<Event>, k: nat)
    requires IsRun(s, es) && k <= |es|
    ensures IsRun(s, es[..k]) && IsRun(Run(s, es[..k]), es[k..])
    ensures Run(Run(s, es[..k]), es[k..]) == Run(s, es)
    decreases |es|
  {
    if k == 0 {
      assert es[..0] == [] && es[0..] == es;
    } else {
      RunPrefix(Next(s, es[0]), es[1..], k - 1);
      assert es[..k][0] == es[0] && es[..k][1..] == es[1..][..k - 1];
      assert es[k..] == es[1..][k - 1..];
    }
  }

  /** The step at which a transaction took the snapshot it still works with. */
  lemma {:induction false} SnapshotMoment(s: Db, es: seq<Event>, t: int) returns (k: nat)
    requires IsRun(s, es) && t in Run(s, es).txns && HasSnapshot(Run(s, es).txns[t])
    requires t in s.txns ==> !HasSnapshot(s.txns[t])
    ensures k < |es| && es[k].Tick? && es[k].txn == t
    ensures IsRun(s, es[..k])
    ensures var m := Run(s, es[..k]);
      && t in m.txns && m.txns[t].pc == TakeSnapshot && m.txns[t].profile == Run(s, es).txns[t].profile
      && IsCandidateList(m.rows, m.txns[t].profile, Run(s, es).txns[t].cands)
    decreases |es|
  {
    var s' := Next(s, es[0]);
    if t in s'.txns && HasSnapshot(s'.txns[t]) {
      k := 0;
      SnapshotStep(s, es[0], t);
      SnapshotStays(s', es[1..], t);
      assert es[..0] == [];
    } else {
      var j := SnapshotMoment(s', es[1..], t);
      k := j + 1;
      RunPrefix(s, es, k);
      assert es[..k][0] == es[0] && es[..k][1..] == es[1..][..j];
    }
  }

  /** No session of `then_` that was OPENING, and still is in `now`, precedes `id`. */
  ghost predicate FirstOpening(then_: map<int, Session>, now: map<int, Session>, profile: int, id: int) {
    && id in then_ && IsOpening(then_[id], profile)
    && forall x :: x in then_ && x in now && IsOpening(then_[x], profile) && IsOpening(now[x], profile) ==>
         !KeyLess(KeyOf(then_[x]), KeyOf(then_[id]))
  }

  /** A session is promoted only if, among the profile's rows that were OPENING
      when the locking statement took its snapshot and have stayed OPENING, none
      starts before it, nulls last, or starts with it and was created before it,
      nulls last. */
  lemma PromotedIsFirst(s: Db, es: seq<Event>, t: int) returns (k: nat)
    requires Initial(s) && IsRun(s, es)
    requires t in Run(s, es).txns && Critical(Run(s, es).txns[t])
    ensures k < |es| && es[k].Tick? && es[k].txn == t && IsRun(s, es[..k])
    ensures t in Run(s, es[..k]).txns && Run(s, es[..k]).txns[t].pc == TakeSnapshot
    ensures var then_, now, x := Run(s, es[..k]).rows, Run(s, es).rows, Run(s, es).txns[t];
      && x.session in then_ && then_[x.session].profile == x.profile
      && then_[x.session].status.kind == Opening && !then_[x.session].isDeleted
      && forall y | y in then_ && y in now && then_[y].profile == now[y].profile == x.profile
                    && then_[y].status.kind == now[y].status.kind == Opening
                    && !then_[y].isDeleted && !now[y].isDeleted ::
         var a, b := then_[x.session], then_[y];
         if a.startTime != b.startTime
         then a.startTime.Some? && (b.startTime.Some? ==> a.startTime.value < b.startTime.value)
         else a.createdAt == b.createdAt
              || (a.createdAt.Some? && (b.createdAt.Some? ==> a.createdAt.value < b.createdAt.value))
  {
    k := SnapshotMoment(s, es, t);
    RunPrefix(s, es, k);
    RunKeeps(s, es);
    RunKeeps(s, es[..k]);
    var m, n := Run(s, es[..k]), Run(s, es);
    RunRowsKeep(m, es[k..]);
    assert TxnOk(n, t);
    FirstOfLocked(m.rows, n, t);
    FirstInColumns(m.rows, n.rows, n.txns[t].profile, n.txns[t].session);
  }

  lemma FirstInColumns(then_: map<int, Session>, now: map<int, Session>, profile: int, id: int)
    requires FirstOpening(then_, now, profile, id)
    ensures id in then_ && then_[id].profile == profile && then_[id].status.kind == Opening && !then_[id].isDeleted
    ensures forall y | y in then_ && y in now && then_[y].profile == now[y].profile == profile
                       && then_[y].status.kind == now[y].status.kind == Opening
                       && !then_[y].isDeleted && !now[y].isDeleted ::
      var a, b := then_[id], then_[y];
      if a.startTime != b.startTime
      then a.startTime.Some? && (b.startTime.Some? ==> a.startTime.value < b.startTime.value)
      else a.createdAt == b.createdAt
           || (a.createdAt.Some? && (b.createdAt.Some? ==> a.createdAt.value < b.createdAt.value))
  {
    forall y | y in then_ && y in now && then_[y].profile == now[y].profile == profile
        && then_[y].status.kind == now[y].status.kind == Opening && !then_[y].isDeleted && !now[y].isDeleted
      ensures !KeyLess(KeyOf(then_[y]), KeyOf(then_[id]))
    {
      assert IsOpening(then_[y], profile) && IsOpening(now[y], profile);
    }
  }

  /** Past the position check, nothing that was a candidate and is still OPENING
      precedes the transaction's own session. */
  lemma FirstOfLocked(then_: map<int, Session>, s: Db, t: int)
    requires t in s.txns && TxnOk(s, t) && Critical(s.txns[t])
    requires IsCandidateList(then_, s.txns[t].profile, s.txns[t].cands) && RowsKeep(then_, s.rows)
    ensures FirstOpening(then_, s.rows, s.txns[t].profile, s.txns[t].session)
  {
    var x := s.txns[t];
    assert x.got[0] == x.session;
    assert Processed(x, x.session);
    forall y | y in then_ && y in s.rows && IsOpening(then_[y], x.profile) && IsOpening(s.rows[y], x.profile)
      ensures !KeyLess(KeyOf(then_[y]), KeyOf(then_[x.session]))
    {
      assert y in x.cands;
      var i :| 0 <= i < |x.cands| && x.cands[i] == y;
      assert x.cands[i] in x.got;
      var j :| 0 <= j < |x.got| && x.got[j] == y;
    }
  }

  // ----- No deadlock ---------------------------------------------------------

  /** `t` waits for a row that `u` holds. */
  ghost predicate WaitsFor(s: Db, t: int, u: int) {
    && t in s.txns && s.txns[t].pc == LockRows && s.txns[t].next < |s.txns[t].cands|
    && s.txns[t].cands[s.txns[t].next] in s.locks
    && s.locks[s.txns[t].cands[s.txns[t].next]] == u
    && u != t
  }

  ghost predicate IsWaiting(s: Db, t: int) { exists u :: WaitsFor(s, t, u) }

  /** No two rows of one list of candidates share a sort key. */
  ghost predicate Untied(rows: map<int, Session>, list: seq<int>) {
    forall i, j :: 0 <= i < j < |list| && list[i] in rows && list[j] in rows ==>
      KeyOf(rows[list[i]]) != KeyOf(rows[list[j]])
  }

  /** No transaction at work has a list of candidates with a tie. */
  ghost predicate NoTies(s: Db) {
    forall t :: t in s.txns && HasSnapshot(s.txns[t]) ==> Untied(s.rows, s.txns[t].cands)
  }

  /** The key of the row a waiting transaction asks for. */
  function Wanted(s: Db, t: int): SortKey {
    if t in s.txns && s.txns[t].next < |s.txns[t].cands| && s.txns[t].cands[s.txns[t].next] in s.rows
    then KeyOf(s.rows[s.txns[t].cands[s.txns[t].next]])
    else SortKey(None, None)
  }

  lemma HolderHasSnapshot(s: Db, t: int, u: int)
    requires Inv(s) && WaitsFor(s, t, u)
    ensures u in s.txns && HasSnapshot(s.txns[u])
  {
    var id := s.txns[t].cands[s.txns[t].next];
    assert Processed(s.txns[s.locks[id]], id);
  }

  lemma WaitRaisesKey(s: Db, t: int, u: int)
    requires Inv(s) && NoTies(s) && WaitsFor(s, t, u) && IsWaiting(s, u)
    ensures KeyLess(Wanted(s, t), Wanted(s, u))
  {
    var x, y := s.txns[t], s.txns[u];
    assert TxnOk(s, t) && TxnOk(s, u);
    var id := x.cands[x.next];
    assert Processed(y, id);
    var k :| 0 <= k < y.next && k < |y.cands| && y.cands[k] == id;
    HolderHasSnapshot(s, t, u);
    assert Untied(s.rows, y.cands) && y.cands[k] in s.rows && y.cands[y.next] in s.rows;
  }

  ghost predicate IsWaitPath(s: Db, path: seq<int>) {
    |path| > 0 && forall i :: 0 <= i < |path| - 1 ==> WaitsFor(s, path[i], path[i + 1])
  }

  lemma {:induction false} WaitPathRaisesKey(s: Db, path: seq<int>)
    requires Inv(s) && NoTies(s) && IsWaitPath(s, path) && |path| >= 2
    requires IsWaiting(s, path[|path| - 1])
    ensures KeyLess(Wanted(s, path[0]), Wanted(s, path[|path| - 1]))
    decreases |path|
  {
    var n := |path|;
    assert WaitsFor(s, path[n - 2], path[n - 1]);
    WaitRaisesKey(s, path[n - 2], path[n - 1]);
    if n > 2 {
      WaitPathRaisesKey(s, path[..n - 1]);
    }
  }

  /** The wait-for graph has no cycle. */
  lemma NoWaitCycle(s: Db, path: seq<int>)
    requires Inv(s) && NoTies(s) && IsWaitPath(s, path) && |path| >= 2
    ensures path[0] != path[|path| - 1]
  {
    if path[0] == path[|path| - 1] {
      assert WaitsFor(s, path[0], path[1]);
      WaitPathRaisesKey(s, path);
    }
  }

  lemma {:induction false} DistinctFits(p: seq<int>, all: set<int>)
    requires Distinct(p) && forall i :: 0 <= i < |p| ==> p[i] in all
    ensures |p| <= |all|
    decreases |p|
  {
    if p != [] {
      var n := |p| - 1;
      DistinctFits(p[..n], all - {p[n]});
    }
  }

  lemma WaitPathDistinct(s: Db, path: seq<int>)
    requires Inv(s) && NoTies(s) && IsWaitPath(s, path)
    ensures Distinct(path)
  {
    forall i, j | 0 <= i < j < |path| ensures path[i] != path[j] {
      var p := path[i..j + 1];
      forall k | 0 <= k < |p| - 1 ensures WaitsFor(s, p[k], p[k + 1]) {
        assert WaitsFor(s, path[i + k], path[i + k + 1]);
      }
      NoWaitCycle(s, p);
    }
  }

  /** Following the locks from a waiting transaction ends at one that holds a
      lock and is not waiting itself. */
  lemma {:induction false} FollowWaits(s: Db, path: seq<int>) returns (u: int)
    requires Inv(s) && NoTies(s) && IsWaitPath(s, path) && |path| >= 2
    ensures u in s.txns && HasSnapshot(s.txns[u]) && !IsWaiting(s, u)
    decreases |s.txns| - |path|
  {
    var n := |path|;
    u := path[n - 1];
    assert WaitsFor(s, path[n - 2], u);
    HolderHasSnapshot(s, path[n - 2], u);
    if IsWaiting(s, u) {
      var v :| WaitsFor(s, u, v);
      HolderHasSnapshot(s, u, v);
      WaitPathDistinct(s, path + [v]);
      forall i | 0 <= i < |path + [v]| ensures (path + [v])[i] in s.txns.Keys {
        if i < n - 1 { assert WaitsFor(s, path[i], path[i + 1]); }
      }
      DistinctFits(path + [v], s.txns.Keys);
      assert |s.txns.Keys| == |s.txns|;
      u := FollowWaits(s, path + [v]);
    }
  }

  lemma CanLockUnlessWaiting(s: Db, t: int)
    requires t in s.txns
    ensures s.txns[t].pc == LockRows ==> CanLockNext(s, t) || IsWaiting(s, t)
  {
    if s.txns[t].pc == LockRows && !CanLockNext(s, t) {
      assert WaitsFor(s, t, s.locks[s.txns[t].cands[s.txns[t].next]]);
    }
  }

  /** In every reachable state in which no list of candidates has a tie, if some
      transaction waits then another one can execute its next statement. */
  lemma NoDeadlock(s: Db, es: seq<Event>, t: int)
    requires Initial(s) && IsRun(s, es) && NoTies(Run(s, es)) && IsWaiting(Run(s, es), t)
    ensures exists u :: u in Run(s, es).txns && Enabled(Run(s, es), Tick(u, [], false))
  {
    RunKeeps(s, es);
    var m := Run(s, es);
    var v :| WaitsFor(m, t, v);
    var u := FollowWaits(m, [t, v]);
    CanLockUnlessWaiting(m, u);
    assert Enabled(m, Tick(u, [], false));
  }

  // ----- Orders the database may return ----------------------------------------

  /** Nothing in the profile that is OPENING precedes `id`. */
  ghost predicate IsFirst(rows: map<int, Session>, profile: int, id: int) {
    && id in rows && IsOpening(rows[id], profile)
    && forall x :: x in rows && IsOpening(rows[x], profile) ==> !KeyLess(KeyOf(rows[x]), KeyOf(rows[id]))
  }

  lemma InsertSorted(rows: map<int, Session>, order: seq<int>, k: nat, x: int)
    requires forall i :: 0 <= i < |order| ==> order[i] in rows
    requires k <= |order| && x in rows && x !in order && Distinct(order) && Sorted(rows, order)
    requires forall i :: 0 <= i < k ==> !KeyLess(KeyOf(rows[x]), KeyOf(rows[order[i]]))
    requires k < |order| ==> !KeyLess(KeyOf(rows[order[k]]), KeyOf(rows[x]))
    ensures var s := order[..k] + [x] + order[k..];
      && (forall i :: 0 <= i < |s| ==> s[i] == x || s[i] in order)
      && (forall y :: y in order ==> y in s) && x in s
      && (forall i :: 0 <= i < |s| ==> s[i] in rows)
      && Distinct(s) && Sorted(rows, s)
  {
    var s := order[..k] + [x] + order[k..];
    assert s[k] == x;
    forall y | y in order ensures y in s {
      var i :| 0 <= i < |order| && order[i] == y;
      assert s[if i < k then i else i + 1] == y;
    }
    forall i | 0 <= i < |s|
      ensures s[i] in rows && (i < k ==> s[i] == order[i]) && (i > k ==> s[i] == order[i - 1])
    {
    }
    forall i, j | 0 <= i < j < |s| ensures !KeyLess(KeyOf(rows[s[j]]), KeyOf(rows[s[i]])) && s[i] != s[j] {
      if i == k {
        assert !KeyLess(KeyOf(rows[order[j - 1]]), KeyOf(rows[order[k]])) || j - 1 == k;
      }
    }
  }

  lemma {:induction false} SortedListExists(rows: map<int, Session>, ids: set<int>) returns (order: seq<int>)
    requires ids <= rows.Keys
    ensures forall x :: x in order <==> x in ids
    ensures Distinct(order) && (forall i :: 0 <= i < |order| ==> order[i] in rows) && Sorted(rows, order)
    decreases |ids|
  {
    order := [];
    if x :| x in ids {
      var rest := SortedListExists(rows, ids - {x});
      var k := 0;
      while k < |rest| && !KeyLess(KeyOf(rows[x]), KeyOf(rows[rest[k]]))
        invariant 0 <= k <= |rest|
        invariant forall i :: 0 <= i < k ==> !KeyLess(KeyOf(rows[x]), KeyOf(rows[rest[i]]))
      {
        k := k + 1;
      }
      InsertSorted(rows, rest, k, x);
      order := rest[..k] + [x] + rest[k..];
    }
  }

  /** Any arrangement of rows that nothing precedes may open the list. */
  lemma ListWithFront(rows: map<int, Session>, profile: int, front: seq<int>) returns (order: seq<int>)
    requires Distinct(front) && forall i :: 0 <= i < |front| ==> IsFirst(rows, profile, front[i])
    ensures IsCandidateList(rows, profile, order) && front <= order
  {
    var rest := SortedListExists(rows, set x | x in rows && IsOpening(rows[x], profile) && x !in front);
    order := front + rest;
    forall x | x in rows && IsOpening(rows[x], profile) ensures x in order {
      if x !in front {
        assert x in rest;
      }
    }
    forall i | 0 <= i < |order| ensures order[i] in rows && IsOpening(rows[order[i]], profile) {
      if i >= |front| {
        assert order[i] in rest;
      }
    }
    forall i, j | 0 <= i < j < |order|
      ensures order[i] != order[j] && !KeyLess(KeyOf(rows[order[j]]), KeyOf(rows[order[i]]))
    {
      if i < |front| <= j {
        assert order[j] in rest;
      }
    }
  }

  // ----- Deadlock of tied rows ---------------------------------------------------

  /** Two rows that tie may be listed next to each other, either way round, with the same
      rows before and after them. */
  lemma TiedLists(rows: map<int, Session>, profile: int, a: int, b: int) returns (front: seq<int>, back: seq<int>)
    requires a != b && a in rows && b in rows && IsOpening(rows[a], profile) && IsOpening(rows[b], profile)
    requires KeyOf(rows[a]) == KeyOf(rows[b])
    ensures IsCandidateList(rows, profile, front + [a, b] + back)
    ensures IsCandidateList(rows, profile, front + [b, a] + back)
    ensures a !in front && b !in front
  {
    var rest := SortedListExists(rows, (set x | x in rows && IsOpening(rows[x], profile)) - {a, b});
    var k := 0;
    while k < |rest| && !KeyLess(KeyOf(rows[a]), KeyOf(rows[rest[k]]))
      invariant 0 <= k <= |rest|
      invariant forall i :: 0 <= i < k ==> !KeyLess(KeyOf(rows[a]), KeyOf(rows[rest[i]]))
    {
      k := k + 1;
    }
    front, back := rest[..k], rest[k..];
    PairInserted(rows, profile, rest, k, a, b);
    PairInserted(rows, profile, rest, k, b, a);
  }

  lemma PairInserted(rows: map<int, Session>, profile: int, rest: seq<int>, k: nat, a: int, b: int)
    requires a != b && a in rows && b in rows && IsOpening(rows[a], profile) && IsOpening(rows[b], profile)
    requires KeyOf(rows[a]) == KeyOf(rows[b])
    requires forall x :: x in rest <==> x in rows && IsOpening(rows[x], profile) && x != a && x != b
    requires forall i :: 0 <= i < |rest| ==> rest[i] in rows
    requires Distinct(rest) && Sorted(rows, rest) && k <= |rest|
    requires forall i :: 0 <= i < k ==> !KeyLess(KeyOf(rows[a]), KeyOf(rows[rest[i]]))
    requires k < |rest| ==> KeyLess(KeyOf(rows[a]), KeyOf(rows[rest[k]]))
    ensures IsCandidateList(rows, profile, rest[..k] + [a, b] + rest[k..])
  {
    var all := rest[..k] + [a, b] + rest[k..];
    PairSorted(rows, rest, k, a, b);
    assert rest == rest[..k] + rest[k..];
    assert forall x :: x in all <==> x == a || x == b || x in rest;
    forall i | 0 <= i < |all| ensures all[i] in rows && IsOpening(rows[all[i]], profile) {
      assert all[i] in all;
    }
  }

  lemma PairSorted(rows: map<int, Session>, rest: seq<int>, k: nat, a: int, b: int)
    requires a != b && a in rows && b in rows && a !in rest && b !in rest && KeyOf(rows[a]) == KeyOf(rows[b])
    requires forall i :: 0 <= i < |rest| ==> rest[i] in rows
    requires Distinct(rest) && Sorted(rows, rest) && k <= |rest|
    requires forall i :: 0 <= i < k ==> !KeyLess(KeyOf(rows[a]), KeyOf(rows[rest[i]]))
    requires k < |rest| ==> KeyLess(KeyOf(rows[a]), KeyOf(rows[rest[k]]))
    ensures var all := rest[..k] + [a, b] + rest[k..];
      (forall i :: 0 <= i < |all| ==> all[i] in rows) && Distinct(all) && Sorted(rows, all)
  {
    InsertSorted(rows, rest, k, b);
    var one := rest[..k] + [b] + rest[k..];
    assert one[..k] == rest[..k] && one[k..] == [b] + rest[k..];
    InsertSorted(rows, one, k, a);
    assert one[..k] + [a] + one[k..] == rest[..k] + [a, b] + rest[k..];
  }

  /** The rest of the system deletes the rows of a list that nobody has locked. */
  lemma {:induction false} Delete(s: Db, list: seq<int>, profile: int) returns (es: seq<Event>, rows: map<int, Session>)
    requires s.locks == map[] && forall i :: 0 <= i < |list| ==> list[i] in s.rows
    ensures IsRun(s, es) && Run(s, es) == s.(rows := rows) && rows.Keys == s.rows.Keys
    ensures forall i :: 0 <= i < |list| ==> !IsOpening(rows[list[i]], profile)
    ensures forall id :: id in s.rows && id !in list ==> rows[id] == s.rows[id]
    ensures forall id :: id in s.rows && s.rows[id].isDeleted ==> rows[id].isDeleted
    decreases |list|
  {
    if list == [] {
      es, rows := [], s.rows;
    } else {
      var e := Write(list[0], s.rows[list[0]].(isDeleted := true));
      var fs, r := Delete(Next(s, e), list[1..], profile);
      assert Next(s, e).rows[list[0]].isDeleted;
      RunOne(s, e);
      RunAppend(s, [e], fs);
      es, rows := [e] + fs, r;
    }
  }

  /** Rows that no longer match are gone through without being held. */
  lemma {:induction false} SkipTo(s: Db, t: int, k: nat) returns (es: seq<Event>)
    requires t in s.txns && s.txns[t].pc == LockRows && s.txns[t].next <= k <= |s.txns[t].cands| && s.locks == map[]
    requires forall i :: s.txns[t].next <= i < k ==>
      s.txns[t].cands[i] in s.rows && !IsOpening(s.rows[s.txns[t].cands[i]], s.txns[t].profile)
    ensures IsRun(s, es) && Run(s, es) == s.(txns := s.txns[t := s.txns[t].(next := k)])
    decreases k - s.txns[t].next
  {
    if s.txns[t].next == k {
      es := [];
    } else {
      var e := Tick(t, [], false);
      assert Next(s, e) == s.(txns := s.txns[t := s.txns[t].(next := s.txns[t].next + 1)]);
      var fs := SkipTo(Next(s, e), t, k);
      RunOne(s, e);
      RunAppend(s, [e], fs);
      es := [e] + fs;
    }
  }

  /** Where two OPENING rows of a usable profile without an active LIVE session tie, at
      any place of the order, the database may list them either way round.  Two
      transactions that saw them in opposite orders block each other once the rows before
      them have left OPENING between the snapshots and the locks. */
  lemma TiedKeysCanDeadlock(s: Db, profile: int, a: int, b: int) returns (es: seq<Event>)
    requires Initial(s) && profile in s.profiles && s.profiles[profile].isActive && !s.profiles[profile].isDeleted
    requires forall x :: x in s.rows ==> !IsActiveLive(s.rows[x], profile)
    requires a != b && a in s.rows && b in s.rows && IsOpening(s.rows[a], profile) && IsOpening(s.rows[b], profile)
    requires KeyOf(s.rows[a]) == KeyOf(s.rows[b])
    ensures IsRun(s, es)
    ensures WaitsFor(Run(s, es), 1, 2) && WaitsFor(Run(s, es), 2, 1)
  {
    var front, back := TiedLists(s.rows, profile, a, b);
    var up, down := front + [a, b] + back, front + [b, a] + back;
    var first := BeginToSnapshot(s, 1, a, Tick(1, up, false));
    var s1 := Run(s, first);
    var second := BeginToSnapshot(s1, 2, b, Tick(2, down, false));
    var s2 := Run(s1, second);
    forall i | 0 <= i < |front| ensures front[i] in s2.rows {
      assert up[i] == front[i];
    }
    var third, rows := Delete(s2, front, profile);
    var s3 := Run(s2, third);
    var fourth := FromTie(s3, front, a, b, back);
    RunAppend(s2, third, fourth);
    RunAppend(s1, second, third + fourth);
    RunAppend(s, first, second + (third + fourth));
    es := first + (second + (third + fourth));
  }

  /** Both transactions go through the rows before the tie and lock one row each. */
  lemma FromTie(s: Db, front: seq<int>, a: int, b: int, back: seq<int>) returns (es: seq<Event>)
    requires s.locks == map[] && s.txns.Keys == {1, 2} && a != b
    requires s.txns[1].cands == front + [a, b] + back && s.txns[2].cands == front + [b, a] + back
    requires forall t :: t in {1, 2} ==> s.txns[t].pc == LockRows && s.txns[t].next == 0
    requires forall t, i :: t in {1, 2} && 0 <= i < |front| ==>
      front[i] in s.rows && !IsOpening(s.rows[front[i]], s.txns[t].profile)
    requires a in s.rows && IsOpening(s.rows[a], s.txns[1].profile)
    requires b in s.rows && IsOpening(s.rows[b], s.txns[2].profile)
    ensures IsRun(s, es)
    ensures WaitsFor(Run(s, es), 1, 2) && WaitsFor(Run(s, es), 2, 1)
  {
    var k := |front|;
    var x, y := s.txns[1], s.txns[2];
    assert forall i :: 0 <= i < k ==> x.cands[i] == front[i] && y.cands[i] == front[i];
    var first := SkipTo(s, 1, k);
    var s1 := Run(s, first);
    var second := SkipTo(s1, 2, k);
    var s2 := Run(s1, second);
    LockInOppositeOrder(s2, k);
    var last := [Tick(1, [], false), Tick(2, [], false)];
    RunAppend(s1, second, last);
    RunAppend(s, first, second + last);
    es := first + (second + last);
  }

  lemma LockInOppositeOrder(s: Db, k: nat)
    requires s.locks == map[] && s.txns.Keys == {1, 2}
    requires forall t :: t in {1, 2} ==> s.txns[t].pc == LockRows && s.txns[t].next == k && |s.txns[t].cands| >= k + 2
    requires var c, d := s.txns[1].cands, s.txns[2].cands;
      && c[k] != d[k] && c[k + 1] == d[k] && d[k + 1] == c[k]
      && c[k] in s.rows && IsOpening(s.rows[c[k]], s.txns[1].profile)
      && d[k] in s.rows && IsOpening(s.rows[d[k]], s.txns[2].profile)
    ensures var es := [Tick(1, [], false), Tick(2, [], false)];
      IsRun(s, es) && WaitsFor(Run(s, es), 1, 2) && WaitsFor(Run(s, es), 2, 1)
  {
    var t, u := Tick(1, [], false), Tick(2, [], false);
    var x, y := s.txns[1], s.txns[2];
    var s1 := Next(s, t);
    assert s1.locks == map[x.cands[k] := 1];
    assert s1.txns[1] == x.(next := k + 1, got := x.got + [x.cands[k]]) && s1.txns[2] == y;
    var s2 := Next(s1, u);
    assert s2.locks == map[x.cands[k] := 1, y.cands[k] := 2];
    assert s2.txns[1] == s1.txns[1] && s2.txns[2] == y.(next := k + 1, got := y.got + [y.cands[k]]);
    RunOne(s1, u);
    RunOne(s, t);
    RunAppend(s, [t], [u]);
    assert [t] + [u] == [t, u];
  }

  lemma BeginToSnapshot(s: Db, t: int, id: int, e: Event) returns (es: seq<Event>)
    requires t !in s.txns && e.Tick? && e.txn == t && id in s.rows && s.rows[id].profile in s.profiles
    requires var p := s.rows[id].profile;
      && s.profiles[p].isActive && !s.profiles[p].isDeleted && IsOpening(s.rows[id], p)
      && !Blocked(s.rows, p, id) && IsCandidateList(s.rows, p, e.order)
    ensures IsRun(s, es)
    ensures Run(s, es) == s.(clock := s.clock + 1,
      txns := s.txns[t := Txn(id, LockRows, s.rows[id].profile, s.clock, e.order, 0, [])])
  {
    var b := Begin(t, id);
    var s1 := Next(s, b);
    RunOne(s, b);
    RunFour(s1, e, s1.txns[t], e.order);
    RunAppend(s, [b], [e, e, e, e]);
    es := [b] + [e, e, e, e];
    assert s1.txns[t := Txn(id, LockRows, s.rows[id].profile, s.clock, e.order, 0, [])]
        == s.txns[t := Txn(id, LockRows, s.rows[id].profile, s.clock, e.order, 0, [])];
  }

  lemma RunOne(s: Db, e: Event)
    requires Enabled(s, e)
    ensures IsRun(s, [e]) && Run(s, [e]) == Next(s, e)
  {
    assert [e][1..] == [];
    assert IsRun(Next(s, e), []);
  }

  lemma {:induction false} RunAppend(s: Db, es: seq<Event>, fs: seq<Event>)
    requires IsRun(s, es) && IsRun(Run(s, es), fs)
    ensures IsRun(s, es + fs) && Run(s, es + fs) == Run(Run(s, es), fs)
    decreases |es|
  {
    if es == [] {
      assert es + fs == fs;
    } else {
      assert (es + fs)[0] == es[0] && (es + fs)[1..] == es[1..] + fs;
      RunAppend(Next(s, es[0]), es[1..], fs);
    }
  }

  /** The statements before the first lock, when every check passes. */
  lemma RunFour(s: Db, e: Event, x: Txn, order: seq<int>)
    requires e.Tick? && e.order == order && e.txn in s.txns && s.txns[e.txn] == x && x.pc == Precheck
    requires x.session in s.rows && s.rows[x.session].profile in s.profiles
    requires var p := s.rows[x.session].profile;
      && s.profiles[p].isActive && !s.profiles[p].isDeleted && IsOpening(s.rows[x.session], p)
      && !Blocked(s.rows, p, x.session) && IsCandidateList(s.rows, p, order)
    ensures IsRun(s, [e, e, e, e])
    ensures Run(s, [e, e, e, e]) == s.(clock := s.clock + 1,
      txns := s.txns[e.txn := Txn(x.session, LockRows, s.rows[x.session].profile, s.clock, order, 0, [])])
  {
    var p := s.rows[x.session].profile;
    var s1 := Next(s, e);
    assert s1.txns[e.txn] == x.(pc := Recheck);
    var s2 := Next(s1, e);
    assert s2.txns[e.txn] == x.(pc := FirstLiveCheck, profile := p);
    var s3 := Next(s2, e);
    assert s3.txns[e.txn] == x.(pc := TakeSnapshot, profile := p);
    var s4 := Next(s3, e);
    RunOne(s3, e);
    RunOne(s2, e);
    RunOne(s1, e);
    RunOne(s, e);
    RunAppend(s2, [e], [e]);
    RunAppend(s1, [e], [e, e]);
    RunAppend(s, [e], [e, e, e]);
    assert [e] + [e] == [e, e] && [e] + [e, e] == [e, e, e] && [e] + [e, e, e] == [e, e, e, e];
    assert s4.txns == s.txns[e.txn := Txn(x.session, LockRows, p, s.clock, order, 0, [])];
  }
}
