/** `syncOpeningSessionsToLive`: the recurring job that promotes every OPENING
    session whose start time plus duration has passed. */
module SyncOpening {
  import opened Schema
  import opened Durations
  import opened StartLiveProtocol
  import opened StartLive

  predicate IsDue(profiles: map<int, Profile>, r: Session, now: int, addYears: (int, int) -> int) {
    ProfileUsable(profiles, r.profile)
    && var p := profiles[r.profile];
       var t := AddDuration(r.startTime, p.durationValue, p.durationUnit, addYears);
       t.Some? && t.value <= now
  }

  /** A session is due when its start time and the duration of its active, undeleted
      profile are set and the duration, counted in milliseconds unless it is in years, has
      passed. */
  lemma DueInColumns(profiles: map<int, Profile>, r: Session, now: int, addYears: (int, int) -> int)
    ensures IsDue(profiles, r, now, addYears) <==>
      && r.profile in profiles && profiles[r.profile].isActive && !profiles[r.profile].isDeleted
      && r.startTime.Some? && profiles[r.profile].durationValue.Some? && profiles[r.profile].durationValue.value != 0
      && profiles[r.profile].durationUnit.Some?
      && var start, n := r.startTime.value, profiles[r.profile].durationValue.value;
         match profiles[r.profile].durationUnit.value
         case Seconds => start + 1000 * n <= now
         case Minutes => start + 60000 * n <= now
         case Hours => start + 3600000 * n <= now
         case Days => start + 86400000 * n <= now
         case Years => addYears(start, n) <= now
         case UnknownUnit => false
  {
    if r.startTime.Some? && r.profile in profiles {
      DelayInMilliseconds(profiles[r.profile].durationValue, profiles[r.profile].durationUnit);
      DelayIsEndMinusStart(
        r.startTime.value, profiles[r.profile].durationValue, profiles[r.profile].durationUnit, addYears);
    }
  }

  // ----- What a run may do to the rows ------------------------------------------

  /** `r` is `r0` with some of the sessions in `done` promoted. */
  ghost predicate PromotedSome(r0: map<int, Session>, r: map<int, Session>, done: set<int>) {
    && r.Keys == r0.Keys
    && forall x :: x in r && r[x] != r0[x] ==>
         x in done && IsOpening(r0[x], r0[x].profile) && r[x] == r0[x].(status := Written(Live))
  }

  /** A row that is LIVE, in any letter case, not deleted and not force-stopped, other
      than that of `x`. */
  ghost predicate AnotherLive(r: map<int, Session>, profile: int, x: int) {
    exists y :: y in r && y != x && r[y].profile == profile && r[y].status.kind == Live
                && !r[y].isDeleted && !r[y].forceStop
  }

  /** A session this run made LIVE, if not force-stopped, is the only active LIVE
      session of its profile. */
  ghost predicate NewLiveAlone(r0: map<int, Session>, r: map<int, Session>) {
    forall x :: x in r && x in r0 && r[x] != r0[x] && !r[x].forceStop ==> !AnotherLive(r, r[x].profile, x)
  }

  /** The session was made LIVE, or another one that is neither deleted nor force-stopped
      is LIVE in its profile. */
  ghost predicate Settled(r0: map<int, Session>, r: map<int, Session>, f: int) {
    f in r0 && f in r && (r[f] == r0[f].(status := Written(Live)) || AnotherLive(r, r0[f].profile, f))
  }

  ghost predicate StrictFirst(r: map<int, Session>, f: int) {
    && f in r && IsOpening(r[f], r[f].profile)
    && forall x :: x in r && x != f && IsOpening(r[x], r[f].profile) ==> KeyLess(KeyOf(r[f]), KeyOf(r[x]))
  }

  /** `d` is due, and `f` is strictly first in its profile. */
  ghost predicate DueBehind(
    profiles: map<int, Profile>, r: map<int, Session>, d: int, f: int, now: int, addYears: (int, int) -> int)
  {
    && d in r && IsOpening(r[d], r[d].profile) && IsDue(profiles, r[d], now, addYears)
    && StrictFirst(r, f) && r[f].profile == r[d].profile
  }

  /** One listed session, without a fault: it is skipped, or its transaction runs on
      the rows as they are, with some legal order of the locked ones. */
  ghost predicate MayFollow(
    profiles: map<int, Profile>, rows: map<int, Session>, mid: map<int, Session>, id: int, now: int,
    addYears: (int, int) -> int, after: map<int, Session>)
  {
    && id in rows && id in mid
    && if IsDue(profiles, rows[id], now, addYears)
       then exists order ::
         IsCandidateList(mid, mid[id].profile, order) && after == After(mid, id, OutcomeOf(profiles, mid, id, order))
       else after == mid
  }

  /** The rows a faultless pass over the list may leave. */
  ghost predicate MayLeave(
    profiles: map<int, Profile>, rows: map<int, Session>, list: seq<int>, now: int, addYears: (int, int) -> int,
    after: map<int, Session>)
    decreases |list|
  {
    if list == [] then after == rows
    else
      var n := |list| - 1;
      exists mid ::
        MayLeave(profiles, rows, list[..n], now, addYears, mid)
        && MayFollow(profiles, rows, mid, list[n], now, addYears, after)
  }

  /** What the job works through: the OPENING sessions, by start time. */
  ghost predicate IsListing(rows: map<int, Session>, list: seq<int>) {
    && (forall x :: x in list <==> x in rows && IsOpening(rows[x], rows[x].profile))
    && (forall i :: 0 <= i < |list| ==> list[i] in rows)
    && Distinct(list) && Sorted(rows, list)
  }

  // ----- The job ----------------------------------------------------------------

  datatype Fault = NoFault | TransactionFails | Throws
  datatype ListFault = ListOk | ConnectionLost | OtherFailure
  datatype Verdict = Transitioned | Skipped | Error
  datatype Tally = Tally(checked: nat, transitioned: nat, skipped: nat, errors: nat)

  method SyncOne(store: Store, listed: Session, id: int, now: int, addYears: (int, int) -> int, fault: Fault)
    returns (v: Verdict)
    requires id in store.sessions && store.sessions[id] == listed && IsOpening(listed, listed.profile)
    modifies store`sessions
    ensures PromotedSome(old(store.sessions), store.sessions, {id})
    ensures v.Transitioned? <==> store.sessions[id] != listed
    ensures v.Transitioned? ==> IsDue(store.profiles, listed, now, addYears)
                                && !AnotherLive(old(store.sessions), listed.profile, id)
    ensures v.Error? <==> fault.Throws? && IsDue(store.profiles, listed, now, addYears)
    ensures fault.NoFault? && IsDue(store.profiles, listed, now, addYears) && StrictFirst(old(store.sessions), id) ==>
      (v.Transitioned? <==> !AnotherLive(old(store.sessions), listed.profile, id))
    ensures fault.NoFault? ==> forall rows :: id in rows && rows[id] == listed ==>
      MayFollow(store.profiles, rows, old(store.sessions), id, now, addYears, store.sessions)
  {
    ghost var rows := store.sessions;
    if !ProfileUsable(store.profiles, listed.profile) {
      return Skipped;
    }
    var profile := store.profiles[listed.profile];
    var expected := AddDuration(listed.startTime, profile.durationValue, profile.durationUnit, addYears);
    if expected.None? {
      return Skipped;
    }
    if now < expected.value {
      return Skipped;
    }
    if fault.Throws? {
      return Error;
    }
    if fault.TransactionFails? {
      return Skipped;
    }
    var r := StartLiveSession(store, id);
    assert Blocked(rows, listed.profile, id) <==> AnotherLive(rows, listed.profile, id);
    ghost var order :| r == OutcomeOf(store.profiles, rows, id, order) && IsCandidateList(rows, listed.profile, order);
    if StrictFirst(rows, id) {
      assert id in order;
      assert order[0] == id;
    }
    v := if r.Promoted? then Transitioned else Skipped;
  }

  method SyncOpeningSessionsToLive(
    store: Store, now: int, addYears: (int, int) -> int, listing: ListFault, fault: int -> Fault)
    returns (r: Option<Tally>)
    modifies store`sessions
    ensures PromotedSome(old(store.sessions), store.sessions, if listing.ListOk? then old(store.sessions).Keys else {})
    ensures NewLiveAlone(old(store.sessions), store.sessions)
    ensures r.None? <==> listing.OtherFailure?
    ensures listing.ConnectionLost? ==> r == Some(Tally(0, 0, 0, 1))
    ensures listing.ListOk? ==>
      && r.value.checked == |set x | x in old(store.sessions)
                                     && IsOpening(old(store.sessions)[x], old(store.sessions)[x].profile)|
      && r.value.errors == |set x | x in old(store.sessions)
                                    && IsOpening(old(store.sessions)[x], old(store.sessions)[x].profile)
                                    && Fails(store.profiles, old(store.sessions), x, now, addYears, fault)|
    ensures r.Some? ==>
      (r.value.checked == r.value.transitioned + r.value.skipped + r.value.errors <==> listing.ListOk?)
    ensures r.Some? && listing.ListOk? ==>
      r.value.transitioned == |Changed(old(store.sessions), store.sessions)|
    ensures listing.ListOk? && (forall id :: fault(id).NoFault?) ==>
      exists list ::
        && IsListing(old(store.sessions), list)
        && MayLeave(store.profiles, old(store.sessions), list, now, addYears, store.sessions)
    ensures listing.ListOk? ==>
      forall f :: StrictFirst(old(store.sessions), f) && fault(f).NoFault?
                  && IsDue(store.profiles, old(store.sessions)[f], now, addYears) ==>
        Settled(old(store.sessions), store.sessions, f)
    ensures listing.ListOk? && MonotoneYears(addYears) ==>
      forall d, f :: DueBehind(store.profiles, old(store.sessions), d, f, now, addYears) && fault(f).NoFault? ==>
        Settled(old(store.sessions), store.sessions, f)
  {
    if listing.ConnectionLost? {
      return Some(Tally(0, 0, 0, 1));
    }
    if listing.OtherFailure? {
      return None;
    }
    var rows := store.sessions;
    var list := OrderByStart(rows, set x | x in rows && IsOpening(rows[x], rows[x].profile));
    assert IsListing(rows, list);
    var tally := SyncListed(store, rows, list, now, addYears, fault);
    r := Some(tally);
    DistinctSize(list);
    ListedAll(rows, list);
    assert Failing(store.profiles, rows, list, now, addYears, fault)
        == set x | x in rows && IsOpening(rows[x], rows[x].profile)
                    && Fails(store.profiles, rows, x, now, addYears, fault);
    forall f | StrictFirst(rows, f) && fault(f).NoFault? && IsDue(store.profiles, rows[f], now, addYears)
      ensures Settled(rows, store.sessions, f)
    {
      assert f in list;
    }
    if MonotoneYears(addYears) {
      forall d, f | DueBehind(store.profiles, rows, d, f, now, addYears) && fault(f).NoFault?
        ensures Settled(rows, store.sessions, f)
      {
        EarlierIsDue(store.profiles, rows[f], rows[d], now, addYears);
      }
    }
  }

  ghost function Ids(list: seq<int>): set<int> { set x | x in list }

  lemma ListedAll(rows: map<int, Session>, list: seq<int>)
    requires IsListing(rows, list)
    ensures Ids(list) == set x | x in rows && IsOpening(rows[x], rows[x].profile)
  {
    forall x ensures x in Ids(list) <==> x in rows && IsOpening(rows[x], rows[x].profile) {
      assert x in list <==> x in rows && IsOpening(rows[x], rows[x].profile);
    }
  }

  /** The session is due and the call for it throws. */
  ghost predicate Fails(
    profiles: map<int, Profile>, rows: map<int, Session>, id: int, now: int, addYears: (int, int) -> int,
    fault: int -> Fault)
  {
    id in rows && fault(id).Throws? && IsDue(profiles, rows[id], now, addYears)
  }

  ghost function Failing(
    profiles: map<int, Profile>, rows: map<int, Session>, list: seq<int>, now: int, addYears: (int, int) -> int,
    fault: int -> Fault): set<int>
  {
    set x | x in list && Fails(profiles, rows, x, now, addYears, fault)
  }

  lemma FailingGrows(
    profiles: map<int, Profile>, rows: map<int, Session>, list: seq<int>, i: nat, now: int,
    addYears: (int, int) -> int, fault: int -> Fault)
    requires i < |list| && Distinct(list)
    ensures |Failing(profiles, rows, list[..i + 1], now, addYears, fault)|
         == |Failing(profiles, rows, list[..i], now, addYears, fault)|
            + (if Fails(profiles, rows, list[i], now, addYears, fault) then 1 else 0)
  {
    var was := Failing(profiles, rows, list[..i], now, addYears, fault);
    assert list[..i + 1] == list[..i] + [list[i]] && list[i] !in list[..i];
    assert Failing(profiles, rows, list[..i + 1], now, addYears, fault)
        == if Fails(profiles, rows, list[i], now, addYears, fault) then was + {list[i]} else was;
  }

  lemma {:induction false} DistinctSize(list: seq<int>)
    requires Distinct(list)
    ensures |Ids(list)| == |list|
    decreases |list|
  {
    if list != [] {
      var n := |list| - 1;
      DistinctSize(list[..n]);
      assert Ids(list) == Ids(list[..n]) + {list[n]};
    }
  }

  /** Every due session up to `i` that was strictly first in its profile, and met
      no fault, is settled. */
  ghost predicate Served(
    profiles: map<int, Profile>, r0: map<int, Session>, r: map<int, Session>, list: seq<int>, i: nat,
    now: int, addYears: (int, int) -> int, fault: int -> Fault)
    requires i <= |list| && forall j :: 0 <= j < |list| ==> list[j] in r0
  {
    forall j :: 0 <= j < i && StrictFirst(r0, list[j]) && fault(list[j]).NoFault?
                && IsDue(profiles, r0[list[j]], now, addYears) ==>
      Settled(r0, r, list[j])
  }

  ghost function Changed(r0: map<int, Session>, r: map<int, Session>): set<int> {
    set x | x in r0 && x in r && r[x] != r0[x]
  }

  /** What holds when the first `i` listed sessions have been worked through. */
  ghost predicate PassedUpTo(
    profiles: map<int, Profile>, rows: map<int, Session>, r: map<int, Session>, list: seq<int>, i: nat,
    now: int, addYears: (int, int) -> int, fault: int -> Fault)
    requires i <= |list| && forall j :: 0 <= j < |list| ==> list[j] in rows
  {
    && PromotedSome(rows, r, Ids(list[..i])) && NewLiveAlone(rows, r)
    && Served(profiles, rows, r, list, i, now, addYears, fault)
    && ((forall id :: fault(id).NoFault?) ==> MayLeave(profiles, rows, list[..i], now, addYears, r))
  }

  /** What one more session does, as `SyncOne` promises it. */
  ghost predicate Passed(
    profiles: map<int, Profile>, rows: map<int, Session>, r: map<int, Session>, r': map<int, Session>, id: int,
    now: int, addYears: (int, int) -> int, fault: Fault)
    requires id in rows
  {
    && PromotedSome(r, r', {id}) && id in r && r[id] == rows[id]
    && (r'[id] != r[id] ==> !AnotherLive(r, rows[id].profile, id))
    && (fault.NoFault? && IsDue(profiles, rows[id], now, addYears) && StrictFirst(r, id) ==>
          Settled(rows, r', id))
    && (fault.NoFault? ==> MayFollow(profiles, rows, r, id, now, addYears, r'))
  }

  lemma PassedOneMore(
    profiles: map<int, Profile>, rows: map<int, Session>, r: map<int, Session>, r': map<int, Session>, list: seq<int>,
    i: nat, now: int, addYears: (int, int) -> int, fault: int -> Fault)
    requires i < |list| && forall j :: 0 <= j < |list| ==> list[j] in rows
    requires IsOpening(rows[list[i]], rows[list[i]].profile)
    requires PassedUpTo(profiles, rows, r, list, i, now, addYears, fault)
    requires Passed(profiles, rows, r, r', list[i], now, addYears, fault(list[i]))
    ensures PassedUpTo(profiles, rows, r', list, i + 1, now, addYears, fault)
    ensures |Changed(rows, r')| == |Changed(rows, r)| + (if r'[list[i]] != rows[list[i]] then 1 else 0)
  {
    OneMore(rows, r, r', list, i);
    OneMoreServed(profiles, rows, r, r', list, i, now, addYears, fault);
    if forall x :: fault(x).NoFault? {
      OneMoreLeft(profiles, rows, list, i, now, addYears, r, r');
    }
  }

  lemma OneMoreServed(
    profiles: map<int, Profile>, rows: map<int, Session>, r: map<int, Session>, r': map<int, Session>, list: seq<int>,
    i: nat, now: int, addYears: (int, int) -> int, fault: int -> Fault)
    requires i < |list| && forall j :: 0 <= j < |list| ==> list[j] in rows
    requires PromotedSome(rows, r, Ids(list[..i])) && Served(profiles, rows, r, list, i, now, addYears, fault)
    requires Passed(profiles, rows, r, r', list[i], now, addYears, fault(list[i]))
    ensures Served(profiles, rows, r', list, i + 1, now, addYears, fault)
  {
    forall f | Settled(rows, r, f) ensures Settled(rows, r', f) {
      SettledStays(rows, r, r', list[i], f);
    }
    StillFirst(rows, r, list[i], Ids(list[..i]));
  }

  method SyncListed(
    store: Store, rows: map<int, Session>, list: seq<int>, now: int, addYears: (int, int) -> int, fault: int -> Fault)
    returns (t: Tally)
    requires store.sessions == rows && Distinct(list)
    requires forall i :: 0 <= i < |list| ==> list[i] in rows && IsOpening(rows[list[i]], rows[list[i]].profile)
    modifies store`sessions
    ensures PromotedSome(rows, store.sessions, Ids(list))
    ensures NewLiveAlone(rows, store.sessions)
    ensures t.checked == |list| == t.transitioned + t.skipped + t.errors
    ensures t.transitioned == |Changed(rows, store.sessions)|
    ensures t.errors == |Failing(store.profiles, rows, list, now, addYears, fault)|
    ensures Served(store.profiles, rows, store.sessions, list, |list|, now, addYears, fault)
    ensures (forall id :: fault(id).NoFault?) ==> MayLeave(store.profiles, rows, list, now, addYears, store.sessions)
  {
    var transitioned, skipped, errors := 0, 0, 0;
    for i := 0 to |list|
      invariant transitioned >= 0 && skipped >= 0 && errors >= 0
      invariant i == transitioned + skipped + errors
      invariant transitioned == |Changed(rows, store.sessions)|
      invariant errors == |Failing(store.profiles, rows, list[..i], now, addYears, fault)|
      invariant PassedUpTo(store.profiles, rows, store.sessions, list, i, now, addYears, fault)
    {
      var id := list[i];
      ghost var before := store.sessions;
      NotYetTouched(rows, before, list, i);
      var v := SyncOne(store, rows[id], id, now, addYears, fault(id));
      PassedOneMore(store.profiles, rows, before, store.sessions, list, i, now, addYears, fault);
      FailingGrows(store.profiles, rows, list, i, now, addYears, fault);
      match v {
        case Transitioned => transitioned := transitioned + 1;
        case Skipped => skipped := skipped + 1;
        case Error => errors := errors + 1;
      }
    }
    assert list[..|list|] == list;
    t := Tally(|list|, transitioned, skipped, errors);
  }

  lemma OneMoreLeft(
    profiles: map<int, Profile>, rows: map<int, Session>, list: seq<int>, i: nat, now: int,
    addYears: (int, int) -> int, mid: map<int, Session>, after: map<int, Session>)
    requires i < |list| && MayLeave(profiles, rows, list[..i], now, addYears, mid)
    requires MayFollow(profiles, rows, mid, list[i], now, addYears, after)
    ensures MayLeave(profiles, rows, list[..i + 1], now, addYears, after)
  {
    assert list[..i + 1][..i] == list[..i];
  }

  lemma OneMore(r0: map<int, Session>, r: map<int, Session>, r': map<int, Session>, list: seq<int>, i: nat)
    requires i < |list| && list[i] in r0 && IsOpening(r0[list[i]], r0[list[i]].profile)
    requires PromotedSome(r0, r, Ids(list[..i])) && PromotedSome(r, r', {list[i]}) && NewLiveAlone(r0, r)
    requires r[list[i]] == r0[list[i]]
    requires r'[list[i]] != r[list[i]] ==> !AnotherLive(r, r0[list[i]].profile, list[i])
    ensures PromotedSome(r0, r', Ids(list[..i + 1])) && NewLiveAlone(r0, r')
    ensures |Changed(r0, r')| == |Changed(r0, r)| + (if r'[list[i]] != r0[list[i]] then 1 else 0)
  {
    var id := list[i];
    assert list[..i + 1] == list[..i] + [id];
    assert forall x :: x in r && x != id ==> r'[x] == r[x];
    OneMoreChanged(r0, r, r', id);
    OneMoreAlone(r0, r, r', id);
  }

  lemma OneMoreChanged(r0: map<int, Session>, r: map<int, Session>, r': map<int, Session>, id: int)
    requires r0.Keys == r.Keys == r'.Keys && id in r0 && r[id] == r0[id]
    requires forall x :: x in r && x != id ==> r'[x] == r[x]
    ensures |Changed(r0, r')| == |Changed(r0, r)| + (if r'[id] != r0[id] then 1 else 0)
  {
    var was, now := Changed(r0, r), Changed(r0, r');
    forall x ensures x in now <==> x in was || (x == id && r'[id] != r0[id]) {
      if x in r0 && x != id {
        assert r'[x] == r[x];
      }
    }
    assert id !in was;
    assert now == if r'[id] != r0[id] then was + {id} else was;
  }

  lemma OneMoreAlone(r0: map<int, Session>, r: map<int, Session>, r': map<int, Session>, id: int)
    requires r0.Keys == r.Keys && PromotedSome(r, r', {id}) && NewLiveAlone(r0, r) && id in r0 && r[id] == r0[id]
    requires r'[id] != r[id] ==> !AnotherLive(r, r0[id].profile, id)
    requires forall x :: x in r && r[x] != r0[x] ==> r[x].status.kind == Live && !r[x].isDeleted
    ensures NewLiveAlone(r0, r')
  {
    forall x | x in r' && x in r0 && r'[x] != r0[x] && !r'[x].forceStop
      ensures !AnotherLive(r', r'[x].profile, x)
    {
      forall y | y in r' && y != x && r'[y].profile == r'[x].profile && r'[y].status.kind == Live
        ensures r'[y].isDeleted || r'[y].forceStop
      {
        assert x != id ==> r'[x] == r[x];
        assert y != id ==> r'[y] == r[y];
      }
    }
  }

  lemma NotYetTouched(r0: map<int, Session>, r: map<int, Session>, list: seq<int>, i: nat)
    requires i < |list| && Distinct(list) && PromotedSome(r0, r, Ids(list[..i])) && list[i] in r0
    ensures r[list[i]] == r0[list[i]]
  {
    var id, done := list[i], Ids(list[..i]);
    assert id !in done;
    UntouchedStays(r0, r, done, id);
  }

  lemma UntouchedStays(r0: map<int, Session>, r: map<int, Session>, done: set<int>, id: int)
    requires PromotedSome(r0, r, done) && id in r0 && id !in done
    ensures r[id] == r0[id]
  {
  }

  lemma StillFirst(r0: map<int, Session>, r: map<int, Session>, id: int, done: set<int>)
    requires PromotedSome(r0, r, done) && id in r0 && r[id] == r0[id]
    ensures StrictFirst(r0, id) ==> StrictFirst(r, id)
  {
  }

  lemma SettledStays(r0: map<int, Session>, r: map<int, Session>, r': map<int, Session>, id: int, f: int)
    requires Settled(r0, r, f) && PromotedSome(r, r', {id})
    ensures Settled(r0, r', f)
  {
    if AnotherLive(r, r0[f].profile, f) {
      var y :| y in r && y != f && r[y].profile == r0[f].profile && r[y].status.kind == Live
               && !r[y].isDeleted && !r[y].forceStop;
      assert r'[y] == r[y];
    }
  }

  lemma EarlierIsDue(profiles: map<int, Profile>, a: Session, b: Session, now: int, addYears: (int, int) -> int)
    requires a.profile == b.profile && MonotoneYears(addYears) && IsDue(profiles, b, now, addYears)
    requires a == b || KeyLess(KeyOf(a), KeyOf(b))
    ensures IsDue(profiles, a, now, addYears)
  {
    if a.startTime.Some? {
      var p := profiles[b.profile];
      EndIsMonotone(a.startTime.value, b.startTime.value, p.durationValue, p.durationUnit, addYears);
    }
  }

  // ----- Ties -----------------------------------------------------------------------

  /** Unless a session is strictly first, some legal order of the locked rows puts
      another one first. */
  lemma RefusingOrder(profiles: map<int, Profile>, rows: map<int, Session>, profile: int, x: int)
    returns (order: seq<int>)
    requires x in rows && IsOpening(rows[x], profile) && !StrictFirst(rows, x)
    ensures IsCandidateList(rows, profile, order) && OutcomeOf(profiles, rows, x, order) == Refused
  {
    order := ListWithFront(rows, profile, []);
    assert x in order;
    if order[0] == x {
      var y :| y in rows && y != x && IsOpening(rows[y], profile) && !KeyLess(KeyOf(rows[x]), KeyOf(rows[y]));
      forall z | z in rows && IsOpening(rows[z], profile) ensures !KeyLess(KeyOf(rows[z]), KeyOf(rows[y])) {
        assert z in order;
        var i :| 0 <= i < |order| && order[i] == z;
        assert i > 0 ==> !KeyLess(KeyOf(rows[order[i]]), KeyOf(rows[order[0]]));
      }
      order := ListWithFront(rows, profile, [y]);
      assert [y] <= order && order[0] == y;
    }
  }

  lemma StrictLeads(rows: map<int, Session>, profile: int, order: seq<int>, f: int)
    requires IsCandidateList(rows, profile, order) && StrictFirst(rows, f) && rows[f].profile == profile
    ensures |order| > 0 && order[0] == f
  {
    assert f in order;
    forall k | 0 < k < |order| ensures order[k] != f {
      assert !KeyLess(KeyOf(rows[order[k]]), KeyOf(rows[order[0]]));
    }
  }

  /** In a usable profile without an active LIVE session, some session is promoted
      whatever the order of the locked rows exactly when one is strictly first. */
  lemma PromotionIsSureIffStrict(profiles: map<int, Profile>, rows: map<int, Session>, profile: int)
    requires ProfileUsable(profiles, profile)
    requires forall x | x in rows && rows[x].profile == profile
                        && rows[x].status.kind == Live && !rows[x].isDeleted :: rows[x].forceStop
    ensures (exists f :: StrictFirst(rows, f) && rows[f].profile == profile)
       <==> (exists x :: x in rows && IsOpening(rows[x], profile) && AlwaysPromoted(profiles, rows, profile, x))
  {
    forall f | StrictFirst(rows, f) && rows[f].profile == profile ensures AlwaysPromoted(profiles, rows, profile, f) {
      forall order | IsCandidateList(rows, profile, order) ensures OutcomeOf(profiles, rows, f, order) == Promoted {
        StrictLeads(rows, profile, order, f);
      }
    }
    forall x | x in rows && IsOpening(rows[x], profile) && AlwaysPromoted(profiles, rows, profile, x)
      ensures StrictFirst(rows, x)
    {
      NotAlwaysPromoted(profiles, rows, profile, x);
    }
  }

  lemma NotAlwaysPromoted(profiles: map<int, Profile>, rows: map<int, Session>, profile: int, x: int)
    requires x in rows && IsOpening(rows[x], profile)
    ensures AlwaysPromoted(profiles, rows, profile, x) ==> StrictFirst(rows, x)
  {
    if !StrictFirst(rows, x) {
      var order := RefusingOrder(profiles, rows, profile, x);
    }
  }

  ghost predicate AlwaysPromoted(profiles: map<int, Profile>, rows: map<int, Session>, profile: int, x: int) {
    forall order :: IsCandidateList(rows, profile, order) ==> OutcomeOf(profiles, rows, x, order) == Promoted
  }

  ghost predicate SameInProfile(a: map<int, Session>, b: map<int, Session>, profile: int) {
    && a.Keys == b.Keys
    && forall x :: x in a ==> b[x].profile == a[x].profile && (a[x].profile == profile ==> b[x] == a[x])
  }

  /** A profile whose first OPENING rows tie may be passed over entirely: among the
      rows the job may leave without a fault are some in which none of its sessions
      has changed. */
  lemma {:induction false} TiesCanStarve(
    profiles: map<int, Profile>, rows: map<int, Session>, list: seq<int>, now: int, addYears: (int, int) -> int,
    profile: int)
    returns (after: map<int, Session>)
    requires forall i :: 0 <= i < |list| ==> list[i] in rows
    requires forall f :: StrictFirst(rows, f) ==> rows[f].profile != profile
    ensures MayLeave(profiles, rows, list, now, addYears, after) && SameInProfile(rows, after, profile)
    decreases |list|
  {
    if list == [] {
      after := rows;
    } else {
      var n := |list| - 1;
      var mid := TiesCanStarve(profiles, rows, list[..n], now, addYears, profile);
      after := PassOver(profiles, rows, mid, list[n], now, addYears, profile);
    }
  }

  lemma PassOver(
    profiles: map<int, Profile>, rows: map<int, Session>, mid: map<int, Session>, id: int, now: int,
    addYears: (int, int) -> int, profile: int)
    returns (after: map<int, Session>)
    requires id in rows && SameInProfile(rows, mid, profile)
    requires forall f :: StrictFirst(rows, f) ==> rows[f].profile != profile
    ensures MayFollow(profiles, rows, mid, id, now, addYears, after) && SameInProfile(rows, after, profile)
  {
    after := mid;
    if IsDue(profiles, rows[id], now, addYears) {
      NoneStrict(rows, mid, profile);
      var order := IdleOrder(profiles, mid, id, profile);
      after := After(mid, id, OutcomeOf(profiles, mid, id, order));
    }
  }

  /** An order of the locked rows under which nothing changes in the profile. */
  lemma IdleOrder(profiles: map<int, Profile>, rows: map<int, Session>, id: int, profile: int)
    returns (order: seq<int>)
    requires id in rows && forall f :: StrictFirst(rows, f) ==> rows[f].profile != profile
    ensures IsCandidateList(rows, rows[id].profile, order)
    ensures SameInProfile(rows, After(rows, id, OutcomeOf(profiles, rows, id, order)), profile)
  {
    if rows[id].profile == profile && IsOpening(rows[id], profile) {
      order := RefusingOrder(profiles, rows, profile, id);
    } else {
      order := ListWithFront(rows, rows[id].profile, []);
      ElsewhereOrClosed(profiles, rows, id, order, profile);
    }
  }

  lemma ElsewhereOrClosed(
    profiles: map<int, Profile>, rows: map<int, Session>, id: int, order: seq<int>, profile: int)
    requires id in rows && !(rows[id].profile == profile && IsOpening(rows[id], profile))
    requires IsCandidateList(rows, rows[id].profile, order)
    ensures SameInProfile(rows, After(rows, id, OutcomeOf(profiles, rows, id, order)), profile)
  {
    if rows[id].profile == profile {
      assert |order| > 0 ==> order[0] != id;
    }
  }

  lemma NoneStrict(a: map<int, Session>, b: map<int, Session>, profile: int)
    requires SameInProfile(a, b, profile) && forall f :: StrictFirst(a, f) ==> a[f].profile != profile
    ensures forall f :: StrictFirst(b, f) ==> b[f].profile != profile
  {
    forall f | StrictFirst(b, f) ensures b[f].profile != profile {
      StrictBack(a, b, profile, f);
    }
  }

  lemma StrictBack(a: map<int, Session>, b: map<int, Session>, profile: int, f: int)
    requires SameInProfile(a, b, profile)
    ensures StrictFirst(b, f) && b[f].profile == profile ==> StrictFirst(a, f)
  {
    if StrictFirst(b, f) && b[f].profile == profile {
      forall x | x in a && x != f && IsOpening(a[x], profile) ensures KeyLess(KeyOf(a[f]), KeyOf(a[x])) {
        assert b[x] == a[x];
      }
    }
  }
}
