/** Login sessions with sliding expiry whose refresh is written at most once an hour. */
module AuthSessions {
  /** Seconds. */
  const THROTTLE: int := 3600

  type SessionId = string
  type UserId = nat

  datatype Session = Session(user: UserId, lastActive: int, expires: int)

  datatype Verdict = Accepted(user: UserId) | Rejected

  /** The session table; `timeout` is the configured lifetime, constant over the run. */
  class SessionStore {
    var sessions: map<SessionId, Session>
    const timeout: int

    /** Expiry always trails the recorded activity by the timeout. */
    ghost predicate Valid()
      reads this
    {
      forall id :: id in sessions ==> sessions[id].expires == sessions[id].lastActive + timeout
    }

    constructor (t: int)
      ensures Valid() && sessions == map[] && timeout == t
    {
      sessions, timeout := map[], t;
    }

    method Create(id: SessionId, user: UserId, now: int)
      requires Valid()
      modifies this
      ensures Valid() && sessions == old(sessions)[id := Session(user, now, now + timeout)]
    {
      sessions := sessions[id := Session(user, now, now + timeout)];
    }

    /** The conditional update: nothing is written while the recorded activity is recent. */
    method Touch(id: SessionId, now: int)
      requires Valid()
      modifies this
      ensures Valid()
      ensures sessions == if id in old(sessions) && old(sessions)[id].lastActive < now - THROTTLE
                          then old(sessions)[id := Session(old(sessions)[id].user, now, now + timeout)]
                          else old(sessions)
    {
      if id in sessions && sessions[id].lastActive < now - THROTTLE {
        sessions := sessions[id := sessions[id].(lastActive := now, expires := now + timeout)];
      }
    }

    method Delete(id: SessionId)
      requires Valid()
      modifies this
      ensures Valid() && sessions == old(sessions) - {id}
    {
      sessions := sessions - {id};
    }

    method CleanupExpired(now: int) returns (count: nat)
      requires Valid()
      modifies this
      ensures Valid()
      ensures forall id :: id in sessions <==> id in old(sessions) && old(sessions)[id].expires >= now
      ensures forall id :: id in sessions ==> sessions[id] == old(sessions)[id]
      ensures count == |old(sessions)| - |sessions|
    {
      var expired := set id | id in sessions && sessions[id].expires < now;
      count := |expired|;
      KeysAfterDelete(sessions, expired);
      sessions := sessions - expired;
    }

    /** The decision of the middleware for a well-formed session id; `active` says whether the
        user exists and is active.  An accepted request touches the session. */
    method Dispatch(id: SessionId, active: bool, now: int) returns (v: Verdict)
      requires Valid()
      modifies this
      ensures Valid()
      ensures v == if id in old(sessions) && now <= old(sessions)[id].expires && active
                   then Accepted(old(sessions)[id].user) else Rejected
      ensures v.Rejected? ==> sessions == old(sessions)
      ensures v.Accepted? ==> sessions == Touched(old(sessions), id, now, timeout)
    {
      if id !in sessions || sessions[id].expires < now {
        return Rejected;
      }
      if !active {
        return Rejected;
      }
      v := Accepted(sessions[id].user);
      Touch(id, now);
    }
  }

  lemma KeysAfterDelete(sessions: map<SessionId, Session>, expired: set<SessionId>)
    requires expired <= sessions.Keys
    ensures |sessions - expired| == |sessions| - |expired|
  {
    assert (sessions - expired).Keys == sessions.Keys - expired;
  }

  function Touched(sessions: map<SessionId, Session>, id: SessionId, now: int, timeout: int): map<SessionId, Session>
    requires id in sessions
  {
    if sessions[id].lastActive < now - THROTTLE
    then sessions[id := Session(sessions[id].user, now, now + timeout)] else sessions
  }

  // ------------------------------------------------------------- one session

  /** What happens to one session: a request, or a cleanup of expired rows. */
  datatype Action = Request(active: bool, now: int) | Cleanup(now: int)

  ghost predicate InOrder(actions: seq<Action>, start: int) {
    && (forall i :: 0 <= i < |actions| ==> start <= actions[i].now)
    && (forall i, j :: 0 <= i < j < |actions| ==> actions[i].now <= actions[j].now)
  }

  /** The activity on record before action `k`, as if expired rows were never cleaned up. */
  function Recorded(actions: seq<Action>, k: nat, start: int, timeout: int): int
    requires k <= |actions|
    decreases k, 0
  {
    if k == 0 then start
    else
      var before := Recorded(actions, k - 1, start, timeout);
      if Admits(actions, k - 1, start, timeout) && before < actions[k - 1].now - THROTTLE
      then actions[k - 1].now else before
  }

  /** Action `i` is a request that finds the session alive. */
  predicate Admits(actions: seq<Action>, i: nat, start: int, timeout: int)
    requires i < |actions|
    decreases i, 1
  {
    actions[i].Request? && actions[i].active && actions[i].now <= Recorded(actions, i, start, timeout) + timeout
  }

  /** Time of the last accepted request before action `k`, or of the login. */
  function LastAccepted(actions: seq<Action>, k: nat, start: int, timeout: int): int
    requires k <= |actions|
  {
    if k == 0 then start
    else if Admits(actions, k - 1, start, timeout) then actions[k - 1].now
    else LastAccepted(actions, k - 1, start, timeout)
  }

  /** The record lags behind the last accepted request by at most an hour. */
  lemma {:induction false} RecordLags(actions: seq<Action>, k: nat, start: int, timeout: int)
    requires InOrder(actions, start) && k <= |actions|
    ensures Recorded(actions, k, start, timeout) <= LastAccepted(actions, k, start, timeout)
            <= Recorded(actions, k, start, timeout) + THROTTLE
    ensures forall i :: k <= i < |actions| ==> LastAccepted(actions, k, start, timeout) <= actions[i].now
  {
    if k > 0 {
      RecordLags(actions, k - 1, start, timeout);
    }
  }

  /** The gap since the last accepted request decides: up to the timeout less one hour a request
      is accepted, beyond the timeout it is rejected, however writes were throttled. */
  lemma GapDecides(actions: seq<Action>, i: nat, start: int, timeout: int)
    requires InOrder(actions, start) && i < |actions| && actions[i].Request? && actions[i].active
    ensures actions[i].now - LastAccepted(actions, i, start, timeout) <= timeout - THROTTLE
            ==> Admits(actions, i, start, timeout)
    ensures actions[i].now - LastAccepted(actions, i, start, timeout) > timeout
            ==> !Admits(actions, i, start, timeout)
  {
    RecordLags(actions, i, start, timeout);
  }

  lemma RecordedNext(actions: seq<Action>, k: nat, start: int, timeout: int)
    requires InOrder(actions, start) && k < |actions|
    ensures var before := Recorded(actions, k, start, timeout);
            && before <= actions[k].now
            && Admits(actions, k, start, timeout)
               == (actions[k].Request? && actions[k].active && actions[k].now <= before + timeout)
            && Recorded(actions, k + 1, start, timeout)
               == if Admits(actions, k, start, timeout) && before < actions[k].now - THROTTLE then actions[k].now
                  else before
  {
    RecordLags(actions, k, start, timeout);
  }

  /** A session is created and then meets requests and cleanups in order of time.  The verdicts
      are those of the record alone: cleaning up expired rows is never noticed. */
  method RunSession(id: SessionId, user: UserId, start: int, timeout: int, actions: seq<Action>)
    returns (verdicts: seq<Verdict>)
    requires InOrder(actions, start)
    ensures |verdicts| == |actions|
    ensures forall i :: 0 <= i < |actions| ==>
              verdicts[i] == if Admits(actions, i, start, timeout) then Accepted(user) else Rejected
  {
    var store := new SessionStore(timeout);
    store.Create(id, user, start);
    verdicts := [];
    for k := 0 to |actions|
      invariant store.Valid() && fresh(store) && store.timeout == timeout && |verdicts| == k
      invariant id in store.sessions ==>
                  && store.sessions[id].user == user
                  && store.sessions[id].lastActive == Recorded(actions, k, start, timeout)
      invariant id !in store.sessions ==>
                  k > 0 && actions[k - 1].now > Recorded(actions, k, start, timeout) + timeout
      invariant forall i :: 0 <= i < k ==>
                  verdicts[i] == if Admits(actions, i, start, timeout) then Accepted(user) else Rejected
    {
      hide Admits, Recorded;
      RecordedNext(actions, k, start, timeout);
      match actions[k]
      case Request(active, now) =>
        var v := store.Dispatch(id, active, now);
        verdicts := verdicts + [v];
      case Cleanup(now) =>
        var _ := store.CleanupExpired(now);
        verdicts := verdicts + [Rejected];
    }
  }
}
