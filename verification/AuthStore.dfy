/**
 The sign-in state of one portal tab: packages/portal/src/stores/auth.store.ts. Every stretch of code
 between two awaits is one method; a flight names the request that a locked operation then waits for.
 */
module AuthStore {
  import opened Results
  import opened SessionActivity

  datatype LoginResponse = LoginResponse(
    policy: Policy, accessToken: string, expiresIn: real, user: string, permissions: seq<string>, mustChange: bool)

  datatype RefreshResponse = RefreshResponse(
    policy: Policy, accessToken: string, expiresIn: real, permissions: seq<string>, mustChange: bool)

  // What `/auth/me` tells.
  datatype Me = Me(user: string, permissions: seq<string>, mustChange: bool)

  // The server's 401 carries a reason; any other failure is temporary.
  datatype RefreshAnswer = Renewed(response: RefreshResponse) | Unauthorized(idle: bool) | Failed

  datatype Operation = RefreshOp | CheckOp | LoginOp | LogoutOp | PasswordOp

  datatype Flight =
    | RefreshCall(sessionId: string)
    | LoginCall
    | PasswordCall
    | LogoutCall(op: Operation, unsaved: bool)

  // What a step of a locked operation does: wait for a request, or finish and release the lock.
  datatype Turn = Await(flight: Flight) | Release

  // refreshAt is None for never.
  datatype TabState = TabState(
    activeSessionId: Option<string>,
    refreshAt: Option<real>,
    endReason: Option<EndReason>,
    user: Option<string>,
    permissions: seq<string>,
    mustChange: bool,
    isAuthenticated: bool,
    accessToken: Option<string>,
    refreshing: bool,
    checking: bool)

  const FRESH := TabState(None, None, None, None, [], false, false, None, false, false)

  // A tab together with the storage it shares.
  datatype View = View(item: Item, tab: TabState)

  function Min(x: real, y: real): real { if x < y then x else y }

  function Max(x: real, y: real): real { if x < y then y else x }

  function RefreshTime(expiresIn: real, now: int): real {
    now as real + Max(1000.0, (expiresIn - Min(60.0, expiresIn / 2.0)) * 1000.0)
  }

  // ---- the state changes ------------------------------------------------------------------------------

  function Cleared(tab: TabState): TabState {
    FRESH.(endReason := tab.endReason, refreshing := tab.refreshing, checking := tab.checking)
  }

  function Ended(tab: TabState, reason: EndReason): TabState {
    Cleared(tab).(endReason := Some(reason))
  }

  function Revoked(v: View, reason: EndReason): View {
    View(Apply(v.item, Op.End(reason), 0), Ended(v.tab, reason))
  }

  function LoggedIn(v: View, r: LoginResponse, now: int): View {
    View(
      Apply(v.item, Op.Start(r.policy), now),
      v.tab.(activeSessionId := Some(r.policy.sessionId), refreshAt := Some(RefreshTime(r.expiresIn, now)),
      endReason := None, user := Some(r.user), permissions := r.permissions, mustChange := r.mustChange,
      isAuthenticated := true, accessToken := Some(r.accessToken)))
  }

  function Refreshed(tab: TabState, r: RefreshResponse, now: int): TabState {
    tab.(activeSessionId := Some(r.policy.sessionId), refreshAt := Some(RefreshTime(r.expiresIn, now)),
    endReason := None, permissions := r.permissions, mustChange := r.mustChange,
    isAuthenticated := true, accessToken := Some(r.accessToken))
  }

  // Which promise is settled when an operation finishes.
  function Settled(tab: TabState, op: Operation): TabState {
    match op
    case RefreshOp => tab.(refreshing := false)
    case CheckOp => tab.(checking := false)
    case _ => tab
  }

  // ---- the steps of the locked operations --------------------------------------------------------------

  function BeginRefresh(v: View, now: int): (View, Turn) {
    var session := Current(v.item);
    if session.None? then (v, Await(LogoutCall(RefreshOp, true)))
    else
      var reason := ExpiryReason(session, now);
      if reason.None? then (v, Await(RefreshCall(session.value.policy.sessionId)))
      else if session.value.endedReason.Some? then
        (View(v.item, Settled(Ended(v.tab, reason.value), RefreshOp)), Release)
      else (Revoked(v, reason.value), Await(LogoutCall(RefreshOp, false)))
  }

  function EndRefresh(v: View, answer: RefreshAnswer, now: int): (View, Turn) {
    match answer
    case Renewed(r) =>
      if IsLive(v.item, now) && v.item.value.policy.sessionId == r.policy.sessionId then
        (View(Apply(v.item, Op.UpdatePolicy(r.policy), now), Settled(Refreshed(v.tab, r, now), RefreshOp)), Release)
      else
        var reason := ExpiryReason(Current(v.item), now);
        (Revoked(v, if reason.Some? then reason.value else Expired), Await(LogoutCall(RefreshOp, false)))
    case Unauthorized(idle) =>
      var revoked := Revoked(v, if idle then Idle else Expired);
      (revoked.(tab := Settled(revoked.tab, RefreshOp)), Release)
    case Failed =>
      (v.(tab := Settled(v.tab.(refreshAt := Some((now + 5000) as real)), RefreshOp)), Release)
  }

  function EndLogoutCall(tab: TabState, op: Operation, unsaved: bool): TabState {
    Settled(if unsaved then Cleared(tab) else tab, op)
  }

  function BeginCheck(v: View, now: int): (View, Turn) {
    var session := Current(v.item);
    var reason := ExpiryReason(session, now);
    if reason.None? then (v.(tab := Settled(v.tab, CheckOp)), Release)
    else if session.Some? && session.value.endedReason.Some? then
      (v.(tab := Settled(Ended(v.tab, reason.value), CheckOp)), Release)
    else (Revoked(v, reason.value), Await(LogoutCall(CheckOp, false)))
  }

  function EndPasswordCall(v: View, ok: bool): View {
    if ok then View(Apply(v.item, Op.End(Logout), 0), Cleared(v.tab)) else v
  }

  /** `monitorSession`, unlocked: it only clears the tab or asks for a locked operation. */
  function Monitored(v: View, now: int): TabState {
    var session := Current(v.item);
    if !v.tab.isAuthenticated then v.tab
    else if ExpiryReason(session, now).Some? then v.tab.(checking := true)
    else if Some(session.value.policy.sessionId) != v.tab.activeSessionId then Cleared(v.tab).(refreshing := true)
    else if v.tab.refreshAt.Some? && now as real >= v.tab.refreshAt.value then v.tab.(refreshing := true)
    else v.tab
  }

  /** The end of `bootstrap` after a successful refresh. */
  function Bootstrapped(tab: TabState, me: Option<Me>): TabState {
    match me
    case None => Cleared(tab)
    case Some(m) => tab.(user := Some(m.user), permissions := m.permissions, mustChange := m.mustChange)
  }

  // ---- the store -----------------------------------------------------------------------------------------

  class Tab {
    const activity: Activity
    var activeSessionId: Option<string>
    var refreshAt: Option<real>
    var endReason: Option<EndReason>
    var user: Option<string>
    var permissions: seq<string>
    var mustChange: bool
    var isAuthenticated: bool
    var accessToken: Option<string>
    var refreshing: bool
    var checking: bool

    constructor (activity: Activity)
      ensures this.activity == activity && State() == FRESH
    {
      this.activity := activity;
      activeSessionId, refreshAt, endReason, user, permissions := None, None, None, None, [];
      mustChange, isAuthenticated, accessToken, refreshing, checking := false, false, None, false, false;
    }

    ghost function State(): TabState
      reads this
    {
      TabState(
        activeSessionId, refreshAt, endReason, user, permissions, mustChange, isAuthenticated, accessToken,
        refreshing, checking)
    }

    ghost function Seen(): View
      reads this, activity.storage
    {
      View(activity.storage.item, State())
    }

    method ScheduleRefresh(expiresIn: real, sessionId: string, now: int)
      modifies this
      ensures State() == old(State()).(activeSessionId := Some(sessionId), endReason := None,
                                   refreshAt := Some(RefreshTime(expiresIn, now)))
    {
      refreshAt := Some(now as real + Max(1000.0, (expiresIn - Min(60.0, expiresIn / 2.0)) * 1000.0));
      activeSessionId := Some(sessionId);
      endReason := None;
    }

    method ApplyLogin(response: LoginResponse, now: int)
      modifies this, activity.storage
      ensures Seen() == LoggedIn(old(Seen()), response, now)
    {
      activity.Start(response.policy, now);
      ScheduleRefresh(response.expiresIn, response.policy.sessionId, now);
      accessToken := Some(response.accessToken);
      user := Some(response.user);
      permissions := response.permissions;
      mustChange := response.mustChange;
      isAuthenticated := true;
    }

    method ApplyRefresh(response: RefreshResponse, now: int)
      modifies this
      ensures State() == Refreshed(old(State()), response, now)
    {
      ScheduleRefresh(response.expiresIn, response.policy.sessionId, now);
      accessToken := Some(response.accessToken);
      permissions := response.permissions;
      mustChange := response.mustChange;
      isAuthenticated := true;
    }

    method ClearState()
      modifies this
      ensures State() == Cleared(old(State()))
    {
      activeSessionId := None;
      refreshAt := None;
      accessToken := None;
      user := None;
      permissions := [];
      mustChange := false;
      isAuthenticated := false;
    }

    method ClearEndedSession(reason: EndReason)
      modifies this
      ensures State() == Ended(old(State()), reason)
    {
      endReason := Some(reason);
      ClearState();
    }

    // `revokeSession` up to its request.
    method RevokeSession(reason: EndReason)
      modifies this, activity.storage
      ensures Seen() == Revoked(old(Seen()), reason)
    {
      activity.End(reason);
      ClearEndedSession(reason);
    }

    // `checkSession` with the lock, up to its request.
    method CheckSession(now: int) returns (turn: Turn)
      modifies this, activity.storage
      ensures (Seen(), turn) == BeginCheck(old(Seen()), now)
    {
      var session := Current(activity.storage.item);
      var reason := ExpiryReason(session, now);
      if reason.None? {
        checking := false;
        return Release;
      }
      if session.Some? && session.value.endedReason.Some? {
        ClearEndedSession(reason.value);
        checking := false;
        return Release;
      }
      RevokeSession(reason.value);
      return Await(LogoutCall(CheckOp, false));
    }

    // `refreshSession` with the lock, up to its first request.
    method RefreshSession(now: int) returns (turn: Turn)
      modifies this, activity.storage
      ensures (Seen(), turn) == BeginRefresh(old(Seen()), now)
    {
      var session := Current(activity.storage.item);
      if session.None? {
        return Await(LogoutCall(RefreshOp, true));
      }
      var reason := ExpiryReason(session, now);
      if reason.Some? {
        if session.value.endedReason.Some? {
          ClearEndedSession(reason.value);
          refreshing := false;
          return Release;
        }
        RevokeSession(reason.value);
        return Await(LogoutCall(RefreshOp, false));
      }
      return Await(RefreshCall(session.value.policy.sessionId));
    }

    // `refreshSession` once the server has answered.
    method RefreshAnswered(answer: RefreshAnswer, now: int) returns (turn: Turn)
      modifies this, activity.storage
      ensures (Seen(), turn) == EndRefresh(old(Seen()), answer, now)
    {
      match answer {
        case Renewed(response) =>
          var updated := activity.UpdatePolicy(response.policy, now);
          if !updated {
            var reason := ExpiryReason(Current(activity.storage.item), now);
            RevokeSession(if reason.Some? then reason.value else Expired);
            return Await(LogoutCall(RefreshOp, false));
          }
          ApplyRefresh(response, now);
        case Unauthorized(idle) =>
          activity.End(if idle then Idle else Expired);
          ClearEndedSession(if idle then Idle else Expired);
        case Failed =>
          refreshAt := Some((now + 5000) as real);
      }
      refreshing := false;
      return Release;
    }

    method MonitorSession(now: int)
      modifies this
      ensures State() == Monitored(old(Seen()), now)
    {
      if !isAuthenticated {
        return;
      }
      var session := Current(activity.storage.item);
      if ExpiryReason(session, now).Some? {
        checking := true;
      } else if Some(session.value.policy.sessionId) != activeSessionId {
        ClearState();
        refreshing := true;
      } else if refreshAt.Some? && now as real >= refreshAt.value {
        refreshing := true;
      }
    }
  }
}
