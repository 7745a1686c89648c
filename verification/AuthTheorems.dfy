/** Safety of the shared sign-in over every interleaving of tabs. */
module AuthTheorems {
  import opened AuthRuns
  import opened AuthStore
  import opened Results
  import opened SessionActivity

  /** The stored session has this id and has neither ended nor expired. */
  predicate HasLive(w: World, id: string) {
    IsLive(w.item, w.now) && w.item.value.policy.sessionId == id
  }

  /** This step is a server's renewal that leaves its tab signed in to the session id. */
  predicate RefreshSignsIn(w: World, s: Step, id: string)
    requires Enabled(w, s)
  {
    && s.RefreshAnswers? && s.answer.Renewed?
    && Next(w, s).tabs[s.tab].isAuthenticated
    && Next(w, s).tabs[s.tab].activeSessionId == Some(id)
  }

  predicate LogsIn(s: Step, id: string) {
    s.LoginAnswers? && s.login.Some? && s.login.value.policy.sessionId == id
  }

  /**
   A renewal signs its tab in exactly when it is for the session that the request was sent for and that
   session is still live as the answer arrives; otherwise the tab is signed out and the session ended.
   */
  lemma RenewalOutcome(w: World, t: nat, r: RefreshResponse)
    requires Inv(w) && Enabled(w, RefreshAnswers(t, Renewed(r)))
    ensures var after := Next(w, RefreshAnswers(t, Renewed(r)));
      && w.item.value.policy.sessionId == w.lock.flight.sessionId
      && (after.tabs[t].isAuthenticated <==>
          IsLive(w.item, w.now) && r.policy.sessionId == w.lock.flight.sessionId)
      && (after.tabs[t].isAuthenticated ==>
          after.tabs[t].activeSessionId == Some(w.lock.flight.sessionId)
          && after.item == Some(w.item.value.(policy := r.policy)))
      && (!after.tabs[t].isAuthenticated ==>
          after.tabs[t].activeSessionId.None? && after.item.Some? && after.item.value.endedReason.Some?)
  {
    hide RefreshTime;
  }

  /**
   A refresh request leaves the tab exactly when the stored session is live, names it, and changes nothing
   else; for a stored session that is not live the tab is signed out and the session marked as ended.
   */
  lemma RefreshIsSentForLive(w: World, t: nat)
    requires Enabled(w, GrantRefresh(t))
    ensures var after := Next(w, GrantRefresh(t));
      && (after.lock.Held? && after.lock.flight.RefreshCall? <==> IsLive(w.item, w.now))
      && (IsLive(w.item, w.now) ==>
          after == w.(lock := Held(t, RefreshCall(w.item.value.policy.sessionId))))
      && (Current(w.item).Some? && !IsLive(w.item, w.now) ==>
          !after.tabs[t].isAuthenticated && after.tabs[t].activeSessionId.None?
          && after.item.Some? && after.item.value.endedReason.Some?)
  {
    var same := w.tabs[t := w.tabs[t]];
    assert same == w.tabs;
  }

  /**
   A refusal ends the session with the server's reason and signs the tab out; any other failure keeps
   the session and the sign-in, and asks again five seconds later.
   */
  lemma RefusalOutcome(w: World, t: nat, idle: bool)
    requires Inv(w) && Enabled(w, RefreshAnswers(t, Unauthorized(idle))) && Enabled(w, RefreshAnswers(t, Failed))
    ensures var refused := Next(w, RefreshAnswers(t, Unauthorized(idle)));
      var reason := if idle then Idle else Expired;
      && refused.item == Some(w.item.value.(endedReason := Some(reason)))
      && !refused.tabs[t].isAuthenticated && refused.tabs[t].endReason == Some(reason) && refused.lock.Free?
    ensures var failed := Next(w, RefreshAnswers(t, Failed));
      && failed.item == w.item && failed.lock.Free?
      && failed.tabs[t] == w.tabs[t].(refreshAt := Some((w.now + 5000) as real), refreshing := false)
  {}

  lemma RefreshNeedsLive(w: World, s: Step, id: string)
    requires Inv(w) && Enabled(w, s) && RefreshSignsIn(w, s, id)
    ensures HasLive(w, id)
  {
    hide RefreshTime, Inv;
    RenewalOutcome(w, s.tab, s.answer.response);
  }

  lemma StepKeepsDead(w: World, s: Step, id: string)
    requires Enabled(w, s) && !HasLive(w, id) && !LogsIn(s, id)
    ensures !HasLive(Next(w, s), id)
  {
    hide RefreshTime, Cleared, Settled, Monitored, Bootstrapped;
  }

  lemma {:induction false} DeadIsKept(worlds: seq<World>, steps: seq<Step>, m: nat, n: nat, id: string)
    requires IsRun(worlds, steps) && m <= n < |worlds| && !HasLive(worlds[m], id)
    requires forall k | m <= k < n :: !LogsIn(steps[k], id)
    ensures !HasLive(worlds[n], id)
  {
    hide HasLive, Next, Enabled, LogsIn;
    if m < n {
      DeadIsKept(worlds, steps, m, n - 1, id);
      StepKeepsDead(worlds[n - 1], steps[n - 1], id);
    }
  }

  /**
   Over every interleaving: once a session id is not live in the store - ended, expired or replaced - no
   later refresh of any tab signs in to it, unless the server issues that id again at a login.
   */
  lemma EndedSessionNeverReturns(worlds: seq<World>, steps: seq<Step>, m: nat, n: nat, id: string)
    requires IsRun(worlds, steps) && Initial(worlds[0])
    requires m <= n < |steps| && !HasLive(worlds[m], id) && forall k | m <= k < n :: !LogsIn(steps[k], id)
    ensures !RefreshSignsIn(worlds[n], steps[n], id)
  {
    hide Initial, Inv, HasLive, Next, LogsIn, RefreshSignsIn;
    InitialInv(worlds[0]);
    RunKeepsInv(worlds, steps, n);
    DeadIsKept(worlds, steps, m, n, id);
    if RefreshSignsIn(worlds[n], steps[n], id) {
      RefreshNeedsLive(worlds[n], steps[n], id);
    }
  }

  // ---- every signed-in tab has a session that the store held ------------------------------------------------

  predicate Stores(w: World, id: string) {
    w.item.Some? && w.item.value.policy.sessionId == id
  }

  lemma StepProvenance(w: World, s: Step, t: nat, id: string)
    requires Enabled(w, s) && t < |w.tabs| && |Next(w, s).tabs| == |w.tabs|
    requires Next(w, s).tabs[t].activeSessionId == Some(id)
    ensures w.tabs[t].activeSessionId == Some(id) || Stores(Next(w, s), id)
  {
    hide RefreshTime, Current, ExpiryReason, IsLive, BeginRefresh, BeginCheck, EndRefresh, Apply;
    match s {
      case GrantRefresh(u) => TurnsProvenance(Seen(w, u), Failed, w.now, id);
      case GrantCheck(u) => TurnsProvenance(Seen(w, u), Failed, w.now, id);
      case RefreshAnswers(u, answer) => TurnsProvenance(Seen(w, u), answer, w.now, id);
      case LoginAnswers(u, login) =>
        if login.Some? { LoginProvenance(Seen(w, u), login.value, w.now); }
      case _ =>
    }
  }

  predicate StoredOrKept(v: View, after: View, id: string) {
    after.tab.activeSessionId == Some(id) ==>
      || v.tab.activeSessionId == Some(id)
      || (after.item.Some? && after.item.value.policy.sessionId == id)
  }

  lemma TurnsProvenance(v: View, answer: RefreshAnswer, now: int, id: string)
    ensures StoredOrKept(v, BeginRefresh(v, now).0, id) && StoredOrKept(v, BeginCheck(v, now).0, id)
    ensures StoredOrKept(v, EndRefresh(v, answer, now).0, id)
  {
    hide RefreshTime;
  }

  lemma LoginProvenance(v: View, login: LoginResponse, now: int)
    ensures LoggedIn(v, login, now).item.Some?
    ensures LoggedIn(v, login, now).item.value.policy.sessionId == login.policy.sessionId
  {}

  /** No tab is ever signed in to a session that the store did not hold at that moment or before. */
  lemma {:induction false} SignedInWasStored(
    worlds: seq<World>, steps: seq<Step>, n: nat, t: nat, id: string) returns (k: nat)
    requires IsRun(worlds, steps) && n < |worlds| && Initial(worlds[0])
    requires t < |worlds[n].tabs| && worlds[n].tabs[t].activeSessionId == Some(id)
    ensures k <= n && Stores(worlds[k], id)
  {
    hide Next, Enabled, Stores;
    if n > 0 {
      assert |worlds[n].tabs| == |worlds[n - 1].tabs| by { StepKeepsTabs(worlds[n - 1], steps[n - 1]); }
      StepProvenance(worlds[n - 1], steps[n - 1], t, id);
      if Stores(worlds[n], id) {
        k := n;
      } else {
        k := SignedInWasStored(worlds, steps, n - 1, t, id);
      }
    }
  }

  lemma StepKeepsTabs(w: World, s: Step)
    requires Enabled(w, s)
    ensures |Next(w, s).tabs| == |w.tabs|
  {}

  // ---- stale tabs are caught --------------------------------------------------------------------------------

  /** A tab that its monitor leaves signed in is in the live stored session, or is about to check it. */
  lemma MonitorCatchesStaleTabs(w: World, t: nat)
    requires Inv(w) && t < |w.tabs|
    ensures var tab := Next(w, Monitor(t)).tabs[t];
      tab.isAuthenticated ==> tab.checking || HasLive(w, tab.activeSessionId.value)
    ensures Next(w, Monitor(t)).item == w.item
  {}

  /** A check that finds the session dead signs its tab out and marks a stored session as ended. */
  lemma CheckSignsOut(w: World, t: nat)
    requires Enabled(w, GrantCheck(t)) && !IsLive(w.item, w.now)
    ensures var after := Next(w, GrantCheck(t));
      && !after.tabs[t].isAuthenticated && after.tabs[t].activeSessionId.None? && after.tabs[t].endReason.Some?
      && (Current(w.item).Some? ==> after.item.Some? && after.item.value.endedReason.Some?)
  {}

  /**
   `scheduleRefresh` fires before the access token runs out exactly for lifetimes above one second; from two
   seconds on the margin is a minute, or half the lifetime if that is shorter.
   */
  lemma RefreshIsDueInTime(expiresIn: real, now: int)
    ensures RefreshTime(expiresIn, now) < now as real + expiresIn * 1000.0 <==> expiresIn > 1.0
    ensures var margin := if expiresIn <= 120.0 then expiresIn / 2.0 else 60.0;
      expiresIn >= 2.0 ==> RefreshTime(expiresIn, now) == now as real + expiresIn * 1000.0 - margin * 1000.0
  {
    var margin := Min(60.0, expiresIn / 2.0);
    assert (expiresIn - margin) * 1000.0 == expiresIn * 1000.0 - margin * 1000.0;
  }

  // ---- every step, in full -------------------------------------------------------------------------------------

  // Nothing of a session is left in the tab.
  predicate IsSignedOut(tab: TabState) {
    && tab.activeSessionId.None? && tab.accessToken.None? && !tab.isAuthenticated
    && tab.user.None? && tab.permissions == [] && !tab.mustChange && tab.refreshAt.None?
  }

  predicate IsDue(tab: TabState, now: int) {
    tab.refreshAt.Some? && tab.refreshAt.value <= now as real
  }

  // Only this tab, and nothing of what the tabs share, differs.
  predicate OnlyTabChanges(w: World, after: World, t: nat) {
    && after.now == w.now && after.item == w.item && after.lock == w.lock && |after.tabs| == |w.tabs|
    && forall u | 0 <= u < |w.tabs| && u != t :: after.tabs[u] == w.tabs[u]
  }

  /**
   What the monitor does: nothing to a signed-out tab; to a tab in the live stored session, no more than ask for
   a refresh that is due; to a tab of another session, sign it out and ask for a refresh; and when the stored
   session is not live, ask for a check.
   */
  lemma MonitorMeaning(w: World, t: nat)
    requires Inv(w) && t < |w.tabs|
    ensures OnlyTabChanges(w, Next(w, Monitor(t)), t)
    ensures var tab := w.tabs[t];
      var after := Next(w, Monitor(t)).tabs[t];
      && (!tab.isAuthenticated ==> after == tab)
      && (tab.isAuthenticated && !IsLive(w.item, w.now) ==> after == tab.(checking := true))
      && (tab.isAuthenticated && HasLive(w, tab.activeSessionId.value) ==>
          after == tab.(refreshing := tab.refreshing || IsDue(tab, w.now)))
      && (tab.isAuthenticated && IsLive(w.item, w.now) && !HasLive(w, tab.activeSessionId.value) ==>
          IsSignedOut(after) && after.refreshing
          && after.checking == tab.checking && after.endReason == tab.endReason)
  {}

  /** A granted check of a live session - another tab had input meanwhile - only ends the check. */
  lemma CheckKeepsLive(w: World, t: nat)
    requires Enabled(w, GrantCheck(t)) && IsLive(w.item, w.now)
    ensures Next(w, GrantCheck(t)) == w.(tabs := w.tabs[t := w.tabs[t].(checking := false)])
  {}

  /** After a login the tab holds what the server sent, and the store a new session, active now. */
  lemma LoginHolds(w: World, t: nat, r: LoginResponse)
    requires Enabled(w, LoginAnswers(t, Some(r)))
    ensures var after := Next(w, LoginAnswers(t, Some(r)));
      var tab := after.tabs[t];
      && after.lock.Free? && after.now == w.now
      && after.item.Some? && after.item.value.policy == r.policy
      && after.item.value.lastActivityAt == Some(w.now) && after.item.value.endedReason.None?
      && tab.isAuthenticated && tab.activeSessionId == Some(r.policy.sessionId)
      && tab.user == Some(r.user) && tab.accessToken == Some(r.accessToken)
      && tab.permissions == r.permissions && tab.mustChange == r.mustChange
      && tab.endReason.None? && tab.refreshAt == Some(RefreshTime(r.expiresIn, w.now))
      && tab.refreshing == w.tabs[t].refreshing && tab.checking == w.tabs[t].checking
    ensures Next(w, LoginAnswers(t, None)) == w.(lock := Free)
  {}

  /** After a renewal that signs in, the tab holds what the server sent; its user stays. */
  lemma RenewalHolds(w: World, t: nat, r: RefreshResponse)
    requires Inv(w) && Enabled(w, RefreshAnswers(t, Renewed(r)))
    requires Next(w, RefreshAnswers(t, Renewed(r))).tabs[t].isAuthenticated
    ensures var after := Next(w, RefreshAnswers(t, Renewed(r)));
      var tab := after.tabs[t];
      && after.lock.Free? && tab.activeSessionId == Some(r.policy.sessionId)
      && tab.accessToken == Some(r.accessToken) && tab.permissions == r.permissions
      && tab.mustChange == r.mustChange && tab.user == w.tabs[t].user
      && tab.endReason.None? && tab.refreshAt == Some(RefreshTime(r.expiresIn, w.now))
      && !tab.refreshing && tab.checking == w.tabs[t].checking
  {}

  /** A logout ends the stored session and signs the tab out before its request; the lock is held for that. */
  lemma LogoutHolds(w: World, t: nat)
    requires Enabled(w, GrantLogout(t))
    ensures var after := Next(w, GrantLogout(t));
      && IsSignedOut(after.tabs[t]) && after.tabs[t].endReason == Some(Logout)
      && after.lock == Held(t, LogoutCall(LogoutOp, false))
      && (Current(w.item).Some? ==> after.item == Some(w.item.value.(endedReason := Some(Logout))))
      && (Current(w.item).None? ==> after.item == w.item)
  {}

  /** A changed password ends the stored session and signs the tab out; a refused change does nothing. */
  lemma PasswordHolds(w: World, t: nat)
    requires Enabled(w, PasswordAnswers(t, true))
    ensures var after := Next(w, PasswordAnswers(t, true));
      && IsSignedOut(after.tabs[t]) && after.tabs[t].endReason == w.tabs[t].endReason && after.lock.Free?
      && (Current(w.item).Some? ==> after.item == Some(w.item.value.(endedReason := Some(Logout))))
      && (Current(w.item).None? ==> after.item == w.item)
    ensures Next(w, PasswordAnswers(t, false)) == w.(tabs := w.tabs[t := w.tabs[t]], lock := Free)
  {}

  /** The end of a logout request frees the lock and settles its operation; without a stored session it signs out. */
  lemma LogoutRequestHolds(w: World, t: nat)
    requires Enabled(w, LogoutAnswers(t))
    ensures var after := Next(w, LogoutAnswers(t));
      var flight := w.lock.flight;
      && after.lock.Free? && after.item == w.item
      && after.tabs[t].refreshing == (w.tabs[t].refreshing && flight.op != RefreshOp)
      && after.tabs[t].checking == (w.tabs[t].checking && flight.op != CheckOp)
      && after.tabs[t].endReason == w.tabs[t].endReason
      && (flight.unsaved ==> IsSignedOut(after.tabs[t]))
      && (!flight.unsaved ==> after.tabs[t].activeSessionId == w.tabs[t].activeSessionId
                              && after.tabs[t].isAuthenticated == w.tabs[t].isAuthenticated
                              && after.tabs[t].user == w.tabs[t].user)
  {}

  /** Input moves the last activity of a live stored session to now if the tab is signed in, and nothing else ever. */
  lemma InputMeaning(w: World, t: nat)
    requires Enabled(w, Input(t))
    ensures Next(w, Input(t)) ==
            if w.tabs[t].isAuthenticated && IsLive(w.item, w.now)
            then w.(item := Some(w.item.value.(lastActivityAt := Some(w.now)))) else w
  {}

  /** What `/auth/me` tells replaces user and permissions and nothing else; its failure signs the tab out. */
  lemma BootstrapMeaning(w: World, t: nat, me: Me)
    requires Enabled(w, BootstrapEnds(t, Some(me)))
    ensures OnlyTabChanges(w, Next(w, BootstrapEnds(t, Some(me))), t)
    ensures Next(w, BootstrapEnds(t, Some(me))).tabs[t]
         == w.tabs[t].(user := Some(me.user), permissions := me.permissions, mustChange := me.mustChange)
    ensures OnlyTabChanges(w, Next(w, BootstrapEnds(t, None)), t)
    ensures IsSignedOut(Next(w, BootstrapEnds(t, None)).tabs[t])
  {}

  /** A refresh that must not be sent: with no usable session it asks the server to forget the cookie first. */
  lemma RefreshRefused(w: World, t: nat)
    requires Enabled(w, GrantRefresh(t)) && !IsLive(w.item, w.now)
    ensures var after := Next(w, GrantRefresh(t));
      && (Current(w.item).None? ==>
          after == w.(tabs := w.tabs[t := w.tabs[t]], lock := Held(t, LogoutCall(RefreshOp, true))))
      && (Current(w.item).Some? ==>
          var ended := w.item.value.endedReason;
          var reason := ExpiryReason(Current(w.item), w.now).value;
          && IsSignedOut(after.tabs[t]) && after.tabs[t].endReason == Some(reason)
          && after.item == Some(w.item.value.(endedReason := Some(reason)))
          && after.lock == (if ended.Some? then Free else Held(t, LogoutCall(RefreshOp, false)))
          && after.tabs[t].refreshing == ended.None?)
  {}

  /** A check of a session that is not live: the reason is passed on, and the server told if it was not yet. */
  lemma CheckOutcome(w: World, t: nat)
    requires Enabled(w, GrantCheck(t)) && !IsLive(w.item, w.now)
    ensures var after := Next(w, GrantCheck(t));
      var reason := ExpiryReason(Current(w.item), w.now).value;
      var known := Current(w.item).Some? && w.item.value.endedReason.Some?;
      && IsSignedOut(after.tabs[t]) && after.tabs[t].endReason == Some(reason)
      && after.item == (if Current(w.item).Some? then Some(w.item.value.(endedReason := Some(reason))) else w.item)
      && after.lock == (if known then Free else Held(t, LogoutCall(CheckOp, false)))
      && after.tabs[t].checking == (w.tabs[t].checking && !known)
  {}

  /** A renewal that cannot be used ends the session with its expiry reason, or as expired, and tells the server. */
  lemma RenewalRefused(w: World, t: nat, r: RefreshResponse)
    requires Inv(w) && Enabled(w, RefreshAnswers(t, Renewed(r)))
    requires !Next(w, RefreshAnswers(t, Renewed(r))).tabs[t].isAuthenticated
    ensures var after := Next(w, RefreshAnswers(t, Renewed(r)));
      var expiry := ExpiryReason(Current(w.item), w.now);
      var reason := if expiry.Some? then expiry.value else Expired;
      && IsSignedOut(after.tabs[t]) && after.tabs[t].endReason == Some(reason)
      && after.item == Some(w.item.value.(endedReason := Some(reason)))
      && after.lock == Held(t, LogoutCall(RefreshOp, false)) && after.tabs[t].refreshing == w.tabs[t].refreshing
  {}

  /** One locked operation at a time: a grant needs the free lock, and only its holder's request is answered. */
  lemma MutualExclusion(w: World, s: Step)
    requires Enabled(w, s)
    ensures s.GrantRefresh? || s.GrantCheck? || s.GrantLogin? || s.GrantLogout? || s.GrantPassword? ==> w.lock.Free?
    ensures s.RefreshAnswers? || s.LoginAnswers? || s.PasswordAnswers? || s.LogoutAnswers? ==>
              w.lock.Held? && w.lock.tab == s.tab
    ensures w.lock.Held? && !s.Tick? && s.tab != w.lock.tab ==> Next(w, s).lock == w.lock
    ensures s.GrantRefresh? ==> w.tabs[s.tab].refreshing
    ensures s.GrantCheck? ==> w.tabs[s.tab].checking
  {
    hide BeginRefresh, BeginCheck, EndRefresh;
  }

  /** Waiting for the server, asking for a refresh, time passing, and a page going away. */
  lemma PlainSteps(w: World, t: nat, now: int)
    requires t < |w.tabs|
    ensures w.lock.Free? ==> Next(w, GrantLogin(t)) == w.(lock := Held(t, LoginCall))
    ensures w.lock.Free? ==> Next(w, GrantPassword(t)) == w.(lock := Held(t, PasswordCall))
    ensures Next(w, RequestRefresh(t)) == w.(tabs := w.tabs[t := w.tabs[t].(refreshing := true)])
    ensures Enabled(w, Tick(now)) <==> w.now <= now
    ensures w.now <= now ==> Next(w, Tick(now)) == w.(now := now)
    ensures var after := Next(w, Reload(t));
      && IsSignedOut(after.tabs[t]) && !after.tabs[t].refreshing && !after.tabs[t].checking
      && after.tabs[t].endReason.None? && after.item == w.item
      && (Waits(w, t) ==> after.lock.Free?) && (!Waits(w, t) ==> after.lock == w.lock)
  {}
}
