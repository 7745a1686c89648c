/**
 Any number of portal tabs over one stored session, one lock and one clock: a step is one atomic stretch
 of one tab's code, and steps of different tabs interleave freely.
 */
module AuthRuns {
  import opened AuthStore
  import opened Results
  import opened SessionActivity

  // The browser-wide lock: which tab's operation holds it, and the request it waits for.
  datatype Lock = Free | Held(tab: nat, flight: Flight)

  datatype World = World(now: int, item: Item, lock: Lock, tabs: seq<TabState>)

  datatype Step =
    | Tick(now: int)
    | Input(tab: nat)
    | Monitor(tab: nat)
    | RequestRefresh(tab: nat)
    | BootstrapEnds(tab: nat, me: Option<Me>)
    | GrantRefresh(tab: nat)
    | RefreshAnswers(tab: nat, answer: RefreshAnswer)
    | GrantCheck(tab: nat)
    | GrantLogin(tab: nat)
    | LoginAnswers(tab: nat, login: Option<LoginResponse>)
    | GrantLogout(tab: nat)
    | GrantPassword(tab: nat)
    | PasswordAnswers(tab: nat, ok: bool)
    | LogoutAnswers(tab: nat)
    | Reload(tab: nat)

  predicate Waits(w: World, t: nat) {
    w.lock.Held? && w.lock.tab == t
  }

  predicate Enabled(w: World, s: Step) {
    match s
    case Tick(now) => w.now <= now
    case GrantRefresh(t) => t < |w.tabs| && w.lock.Free? && w.tabs[t].refreshing
    case GrantCheck(t) => t < |w.tabs| && w.lock.Free? && w.tabs[t].checking
    case GrantLogin(t) => t < |w.tabs| && w.lock.Free?
    case GrantLogout(t) => t < |w.tabs| && w.lock.Free?
    case GrantPassword(t) => t < |w.tabs| && w.lock.Free?
    case RefreshAnswers(t, _) => t < |w.tabs| && Waits(w, t) && w.lock.flight.RefreshCall?
    case LoginAnswers(t, _) => t < |w.tabs| && Waits(w, t) && w.lock.flight.LoginCall?
    case PasswordAnswers(t, _) => t < |w.tabs| && Waits(w, t) && w.lock.flight.PasswordCall?
    case LogoutAnswers(t) => t < |w.tabs| && Waits(w, t) && w.lock.flight.LogoutCall?
    case _ => s.tab < |w.tabs|
  }

  function Seen(w: World, t: nat): View
    requires t < |w.tabs|
  {
    View(w.item, w.tabs[t])
  }

  function Put(w: World, t: nat, v: View): World
    requires t < |w.tabs|
  {
    w.(item := v.item, tabs := w.tabs[t := v.tab])
  }

  function Turned(w: World, t: nat, outcome: (View, Turn)): World
    requires t < |w.tabs|
  {
    Put(w, t, outcome.0).(lock := if outcome.1.Release? then Free else Held(t, outcome.1.flight))
  }

  function Next(w: World, s: Step): World
    requires Enabled(w, s)
  {
    match s
    case Tick(now) => w.(now := now)
    case Input(t) =>
      if w.tabs[t].isAuthenticated then w.(item := Apply(w.item, Op.RecordActivity, w.now)) else w
    case Monitor(t) => w.(tabs := w.tabs[t := Monitored(Seen(w, t), w.now)])
    case RequestRefresh(t) => w.(tabs := w.tabs[t := w.tabs[t].(refreshing := true)])
    case BootstrapEnds(t, me) => w.(tabs := w.tabs[t := Bootstrapped(w.tabs[t], me)])
    case GrantRefresh(t) => Turned(w, t, BeginRefresh(Seen(w, t), w.now))
    case RefreshAnswers(t, answer) => Turned(w, t, EndRefresh(Seen(w, t), answer, w.now))
    case GrantCheck(t) => Turned(w, t, BeginCheck(Seen(w, t), w.now))
    case GrantLogin(t) => w.(lock := Held(t, LoginCall))
    case LoginAnswers(t, login) =>
      var answered := if login.Some? then Put(w, t, LoggedIn(Seen(w, t), login.value, w.now)) else w;
      answered.(lock := Free)
    case GrantLogout(t) => Put(w, t, Revoked(Seen(w, t), Logout)).(lock := Held(t, LogoutCall(LogoutOp, false)))
    case GrantPassword(t) => w.(lock := Held(t, PasswordCall))
    case PasswordAnswers(t, ok) => Put(w, t, EndPasswordCall(Seen(w, t), ok)).(lock := Free)
    case LogoutAnswers(t) =>
      var flight := w.lock.flight;
      w.(tabs := w.tabs[t := EndLogoutCall(w.tabs[t], flight.op, flight.unsaved)], lock := Free)
    case Reload(t) => w.(tabs := w.tabs[t := FRESH], lock := if Waits(w, t) then Free else w.lock)
  }

  /** Fresh tabs, no lock held, and whatever the storage holds. */
  predicate Initial(w: World) {
    w.lock.Free? && forall t | 0 <= t < |w.tabs| :: w.tabs[t] == FRESH
  }

  ghost predicate IsRun(worlds: seq<World>, steps: seq<Step>) {
    && |worlds| == |steps| + 1
    && forall i | 0 <= i < |steps| :: Enabled(worlds[i], steps[i]) && worlds[i + 1] == Next(worlds[i], steps[i])
  }

  // ---- what every step keeps ---------------------------------------------------------------------------

  /** A tab is signed in exactly when it knows its session, and exactly then it has a token. */
  predicate Coherent(tab: TabState) {
    (tab.isAuthenticated <==> tab.activeSessionId.Some?) && (tab.isAuthenticated <==> tab.accessToken.Some?)
  }

  /** While a refresh is in flight the stored session is the one it was sent for, and nobody has ended it. */
  predicate FlightMatches(w: World) {
    w.lock.Held? && w.lock.flight.RefreshCall? ==>
      && Current(w.item).Some?
      && w.item.value.policy.sessionId == w.lock.flight.sessionId
      && w.item.value.endedReason.None?
  }

  predicate Inv(w: World) {
    && (forall t | 0 <= t < |w.tabs| :: Coherent(w.tabs[t]))
    && (w.lock.Held? ==> w.lock.tab < |w.tabs|)
    && FlightMatches(w)
  }

  lemma StepKeepsCoherence(w: World, s: Step, t: nat)
    requires Enabled(w, s) && t < |w.tabs| && Coherent(w.tabs[t])
    ensures |Next(w, s).tabs| == |w.tabs| && Coherent(Next(w, s).tabs[t])
  {
    hide Apply, RefreshTime, Current, ExpiryReason, IsLive, BeginRefresh, BeginCheck, EndRefresh,
      Cleared, Monitored, Bootstrapped, Revoked, LoggedIn, EndLogoutCall, EndPasswordCall, Coherent;
    var v := Seen(w, t);
    assert Coherent(FRESH) by { FreshIsCoherent(); }
    match s {
      case GrantRefresh(_) => TurnsKeepCoherence(v, Failed, w.now);
      case GrantCheck(_) => TurnsKeepCoherence(v, Failed, w.now);
      case RefreshAnswers(_, answer) => TurnsKeepCoherence(v, answer, w.now);
      case Monitor(_) => TabStepsKeepCoherence(v, None, w.now);
      case BootstrapEnds(_, me) => TabStepsKeepCoherence(v, me, w.now);
      case RequestRefresh(_) => TabStepsKeepCoherence(v, None, w.now);
      case LoginAnswers(_, login) => if login.Some? { LoginIsCoherent(v, login.value, w.now); }
      case GrantLogout(_) => SignOutIsCoherent(v, true, LogoutOp, false);
      case PasswordAnswers(_, ok) => SignOutIsCoherent(v, ok, PasswordOp, false);
      case LogoutAnswers(_) => SignOutIsCoherent(v, true, w.lock.flight.op, w.lock.flight.unsaved);
      case _ =>
    }
  }

  lemma FreshIsCoherent()
    ensures Coherent(FRESH)
  {}

  lemma TurnsKeepCoherence(v: View, answer: RefreshAnswer, now: int)
    requires Coherent(v.tab)
    ensures Coherent(BeginRefresh(v, now).0.tab) && Coherent(BeginCheck(v, now).0.tab)
    ensures Coherent(EndRefresh(v, answer, now).0.tab)
  {
    hide RefreshTime, Apply;
  }

  lemma TabStepsKeepCoherence(v: View, me: Option<Me>, now: int)
    requires Coherent(v.tab)
    ensures Coherent(Monitored(v, now)) && Coherent(Bootstrapped(v.tab, me))
    ensures Coherent(v.tab.(refreshing := true))
  {}

  lemma LoginIsCoherent(v: View, login: LoginResponse, now: int)
    ensures Coherent(LoggedIn(v, login, now).tab)
  {}

  lemma SignOutIsCoherent(v: View, ok: bool, op: Operation, unsaved: bool)
    requires Coherent(v.tab)
    ensures Coherent(Revoked(v, Logout).tab) && Coherent(EndPasswordCall(v, ok).tab)
    ensures Coherent(EndLogoutCall(v.tab, op, unsaved))
  {}

  lemma StepKeepsFlight(w: World, s: Step)
    requires Enabled(w, s) && FlightMatches(w)
    ensures FlightMatches(Next(w, s))
  {
    hide RefreshTime, Cleared, Settled, Monitored, Bootstrapped;
  }

  lemma StepKeepsInv(w: World, s: Step)
    requires Enabled(w, s) && Inv(w)
    ensures Inv(Next(w, s))
  {
    hide RefreshTime, Apply, Current, ExpiryReason, FlightMatches, Coherent;
    forall t | 0 <= t < |w.tabs| ensures |Next(w, s).tabs| == |w.tabs| && Coherent(Next(w, s).tabs[t]) {
      StepKeepsCoherence(w, s, t);
    }
    StepKeepsFlight(w, s);
    if w.tabs == [] { StepOnNoTabs(w, s); }
  }

  lemma StepOnNoTabs(w: World, s: Step)
    requires Enabled(w, s) && w.tabs == []
    ensures Next(w, s).tabs == [] && Next(w, s).lock == w.lock
  {}

  lemma {:induction false} RunKeepsInv(worlds: seq<World>, steps: seq<Step>, n: nat)
    requires IsRun(worlds, steps) && n < |worlds| && Inv(worlds[0])
    ensures Inv(worlds[n])
  {
    hide Inv, Next, Enabled;
    if n > 0 {
      RunKeepsInv(worlds, steps, n - 1);
      StepKeepsInv(worlds[n - 1], steps[n - 1]);
    }
  }

  lemma InitialInv(w: World)
    requires Initial(w)
    ensures Inv(w)
  {}

  /** In every interleaving every tab is coherent, and the stored session does not change under a refresh. */
  lemma EveryRunIsCoherent(worlds: seq<World>, steps: seq<Step>, n: nat)
    requires IsRun(worlds, steps) && n < |worlds| && Initial(worlds[0])
    ensures forall t | 0 <= t < |worlds[n].tabs| :: Coherent(worlds[n].tabs[t])
    ensures FlightMatches(worlds[n])
  {
    InitialInv(worlds[0]);
    RunKeepsInv(worlds, steps, n);
  }
}
