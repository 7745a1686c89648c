/** The session that all tabs of the portal share: packages/portal/src/stores/session-activity.ts. */
module SessionActivity {
  import opened Results

  datatype EndReason = Idle | Expired | Logout

  // The idle timeout is None when it is not a finite number, the deadline when it is not a date.
  datatype Policy = Policy(sessionId: string, idleMinutes: Option<real>, expiresAt: Option<int>)

  datatype Session = Session(policy: Policy, lastActivityAt: Option<int>, endedReason: Option<EndReason>)

  // What local storage holds: None is no entry, or one that is not a session.
  type Item = Option<Session>

  predicate IsUsable(s: Session) {
    && s.lastActivityAt.Some? && s.policy.expiresAt.Some?
    && s.policy.idleMinutes.Some? && s.policy.idleMinutes.value > 0.0
  }

  /** `current` */
  function Current(item: Item): (r: Option<Session>)
    ensures r.Some? ==> r == item && IsUsable(r.value)
  {
    if item.Some? && IsUsable(item.value) then item else None
  }

  predicate IsIdle(s: Session, now: int)
    requires IsUsable(s)
  {
    (now - s.lastActivityAt.value) as real >= s.policy.idleMinutes.value * 60000.0
  }

  /** `expiryReason` of what `current` returned */
  function ExpiryReason(session: Option<Session>, now: int): Option<EndReason>
    requires session.Some? ==> IsUsable(session.value)
  {
    if session.None? then Some(Expired)
    else if session.value.endedReason.Some? then session.value.endedReason
    else if now >= session.value.policy.expiresAt.value then Some(Expired)
    else if IsIdle(session.value, now) then Some(Idle)
    else None
  }

  /** The stored session has not expired. */
  predicate IsLive(item: Item, now: int) {
    ExpiryReason(Current(item), now).None?
  }

  // ---- the operations on the stored session ----------------------------------------------------------

  datatype Op = Start(policy: Policy) | UpdatePolicy(policy: Policy) | RecordActivity | End(reason: EndReason)

  function Apply(item: Item, op: Op, now: int): Item {
    match op
    case Start(policy) => Some(Session(policy, Some(now), None))
    case UpdatePolicy(policy) =>
      if IsLive(item, now) && item.value.policy.sessionId == policy.sessionId
      then Some(item.value.(policy := policy)) else item
    case RecordActivity =>
      if IsLive(item, now) then Some(item.value.(lastActivityAt := Some(now))) else item
    case End(reason) =>
      if Current(item).Some? then Some(item.value.(endedReason := Some(reason))) else item
  }

  class Storage {
    var item: Item

    constructor (item: Item)
      ensures this.item == item
    {
      this.item := item;
    }
  }

  class Activity {
    const storage: Storage

    constructor (storage: Storage)
      ensures this.storage == storage
    {
      this.storage := storage;
    }

    method Start(policy: Policy, now: int)
      modifies storage
      ensures storage.item == Apply(old(storage.item), Op.Start(policy), now)
    {
      storage.item := Some(Session(policy, Some(now), None));
    }

    method UpdatePolicy(policy: Policy, now: int) returns (updated: bool)
      modifies storage
      ensures storage.item == Apply(old(storage.item), Op.UpdatePolicy(policy), now)
      ensures updated <==>
                IsLive(old(storage.item), now) && old(storage.item).value.policy.sessionId == policy.sessionId
    {
      var session := Current(storage.item);
      if session.None? || session.value.policy.sessionId != policy.sessionId
        || ExpiryReason(session, now).Some?
      {
        return false;
      }
      storage.item := Some(session.value.(policy := policy));
      return true;
    }

    method RecordActivity(now: int)
      modifies storage
      ensures storage.item == Apply(old(storage.item), Op.RecordActivity, now)
    {
      var session := Current(storage.item);
      if session.Some? && ExpiryReason(session, now).None? {
        storage.item := Some(session.value.(lastActivityAt := Some(now)));
      }
    }

    method End(reason: EndReason)
      modifies storage
      ensures forall now :: storage.item == Apply(old(storage.item), Op.End(reason), now)
    {
      var session := Current(storage.item);
      if session.Some? {
        storage.item := Some(session.value.(endedReason := Some(reason)));
      }
    }
  }

  // ---- runs of operations --------------------------------------------------------------------------------

  datatype Event = Event(op: Op, at: int)

  predicate ClockMovesForward(run: seq<Event>) {
    forall i, j | 0 <= i <= j < |run| :: run[i].at <= run[j].at
  }

  function ItemAfter(item: Item, run: seq<Event>, n: nat): Item
    requires n <= |run|
  {
    if n == 0 then item else Apply(ItemAfter(item, run, n - 1), run[n - 1].op, run[n - 1].at)
  }

  lemma DeadStaysDead(item: Item, op: Op, at: int, now: int)
    requires !IsLive(item, at) && !op.Start? && at <= now
    ensures !IsLive(Apply(item, op, at), now)
  {}

  lemma DeadStaysDeadInTime(item: Item, at: int, now: int)
    requires !IsLive(item, at) && at <= now
    ensures !IsLive(item, now)
  {}

  /** No resurrection: without a new start, an expired or ended session stays so through every run. */
  lemma {:induction false} NoResurrection(item: Item, since: int, run: seq<Event>, n: nat, now: int)
    requires ClockMovesForward(run) && n <= |run|
    requires forall i | 0 <= i < n :: since <= run[i].at <= now && !run[i].op.Start?
    requires since <= now && !IsLive(item, since)
    ensures !IsLive(ItemAfter(item, run, n), now)
  {
    if n == 0 {
      DeadStaysDeadInTime(item, since, now);
    } else {
      NoResurrection(item, since, run, n - 1, run[n - 1].at);
      DeadStaysDead(ItemAfter(item, run, n - 1), run[n - 1].op, run[n - 1].at, now);
    }
  }

  predicate IsUserEvent(op: Op) {
    op.Start? || op.RecordActivity?
  }

  // i is the last event of the first n that is a sign-in or user input.
  predicate IsLastUserEvent(run: seq<Event>, n: nat, i: int)
    requires n <= |run|
  {
    && 0 <= i < n && IsUserEvent(run[i].op)
    && forall k | i < k < n :: !IsUserEvent(run[k].op)
  }

  predicate IsLastStart(run: seq<Event>, n: nat, i: int)
    requires n <= |run|
  {
    && 0 <= i < n && run[i].op.Start?
    && forall k | i < k < n :: !run[k].op.Start?
  }

  /**
   In a browser that starts without a session, a live session is the one signed into last, and the last
   sign-in or input event - no refresh - is less than the idle timeout now in force ago.
   */
  lemma {:induction false} LiveSessionHasInput(run: seq<Event>, n: nat, now: int) returns (started: nat, active: nat)
    requires ClockMovesForward(run) && n <= |run| && forall i | 0 <= i < n :: run[i].at <= now
    requires IsLive(ItemAfter(None, run, n), now)
    ensures IsLastStart(run, n, started) && IsLastUserEvent(run, n, active)
    ensures var s := ItemAfter(None, run, n).value;
      && s.policy.sessionId == run[started].op.policy.sessionId
      && s.lastActivityAt == Some(run[active].at)
      && (now - run[active].at) as real < s.policy.idleMinutes.value * 60000.0
      && now < s.policy.expiresAt.value
      && forall k | started < k < n :: !run[k].op.End?
  {
    var before, last := ItemAfter(None, run, n - 1), run[n - 1];
    if last.op.Start? {
      return n - 1, n - 1;
    }
    if !IsLive(before, last.at) {
      DeadStaysDead(before, last.op, last.at, now);
    }
    started, active := LiveSessionHasInput(run, n - 1, last.at);
    if last.op.RecordActivity? {
      active := n - 1;
    }
  }

  /**
   How long a session lasts that is started and then left alone: it is live until the first of its deadline and
   its idle time, and says which of the two has passed; a policy without a usable deadline or timeout is
   expired from the start.
   */
  lemma StartedSessionLasts(item: Item, policy: Policy, startedAt: int, now: int)
    ensures var started := Current(Apply(item, Op.Start(policy), startedAt));
      if policy.expiresAt.None? || policy.idleMinutes.None? || policy.idleMinutes.value <= 0.0 then
        ExpiryReason(started, now) == Some(Expired)
      else if now >= policy.expiresAt.value then ExpiryReason(started, now) == Some(Expired)
      else if (now - startedAt) as real >= policy.idleMinutes.value * 60000.0 then
        ExpiryReason(started, now) == Some(Idle)
      else ExpiryReason(started, now) == None
  {}

  /** Input in a live session restarts its idle time, and no more. */
  lemma InputRestartsIdleTime(item: Item, at: int, now: int)
    requires IsLive(item, at)
    ensures var after := Apply(item, Op.RecordActivity, at);
      && after.Some? && after.value.policy == item.value.policy && after.value.endedReason.None?
      && (IsLive(after, now) <==>
          now < item.value.policy.expiresAt.value
          && (now - at) as real < item.value.policy.idleMinutes.value * 60000.0)
  {}

  /** A policy update in a live session replaces deadline and timeout; the idle time runs on. */
  lemma UpdateKeepsIdleTime(item: Item, policy: Policy, at: int, now: int)
    requires IsLive(item, at) && item.value.policy.sessionId == policy.sessionId
    ensures var after := Apply(item, Op.UpdatePolicy(policy), at);
      && after.Some? && after.value.policy == policy
      && after.value.lastActivityAt == item.value.lastActivityAt && after.value.endedReason.None?
  {}

  /** An ended session gives the reason it was ended with. */
  lemma EndedSessionSays(item: Item, reason: EndReason, at: int, now: int)
    requires Current(item).Some?
    ensures ExpiryReason(Current(Apply(item, Op.End(reason), at)), now) == Some(reason)
  {}
}
