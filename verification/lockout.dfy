/**
 * The lockout state machine behind FailedLoginAttemptsManager, stated on values.
 *
 * A `Record` is the state of one `Attempts` object; a `Tracker` is the state of
 * the whole manager: the records of the known identities (created lazily) and
 * the record shared by every unknown identity. The classes in AttemptsManager
 * are proved to follow these functions.
 */
module Lockout {
  import opened Options

  /** Five minutes in milliseconds: the length of the lockout window. */
  const WINDOW_MS: int := 5 * 60 * 1000

  /** The only identity that is tracked. */
  const ADMIN: string := "admin"

  /** `TimeUtils.fiveMinutesAgo`: the bound a failure must be strictly older than to be forgotten. */
  function FiveMinutesAgo(now: int): (bound: int)
    ensures bound < now && now - bound == 300000
  {
    now - WINDOW_MS
  }

  /** When the last failure happened; `Never` is the Long.MIN_VALUE sentinel. */
  datatype Stamp = Never | At(ms: int)

  /** `stamp < bound`, with the sentinel below every clock reading. */
  predicate Before(stamp: Stamp, bound: int)
  {
    stamp.Never? || stamp.ms < bound
  }

  /** The fields of one `Attempts` object. */
  datatype Record = Record(max: int, remaining: int, stamp: Stamp)

  /**
   * The counter stays within [0, max]; a record built with a negative maximum
   * is never decremented and so keeps remaining == max.
   */
  predicate CounterInRange(r: Record)
  {
    r.remaining <= r.max && (0 <= r.remaining || r.remaining == r.max)
  }

  function NewRecord(max: int): (r: Record)
    ensures CounterInRange(r)
    ensures r.max == max && r.remaining == max && !r.stamp.At?
  {
    Record(max, max, Never)
  }

  /** `Attempts.registerFailedAttempt` at clock reading `now`. */
  function RegisterFailure(r: Record, now: int): (r': Record)
    ensures r'.max == r.max && r'.stamp == At(now)
    ensures r.remaining > 0 ==> r'.remaining == r.remaining - 1
    ensures r.remaining <= 0 ==> r'.remaining == r.remaining
    ensures CounterInRange(r) ==> CounterInRange(r')
  {
    r.(remaining := if r.remaining > 0 then r.remaining - 1 else r.remaining, stamp := At(now))
  }

  /** The state `Attempts.isLockedOut` leaves behind: reset once the last failure is over five minutes old. */
  function Expire(r: Record, now: int): (r': Record)
    ensures r'.max == r.max
    ensures Before(r.stamp, FiveMinutesAgo(now)) ==> r' == NewRecord(r.max)
    ensures !Before(r.stamp, FiveMinutesAgo(now)) ==> r' == r
    ensures CounterInRange(r) ==> CounterInRange(r')
  {
    if Before(r.stamp, FiveMinutesAgo(now)) then NewRecord(r.max) else r
  }

  /** The answer of `Attempts.isLockedOut`: the counter is 0 after the possible reset. */
  function IsLocked(r: Record, now: int): (locked: bool)
    ensures Before(r.stamp, FiveMinutesAgo(now)) ==> (locked <==> r.max == 0)
    ensures !Before(r.stamp, FiveMinutesAgo(now)) ==> (locked <==> r.remaining == 0)
  {
    Expire(r, now).remaining == 0
  }

  /**
   * A record whose counter is exhausted by a failure at `t0` is locked for
   * every query up to and including `t0 + WINDOW_MS`, and open afterwards.
   */
  lemma LockoutLastsFiveMinutes(r: Record, t0: int, now: int)
    requires r.max != 0 && r.remaining == 0 && r.stamp == At(t0)
    ensures IsLocked(r, now) <==> now <= t0 + WINDOW_MS
    ensures now > t0 + WINDOW_MS ==> Expire(r, now) == NewRecord(r.max)
  {
  }

  /** A second `isLockedOut` at the same instant changes nothing and gives the same answer. */
  lemma QueryIdempotent(r: Record, now: int)
    ensures Expire(Expire(r, now), now) == Expire(r, now)
    ensures IsLocked(Expire(r, now), now) == IsLocked(r, now)
  {
  }

  /** `FailedLoginAttemptsManager.isKnownUser`; `None` is the null name. */
  function IsKnownUser(username: Option<string>): (known: bool)
    ensures username.None? ==> !known
    ensures known <==> username.Some? && username.value == "admin"
  {
    username == Some(ADMIN)
  }

  /** The manager's state: its maximum, the `loginAttempts` map and the shared UNKNOWN_USER record. */
  datatype Tracker = Tracker(max: int, known: map<string, Record>, unknown: Record)

  /** Only "admin" is ever a key; every record is in range; the unknown record has maximum 0. */
  predicate TrackerValid(t: Tracker)
  {
    && t.known.Keys <= {ADMIN}
    && (forall k | k in t.known :: t.known[k].max == t.max && CounterInRange(t.known[k]))
    && t.unknown.max == 0 && CounterInRange(t.unknown)
  }

  function InitialTracker(max: int, unknown: Record): (t: Tracker)
    ensures unknown.max == 0 && CounterInRange(unknown) ==> TrackerValid(t)
    ensures t.known == map[]
  {
    Tracker(max, map[], unknown)
  }

  /** The record `find` hands out: the known identity's record (a fresh one if not yet created), or the shared one. */
  function RecordOf(t: Tracker, username: Option<string>): (r: Record)
    ensures TrackerValid(t) ==> CounterInRange(r)
    ensures TrackerValid(t) ==> r.max == if IsKnownUser(username) then t.max else 0
    ensures IsKnownUser(username) && ADMIN !in t.known ==> r == NewRecord(t.max)
    ensures IsKnownUser(username) && ADMIN in t.known ==> r == t.known[ADMIN]
    ensures !IsKnownUser(username) ==> r == t.unknown
  {
    if IsKnownUser(username) then
      if ADMIN in t.known then t.known[ADMIN] else NewRecord(t.max)
    else t.unknown
  }

  /** Writes back the record of `username`; a known identity gets its key in the map. */
  function Store(t: Tracker, username: Option<string>, r: Record): Tracker
  {
    if IsKnownUser(username) then t.(known := t.known[ADMIN := r]) else t.(unknown := r)
  }

  /** The manager's state after `isLockedOut(username)`. */
  function QueryState(t: Tracker, username: Option<string>, now: int): (t': Tracker)
    ensures TrackerValid(t) ==> TrackerValid(t')
    ensures t'.max == t.max
    ensures t'.known.Keys == if IsKnownUser(username) then t.known.Keys + {ADMIN} else t.known.Keys
    ensures !IsKnownUser(username) ==> t'.known == t.known
    ensures IsKnownUser(username) ==> t'.unknown == t.unknown
    ensures RecordOf(t', username) == Expire(RecordOf(t, username), now)
  {
    Store(t, username, Expire(RecordOf(t, username), now))
  }

  /** The answer of `isLockedOut(username)`; every unknown identity is reported locked out. */
  function Query(t: Tracker, username: Option<string>, now: int): (locked: bool)
    ensures TrackerValid(t) && !IsKnownUser(username) ==> locked
    ensures locked <==> RecordOf(QueryState(t, username, now), username).remaining == 0
  {
    IsLocked(RecordOf(t, username), now)
  }

  /** The manager's state after `registerFailedLoginAttempt(username)`. */
  function Fail(t: Tracker, username: Option<string>, now: int): (t': Tracker)
    ensures TrackerValid(t) ==> TrackerValid(t')
    ensures t'.max == t.max
    ensures t'.known.Keys == if IsKnownUser(username) then t.known.Keys + {ADMIN} else t.known.Keys
    ensures !IsKnownUser(username) ==> t'.known == t.known
    ensures IsKnownUser(username) ==> t'.unknown == t.unknown
    ensures RecordOf(t', username) == RegisterFailure(RecordOf(t, username), now)
  {
    Store(t, username, RegisterFailure(RecordOf(t, username), now))
  }

  /** `isLockedOut` twice in a row at the same instant: same answer, same state. */
  lemma TrackerQueryIdempotent(t: Tracker, username: Option<string>, now: int)
    ensures QueryState(QueryState(t, username, now), username, now) == QueryState(t, username, now)
    ensures Query(QueryState(t, username, now), username, now) == Query(t, username, now)
  {
    QueryIdempotent(RecordOf(t, username), now);
  }

  /** `registerFailedLoginAttempt(username)` at each of `times`, in order, with no query between. */
  function FailAll(t: Tracker, username: Option<string>, times: seq<int>): Tracker
    decreases |times|
  {
    if times == [] then t else Fail(FailAll(t, username, times[..|times| - 1]), username, times[|times| - 1])
  }

  /** What is left of `max` attempts after `n` failures: never below 0. */
  function Left(max: int, n: nat): int
  {
    if n >= max then 0 else max - n
  }

  /** Each failure takes one attempt, down to 0, and stamps its own time. */
  lemma {:induction false} FailuresCountDown(t: Tracker, times: seq<int>)
    requires TrackerValid(t) && t.max >= 0
    requires RecordOf(t, Some(ADMIN)).remaining == t.max
    ensures TrackerValid(FailAll(t, Some(ADMIN), times))
    ensures RecordOf(FailAll(t, Some(ADMIN), times), Some(ADMIN)).remaining == Left(t.max, |times|)
    ensures times != [] ==> RecordOf(FailAll(t, Some(ADMIN), times), Some(ADMIN)).stamp == At(times[|times| - 1])
    decreases |times|
  {
    if times != [] {
      FailuresCountDown(t, times[..|times| - 1]);
    }
  }

  /** With maximum N >= 1: N failures lock the identity until five minutes after the last of them. */
  lemma LockedAfterMaxFailures(t: Tracker, times: seq<int>, now: int)
    requires TrackerValid(t) && t.max >= 1
    requires RecordOf(t, Some(ADMIN)).remaining == t.max
    requires |times| == t.max && now <= times[|times| - 1] + WINDOW_MS
    ensures Query(FailAll(t, Some(ADMIN), times), Some(ADMIN), now)
  {
    FailuresCountDown(t, times);
  }

  /** With maximum N >= 1: N - 1 failures never lock the identity. */
  lemma OpenAfterFewerFailures(t: Tracker, times: seq<int>, now: int)
    requires TrackerValid(t) && t.max >= 1
    requires RecordOf(t, Some(ADMIN)).remaining == t.max
    requires |times| == t.max - 1
    ensures !Query(FailAll(t, Some(ADMIN), times), Some(ADMIN), now)
  {
    FailuresCountDown(t, times);
  }
}
