/**
 * FailedLoginAttemptsManager and its inner Attempts records, as classes whose
 * methods overwrite fields in place. Every method is proved to follow the
 * value-level functions of module Lockout.
 */
module AttemptsManager {
  import opened Options
  import opened Lockout

  /** One identity's failure counter and the time of its last failure. */
  class Attempts {
    const maxAttempts: int
    var remainingAttempts: int
    var previousAttemptTimestamp: Stamp

    function State(): Record
      reads this
    {
      Record(maxAttempts, remainingAttempts, previousAttemptTimestamp)
    }

    constructor (maxAttempts: int)
      ensures State() == NewRecord(maxAttempts)
    {
      this.maxAttempts := maxAttempts;
      remainingAttempts := maxAttempts;
      previousAttemptTimestamp := Never;
    }

    /** Takes one attempt (never below 0) and stamps the failure with `now`. */
    method RegisterFailedAttempt(now: int)
      modifies this
      ensures State() == RegisterFailure(old(State()), now)
    {
      if remainingAttempts > 0 {
        remainingAttempts := remainingAttempts - 1;
      }
      previousAttemptTimestamp := At(now);
    }

    /** Resets the record when the last failure is over five minutes old, then reports an exhausted counter. */
    method IsLockedOut(now: int) returns (locked: bool)
      modifies this
      ensures State() == Expire(old(State()), now)
      ensures locked <==> remainingAttempts == 0
      ensures locked == IsLocked(old(State()), now)
    {
      if Before(previousAttemptTimestamp, FiveMinutesAgo(now)) {
        remainingAttempts := maxAttempts;
        previousAttemptTimestamp := Never;
      }
      locked := remainingAttempts == 0;
    }
  }

  /**
   * The per-identity lockout tracker. `unknownUser` is the record that the
   * source keeps in a static field and hands out for every identity other
   * than "admin"; it is given to the constructor because Dafny has no static
   * mutable state.
   */
  class FailedLoginAttemptsManager {
    const maxAttempts: int
    const unknownUser: Attempts
    var loginAttempts: map<string, Attempts>

    ghost function Repr(): set<object>
      reads this
    {
      {this, unknownUser} + loginAttempts.Values
    }

    /** The shared record is never one of the map's records, and the state is a valid tracker. */
    ghost predicate Valid()
      reads this, unknownUser, loginAttempts.Values
    {
      && loginAttempts.Keys <= {ADMIN}
      && unknownUser !in loginAttempts.Values
      && TrackerValid(Abstract())
    }

    /** The state as a `Tracker`: "admin" is the only key `find` ever creates. */
    ghost function Abstract(): Tracker
      reads this, unknownUser, loginAttempts.Values
    {
      var known := if ADMIN in loginAttempts then map[ADMIN := loginAttempts[ADMIN].State()] else map[];
      Tracker(maxAttempts, known, unknownUser.State())
    }

    constructor (maxAttempts: int, unknownUser: Attempts)
      requires unknownUser.maxAttempts == 0 && CounterInRange(unknownUser.State())
      ensures Valid()
      ensures this.unknownUser == unknownUser
      ensures Abstract() == InitialTracker(maxAttempts, unknownUser.State())
    {
      this.maxAttempts := maxAttempts;
      this.unknownUser := unknownUser;
      loginAttempts := map[];
    }

    /**
     * The record for `username`: "admin" gets its own record, created on the
     * first call and the same object on every later call; every other name,
     * null included, gets the shared record and leaves the map alone.
     */
    method Find(username: Option<string>) returns (a: Attempts)
      requires Valid()
      modifies this
      ensures Valid()
      ensures a in Repr()
      ensures a.State() == RecordOf(old(Abstract()), username)
      ensures Abstract() == Store(old(Abstract()), username, a.State())
      ensures IsKnownUser(username) ==> loginAttempts == old(loginAttempts)[ADMIN := a]
      ensures IsKnownUser(username) && ADMIN in old(loginAttempts) ==> a == old(loginAttempts[ADMIN])
      ensures IsKnownUser(username) && ADMIN !in old(loginAttempts) ==> fresh(a)
      ensures !IsKnownUser(username) ==> a == unknownUser && loginAttempts == old(loginAttempts)
    {
      if IsKnownUser(username) {
        if ADMIN in loginAttempts {
          a := loginAttempts[ADMIN];
        } else {
          a := new Attempts(maxAttempts);
          loginAttempts := loginAttempts[ADMIN := a];
        }
        assert loginAttempts[ADMIN] == a;
        assert loginAttempts.Keys <= {ADMIN};
      } else {
        a := unknownUser;
      }
    }

    /** `find(username).isLockedOut()`: the possible reset happens in place, in the record `find` hands out. */
    method IsLockedOut(username: Option<string>, now: int) returns (locked: bool)
      requires Valid()
      modifies Repr()
      ensures Valid()
      ensures Abstract() == QueryState(old(Abstract()), username, now)
      ensures locked == Query(old(Abstract()), username, now)
      ensures fresh(Repr() - old(Repr()))
      ensures forall k | k in old(loginAttempts) :: k in loginAttempts && loginAttempts[k] == old(loginAttempts[k])
    {
      var a := Find(username);
      locked := a.IsLockedOut(now);
      assert loginAttempts.Keys <= {ADMIN};
    }

    /** `find(username).registerFailedAttempt()`. */
    method RegisterFailedLoginAttempt(username: Option<string>, now: int)
      requires Valid()
      modifies Repr()
      ensures Valid()
      ensures Abstract() == Fail(old(Abstract()), username, now)
      ensures fresh(Repr() - old(Repr()))
      ensures forall k | k in old(loginAttempts) :: k in loginAttempts && loginAttempts[k] == old(loginAttempts[k])
    {
      var a := Find(username);
      a.RegisterFailedAttempt(now);
      assert loginAttempts.Keys <= {ADMIN};
    }
  }
}
