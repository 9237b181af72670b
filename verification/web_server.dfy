/**
 * AuthenticationWebServer: the login decision that consults the lockout
 * tracker, the login handler around it, and the parameter dispatch of the
 * time-transformer test endpoint.
 */
module AuthenticationWebServer {
  import opened Options
  import opened Lockout
  import opened AttemptsManager
  import opened HtmlUtils

  /** The number of wrong logins that locks an account. */
  const PASSWORD_ATTEMPTS: int := 3

  /** The tracker after one login attempt, and whether access is granted. */
  datatype Decision = Decision(tracker: Tracker, granted: bool)

  /**
   * `authenticate`: the lockout query runs first and always (its reset happens
   * whatever the credentials); access is granted only to "admin"/"admin"
   * when not locked out; every other outcome registers a failure.
   */
  function Decide(t: Tracker, username: Option<string>, password: Option<string>, now: int): (d: Decision)
    ensures d.granted <==> !Query(t, username, now) && username == Some(ADMIN) && password == Some(ADMIN)
    ensures d.granted ==> d.tracker == QueryState(t, username, now)
    ensures !d.granted ==> d.tracker == Fail(QueryState(t, username, now), username, now)
    ensures TrackerValid(t) ==> TrackerValid(d.tracker)
    ensures d.tracker.max == t.max
  {
    var locked := Query(t, username, now);
    var afterQuery := QueryState(t, username, now);
    if !locked && username == Some(ADMIN) && password == Some(ADMIN) then Decision(afterQuery, true)
    else Decision(Fail(afterQuery, username, now), false)
  }

  /**
   * A rejected known identity loses one attempt (counted after the possible
   * reset, never below 0) and its last failure moves to `now`; an identity
   * already locked out stays at 0 with its lockout extended to `now`.
   */
  lemma RejectionCountsAndExtends(t: Tracker, username: Option<string>, password: Option<string>, now: int)
    requires TrackerValid(t) && t.max >= 0 && IsKnownUser(username)
    requires !Decide(t, username, password, now).granted
    ensures var before := Expire(RecordOf(t, username), now);
            var after := RecordOf(Decide(t, username, password, now).tracker, username);
            && after.stamp == At(now)
            && after.remaining == (if before.remaining > 0 then before.remaining - 1 else 0)
            && (Query(t, username, now) ==> after.remaining == 0)
  {
  }

  /** Attempts by "admin" with a wrong password at each of `times`, in order. */
  function WrongLogins(t: Tracker, password: Option<string>, times: seq<int>): Tracker
    decreases |times|
  {
    if times == [] then t
    else Decide(WrongLogins(t, password, times[..|times| - 1]), Some(ADMIN), password, times[|times| - 1]).tracker
  }

  /** Each attempt comes at most five minutes after the one before it. */
  predicate WithinWindow(times: seq<int>)
  {
    forall i | 0 < i < |times| :: times[i] <= times[i - 1] + WINDOW_MS
  }

  /**
   * Wrong logins that follow each other within the window never trigger a
   * reset: each takes one attempt, down to 0, and the last one stamps the record.
   */
  lemma {:induction false} WrongLoginsCountDown(t: Tracker, password: Option<string>, times: seq<int>)
    requires TrackerValid(t) && t.max >= 0
    requires RecordOf(t, Some(ADMIN)).remaining == t.max
    requires password != Some(ADMIN) && WithinWindow(times)
    ensures TrackerValid(WrongLogins(t, password, times)) && WrongLogins(t, password, times).max == t.max
    ensures RecordOf(WrongLogins(t, password, times), Some(ADMIN)).remaining == Left(t.max, |times|)
    ensures times != [] ==> RecordOf(WrongLogins(t, password, times), Some(ADMIN)).stamp == At(times[|times| - 1])
    decreases |times|
  {
    if times != [] {
      var init := times[..|times| - 1];
      assert WithinWindow(init) by {
        forall i | 0 < i < |init| ensures init[i] <= init[i - 1] + WINDOW_MS {
          assert init[i] == times[i] && init[i - 1] == times[i - 1];
        }
      }
      WrongLoginsCountDown(t, password, init);
      if init != [] {
        assert times[|times| - 1] <= init[|init| - 1] + WINDOW_MS;
      }
    }
  }

  /** Three wrong logins within the window lock "admin" out: the right password is refused up to five minutes after the last. */
  lemma ThreeWrongLoginsLockOut(unknown: Record, password: Option<string>, times: seq<int>, now: int)
    requires unknown.max == 0 && CounterInRange(unknown)
    requires password != Some(ADMIN) && |times| == PASSWORD_ATTEMPTS && WithinWindow(times)
    requires now <= times[|times| - 1] + WINDOW_MS
    ensures !Decide(WrongLogins(InitialTracker(PASSWORD_ATTEMPTS, unknown), password, times), Some(ADMIN), Some(ADMIN), now).granted
  {
    var t := InitialTracker(PASSWORD_ATTEMPTS, unknown);
    WrongLoginsCountDown(t, password, times);
    var r := RecordOf(WrongLogins(t, password, times), Some(ADMIN));
    assert r.remaining == 0 && r.stamp == At(times[|times| - 1]);
    assert !Before(r.stamp, FiveMinutesAgo(now));
  }

  /** Once more than five minutes have passed since the last wrong login, the right password is accepted again. */
  lemma LoginAfterLockoutExpires(unknown: Record, password: Option<string>, times: seq<int>, now: int)
    requires unknown.max == 0 && CounterInRange(unknown)
    requires password != Some(ADMIN) && |times| == PASSWORD_ATTEMPTS && WithinWindow(times)
    requires now > times[|times| - 1] + WINDOW_MS
    ensures Decide(WrongLogins(InitialTracker(PASSWORD_ATTEMPTS, unknown), password, times), Some(ADMIN), Some(ADMIN), now).granted
  {
    var t := InitialTracker(PASSWORD_ATTEMPTS, unknown);
    WrongLoginsCountDown(t, password, times);
    var r := RecordOf(WrongLogins(t, password, times), Some(ADMIN));
    assert r.stamp == At(times[|times| - 1]) && r.max == PASSWORD_ATTEMPTS;
    assert Before(r.stamp, FiveMinutesAgo(now));
  }

  /** "POST".equalsIgnoreCase(method), with ASCII case folding. */
  function ToUpperAscii(c: char): char
  {
    if 'a' <= c <= 'z' then (c as int - 32) as char else c
  }

  function EqualsIgnoreCase(a: string, b: string): (equal: bool)
    ensures a == b ==> equal
    ensures equal ==> |a| == |b|
  {
    |a| == |b| && forall i | 0 <= i < |a| :: ToUpperAscii(a[i]) == ToUpperAscii(b[i])
  }

  /** The request methods taken as POST are exactly the sixteen spellings of "post" in upper and lower case. */
  lemma PostInAnyCase(m: string)
    ensures EqualsIgnoreCase(m, "POST")
        <==> |m| == 4 && m[0] in "pP" && m[1] in "oO" && m[2] in "sS" && m[3] in "tT"
  {
  }

  /** The `/login` handler and the tracker it owns. */
  class AuthenticationHandler {
    const failedLoginAttemptsManager: FailedLoginAttemptsManager

    constructor (unknownUser: Attempts)
      requires unknownUser.maxAttempts == 0 && CounterInRange(unknownUser.State())
      ensures failedLoginAttemptsManager.Valid() && fresh(failedLoginAttemptsManager)
      ensures failedLoginAttemptsManager.Abstract() == InitialTracker(PASSWORD_ATTEMPTS, unknownUser.State())
    {
      failedLoginAttemptsManager := new FailedLoginAttemptsManager(PASSWORD_ATTEMPTS, unknownUser);
    }

    /** Decides one login from the posted form and records the outcome in the tracker, as `Decide` states. */
    method Authenticate(postData: map<string, string>, now: int) returns (granted: bool)
      requires failedLoginAttemptsManager.Valid()
      modifies failedLoginAttemptsManager.Repr()
      ensures failedLoginAttemptsManager.Valid()
      ensures granted == Decide(old(failedLoginAttemptsManager.Abstract()), Get(postData, USERNAME_PARAMETER), Get(postData, PASSWORD_PARAMETER), now).granted
      ensures failedLoginAttemptsManager.Abstract()
           == Decide(old(failedLoginAttemptsManager.Abstract()), Get(postData, USERNAME_PARAMETER), Get(postData, PASSWORD_PARAMETER), now).tracker
    {
      var username := Get(postData, USERNAME_PARAMETER);
      var password := Get(postData, PASSWORD_PARAMETER);
      var locked := failedLoginAttemptsManager.IsLockedOut(username, now);
      if !locked && username == Some(ADMIN) && password == Some(ADMIN) {
        return true;
      }
      failedLoginAttemptsManager.RegisterFailedLoginAttempt(username, now);
      return false;
    }

    /**
     * A request to `/login`: anything but POST gets the bare login form and
     * leaves the tracker alone; a POST is decided from its form body and gets
     * the welcome page or the form with "Incorrect login". `None` is the
     * decoder's exception, which ends the request before any decision.
     */
    method Handle(requestMethod: string, body: string, urlDecode: string -> Option<string>, now: int)
      returns (response: Option<string>)
      requires failedLoginAttemptsManager.Valid()
      modifies failedLoginAttemptsManager.Repr()
      ensures failedLoginAttemptsManager.Valid()
      ensures !EqualsIgnoreCase(requestMethod, "POST") ==>
                && response == Some(LoginFormPage(Some("")))
                && failedLoginAttemptsManager.Abstract() == old(failedLoginAttemptsManager.Abstract())
      ensures EqualsIgnoreCase(requestMethod, "POST") && ParametersOf(Some(body), urlDecode).None? ==>
                && response.None?
                && failedLoginAttemptsManager.Abstract() == old(failedLoginAttemptsManager.Abstract())
      ensures EqualsIgnoreCase(requestMethod, "POST") && ParametersOf(Some(body), urlDecode).Some? ==>
                var postData := ParametersOf(Some(body), urlDecode).value;
                var d := Decide(old(failedLoginAttemptsManager.Abstract()), Get(postData, USERNAME_PARAMETER), Get(postData, PASSWORD_PARAMETER), now);
                && failedLoginAttemptsManager.Abstract() == d.tracker
                && response == Some(if d.granted then BuildWelcomePage(ADMIN) else LoginFormPage(Some("Incorrect login")))
    {
      ghost var before := failedLoginAttemptsManager.Abstract();
      if !EqualsIgnoreCase(requestMethod, "POST") {
        var page := BuildLoginFormResponse(Some(""));
        return Some(page);
      }
      var postData := ConvertParametersToMap(Some(body), urlDecode);
      if postData.None? {
        return None;
      }
      assert failedLoginAttemptsManager.Abstract() == before;
      ghost var username := Get(postData.value, USERNAME_PARAMETER);
      ghost var password := Get(postData.value, PASSWORD_PARAMETER);
      var granted := Authenticate(postData.value, now);
      ghost var after := failedLoginAttemptsManager.Abstract();
      assert after == Decide(before, username, password, now).tracker;
      if granted {
        assert Get(postData.value, USERNAME_PARAMETER) == Some(ADMIN);
        return Some(BuildWelcomePage(Get(postData.value, USERNAME_PARAMETER).value));
      }
      var page := BuildLoginFormResponse(Some("Incorrect login"));
      assert failedLoginAttemptsManager.Abstract() == after;
      return Some(page);
    }
  }

  /** What the `/test/transformtime` endpoint does, chosen from its query parameters. */
  datatype TimeCommand = DisableTransformer | ReportCurrentTime | SetTime(time: string) | ShowUsage

  /** `disable` wins over `current`, which wins over `time`; with none of them the usage text is shown. */
  function Dispatch(parameters: map<string, string>): (c: TimeCommand)
    ensures c == DisableTransformer <==> "disable" in parameters
    ensures c == ReportCurrentTime <==> "disable" !in parameters && "current" in parameters
    ensures c.SetTime? <==> "disable" !in parameters && "current" !in parameters && "time" in parameters
    ensures c.SetTime? ==> c.time == parameters["time"]
    ensures c == ShowUsage <==> "disable" !in parameters && "current" !in parameters && "time" !in parameters
  {
    if Get(parameters, "disable").Some? then DisableTransformer
    else if Get(parameters, "current").Some? then ReportCurrentTime
    else match Get(parameters, "time")
      case Some(time) => SetTime(time)
      case None => ShowUsage
  }
}
