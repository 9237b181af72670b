# Authentication web server with login lockout

This project models the example web server of TOPdesk's time-transformer
examples, written in Dafny. The server has a `/login` page, plus a
time-control endpoint `/test/transformtime` in testing mode. A POSTed
form is accepted only for the identity "admin" with password "admin". Three
wrong logins lock the account. The lockout ends when more than five minutes
have passed since the last failure.

The model has five modules:

- `Options`: an `Option` datatype and a map lookup that mirrors `Map.get`,
  where `None` stands for Java's `null`.
- `Lockout`: a value-level specification of the failed-attempt bookkeeping.
  - A `Record` holds the maximum, the remaining attempts and the time of the
    last failure. `Long.MIN_VALUE` (no failure yet) is the constructor `Never`.
  - A `Tracker` holds the records of the known identity and the shared record
    for every unknown identity.
  - Properties of the lockout are proved about these functions: when it begins,
    how long it lasts, and that a query is idempotent.
- `AttemptsManager`: the two mutable classes of `FailedLoginAttemptsManager.java`.
  - `Attempts` updates its counter and time stamp in place.
  - `FailedLoginAttemptsManager` owns a map from user name to `Attempts` and
    creates entries on demand.
  - Each method is proved against the `Lockout` functions through
    `State()` / `Abstract()`. A representation invariant `Valid()` is preserved.
- `HtmlUtils`: parsing of `a=b&c=d` form data, the `&#xNN;` escaping of the
  welcome name, and the page templates.
  - The loops of `convertParametersToMap` and `escapeHtml` are methods proved
    against specification functions.
  - The escaping is proved to round-trip through a character-reference decoder.
- `AuthenticationWebServer`:
  - `Decide` is the login decision of `authenticate`.
  - `AuthenticationHandler.Handle` is the `/login` request handler.
  - `Dispatch` is the parameter dispatch of the time-transformer endpoint.
  - The end-to-end scenarios are lemmas: three wrong logins lock out the right
    password, and that password works again once the window has passed.

Time is a parameter `now` in milliseconds, so no clock is read. URL decoding is
a parameter `urlDecode: string -> Option<string>`, where `None` means the
decoder threw.

Three behaviours of the code are worth knowing, because a reader might expect
otherwise. The model states each of them:

- **Unknown identities are always locked out.** `UNKNOWN_USER` is built with a
  maximum of 0 attempts (FailedLoginAttemptsManager.java:10). `find` hands it
  to every name other than "admin", and to `null` (line 31). So `isLockedOut`
  is true for all of them (lines 56-61). For `authenticate` this makes no
  difference, because such a login is refused either way. `Lockout.Query`
  states this behaviour.
- **A refused attempt during a lockout is still counted.** `authenticate`
  registers a failure whenever it refuses (AuthenticationWebServer.java:93-96).
  During a lockout this moves the time stamp forward, which extends the
  lockout. See `AuthenticationWebServer.RejectionCountsAndExtends`.
- **The five-minute boundary is locked.** The reset needs
  `stamp < now - 300000` (FailedLoginAttemptsManager.java:57). A query exactly
  five minutes after the last failure is therefore still locked out. See
  `Lockout.LockoutLastsFiveMinutes`.

## Model

| member | source | states |
|---|---|---|
| Options.Get | src/main/java/com/topdesk/timetransformer/examples/webserver/AuthenticationWebServer.java:91-92 | `Map.get`: a value exactly when the key is present, and then the stored value; null otherwise |
| Lockout.NewRecord | src/main/java/com/topdesk/timetransformer/examples/webserver/FailedLoginAttemptsManager.java:44-47 | a fresh record has all `max` attempts left and no failure time, and satisfies the counter invariant |
| Lockout.FiveMinutesAgo | src/test/java/com/topdesk/timetransformer/examples/TimeUtilsTest.java:25 | the bound lies exactly 300000 ms (five minutes) before `now` |
| Lockout.RegisterFailure | src/main/java/com/topdesk/timetransformer/examples/webserver/FailedLoginAttemptsManager.java:49-54 | a failure always stamps `now`; it takes one attempt when some are left and never goes below 0 (a non-positive counter stays unchanged); it keeps the counter invariant |
| Lockout.Expire | src/main/java/com/topdesk/timetransformer/examples/webserver/FailedLoginAttemptsManager.java:57-60 | a record whose last failure is strictly older than five minutes is reset to a fresh record; otherwise it is left unchanged; it keeps the counter invariant |
| Lockout.IsLocked | src/main/java/com/topdesk/timetransformer/examples/webserver/FailedLoginAttemptsManager.java:56-62 | after an expiry the answer is "maximum is 0"; otherwise it is locked iff no attempts remain |
| Lockout.LockoutLastsFiveMinutes | src/main/java/com/topdesk/timetransformer/examples/webserver/FailedLoginAttemptsManager.java:56-62 | an exhausted record stamped at `t0` is locked exactly while `now <= t0 + 300000`, and after that it resets to a fresh record |
| Lockout.QueryIdempotent | src/main/java/com/topdesk/timetransformer/examples/webserver/FailedLoginAttemptsManager.java:56-62 | asking twice at the same instant changes nothing the second time and gives the same answer |
| Lockout.InitialTracker | src/main/java/com/topdesk/timetransformer/examples/webserver/FailedLoginAttemptsManager.java:10-17 | the manager starts with no per-user records and satisfies the tracker invariant when the shared unknown record has maximum 0 |
| Lockout.RecordOf | src/main/java/com/topdesk/timetransformer/examples/webserver/FailedLoginAttemptsManager.java:27-37 | "admin" gets its stored record or a fresh one with the manager's maximum; every other name (and null) gets the shared unknown record with maximum 0 |
| Lockout.IsKnownUser | src/main/java/com/topdesk/timetransformer/examples/webserver/FailedLoginAttemptsManager.java:34-37 | only the exact name "admin" is known; a null name is unknown, and the check never throws |
| Lockout.QueryState | src/main/java/com/topdesk/timetransformer/examples/webserver/FailedLoginAttemptsManager.java:19-21 | a query expires only the queried identity's record, adds "admin" as a key only when "admin" is queried, and keeps the tracker invariant |
| Lockout.Query | src/main/java/com/topdesk/timetransformer/examples/webserver/FailedLoginAttemptsManager.java:10-21 | every unknown identity is locked out; otherwise the identity is locked iff its record has 0 attempts left after the expiry check |
| Lockout.Fail | src/main/java/com/topdesk/timetransformer/examples/webserver/FailedLoginAttemptsManager.java:23-25 | a failure changes only the failing identity's record, as `RegisterFailure` says, and keeps the tracker invariant |
| Lockout.TrackerQueryIdempotent | src/main/java/com/topdesk/timetransformer/examples/webserver/FailedLoginAttemptsManager.java:19-21 | a repeated query at the same instant leaves the tracker and the answer as the first query did |
| Lockout.FailuresCountDown | src/main/java/com/topdesk/timetransformer/examples/webserver/FailedLoginAttemptsManager.java:23-25 | after n failures of "admin" from a full record, max - n attempts are left (never below 0), and the last failure's time is stored |
| Lockout.LockedAfterMaxFailures | src/main/java/com/topdesk/timetransformer/examples/webserver/FailedLoginAttemptsManager.java:19-25 | `max` consecutive failures lock "admin" out until five minutes after the last one |
| Lockout.OpenAfterFewerFailures | src/main/java/com/topdesk/timetransformer/examples/webserver/FailedLoginAttemptsManager.java:19-25 | `max - 1` failures in a row do not lock "admin" out |
| AttemptsManager.Attempts.constructor | src/main/java/com/topdesk/timetransformer/examples/webserver/FailedLoginAttemptsManager.java:44-47 | the object starts in the state `NewRecord(maxAttempts)` |
| AttemptsManager.Attempts.RegisterFailedAttempt | src/main/java/com/topdesk/timetransformer/examples/webserver/FailedLoginAttemptsManager.java:49-54 | the fields are updated in place to `RegisterFailure` of the old state |
| AttemptsManager.Attempts.IsLockedOut | src/main/java/com/topdesk/timetransformer/examples/webserver/FailedLoginAttemptsManager.java:56-62 | the fields are updated in place to `Expire` of the old state, and the answer is `IsLocked` of the old state (0 attempts left after the expiry) |
| AttemptsManager.FailedLoginAttemptsManager.constructor | src/main/java/com/topdesk/timetransformer/examples/webserver/FailedLoginAttemptsManager.java:10-17 | the new manager is valid, has an empty map, and its abstract state is `InitialTracker` |
| AttemptsManager.FailedLoginAttemptsManager.Find | src/main/java/com/topdesk/timetransformer/examples/webserver/FailedLoginAttemptsManager.java:27-37 | "admin" gets its existing object or a fresh one stored under "admin"; every other name gets the shared unknown object and the map is unchanged; the object's state is `RecordOf` the old tracker |
| AttemptsManager.FailedLoginAttemptsManager.IsLockedOut | src/main/java/com/topdesk/timetransformer/examples/webserver/FailedLoginAttemptsManager.java:19-21 | the answer is `Query` of the old tracker and the new tracker is `QueryState`; the invariant holds; existing entries keep their objects |
| AttemptsManager.FailedLoginAttemptsManager.RegisterFailedLoginAttempt | src/main/java/com/topdesk/timetransformer/examples/webserver/FailedLoginAttemptsManager.java:23-25 | the new tracker is `Fail` of the old one; the invariant holds; existing entries keep their objects |
| HtmlUtils.Pieces | src/main/java/com/topdesk/timetransformer/examples/webserver/HtmlUtils.java:81 | splitting at every separator gives pieces free of the separator that join back to the input |
| HtmlUtils.JavaSplit | src/main/java/com/topdesk/timetransformer/examples/webserver/HtmlUtils.java:81 | `String.split` without a limit: the input itself when the separator is absent; otherwise separator-free pieces, the last one non-empty, that join back to the input minus a run of separators at its end (none at all when the input is only separators) |
| HtmlUtils.SplitFirst | src/main/java/com/topdesk/timetransformer/examples/webserver/HtmlUtils.java:82 | `split("=", 2)` gives one piece when there is no '=', and otherwise the text before the first '=' and everything after it |
| HtmlUtils.SplitAtFirstEquals | src/main/java/com/topdesk/timetransformer/examples/webserver/HtmlUtils.java:82 | a key without '=' followed by "=" and any value (which may hold '=') splits back into exactly that key and value |
| HtmlUtils.DecodePair | src/main/java/com/topdesk/timetransformer/examples/webserver/HtmlUtils.java:82-87 | a piece without '=' gives its decoded key with value ""; a decoder failure gives `None` |
| HtmlUtils.PairSplitsAtFirstEquals | src/main/java/com/topdesk/timetransformer/examples/webserver/HtmlUtils.java:82-84 | `key=value` decodes to the decoded key and the decoded whole value |
| HtmlUtils.DecodeAll | src/main/java/com/topdesk/timetransformer/examples/webserver/HtmlUtils.java:81-88 | decoding succeeds iff every piece decodes, and then gives one parameter per piece in order |
| HtmlUtils.Collect | src/main/java/com/topdesk/timetransformer/examples/webserver/HtmlUtils.java:80-89 | the map's keys are exactly the keys of the parameters |
| HtmlUtils.LastOccurrenceWins | src/main/java/com/topdesk/timetransformer/examples/webserver/HtmlUtils.java:81-88 | a parameter not followed by another with the same key determines that key's value |
| HtmlUtils.ConvertParametersToMap | src/main/java/com/topdesk/timetransformer/examples/webserver/HtmlUtils.java:75-90 | the loop builds `ParametersOf` its input: null data gives the empty map, a decoder failure aborts |
| HtmlUtils.CharUnits | src/main/java/com/topdesk/timetransformer/examples/webserver/HtmlUtils.java:45 | a character is one UTF-16 code unit below U+10000 and a surrogate pair (high then low) above it |
| HtmlUtils.ToCharArray | src/main/java/com/topdesk/timetransformer/examples/webserver/HtmlUtils.java:45 | the array has between one and two code units per character, and for text without characters above U+FFFF it holds exactly one code unit per character, equal to that character |
| HtmlUtils.Hex | src/main/java/com/topdesk/timetransformer/examples/webserver/HtmlUtils.java:46 | at least one digit, each an upper-case hexadecimal digit |
| HtmlUtils.FormatHex2 | src/main/java/com/topdesk/timetransformer/examples/webserver/HtmlUtils.java:46 | `%02X`: at least two digits, each an upper-case hexadecimal digit |
| HtmlUtils.ParseHexOfHex | src/main/java/com/topdesk/timetransformer/examples/webserver/HtmlUtils.java:46 | reading the hexadecimal digits back gives the formatted number |
| HtmlUtils.CharRef | src/main/java/com/topdesk/timetransformer/examples/webserver/HtmlUtils.java:46 | `"&#x%02X;"`: the reference starts with `&#x`, ends with `;`, and is at least six characters long, with at least two upper-case hex digits between |
| HtmlUtils.Escaped | src/main/java/com/topdesk/timetransformer/examples/webserver/HtmlUtils.java:42-49 | the escaped text holds only `&#x`, hex digits and `;`, never `<`, `>` or a quote, and takes at least six characters per code unit |
| HtmlUtils.EscapeHtml | src/main/java/com/topdesk/timetransformer/examples/webserver/HtmlUtils.java:42-49 | the loop over `toCharArray` produces `Escaped` of the text's code units |
| HtmlUtils.DecodeOneRef | src/main/java/com/topdesk/timetransformer/examples/webserver/HtmlUtils.java:46 | one `&#xNN;` reference decodes back to its code unit, whatever follows it |
| HtmlUtils.EscapedDecodes | src/main/java/com/topdesk/timetransformer/examples/webserver/HtmlUtils.java:42-49 | decoding the character references of the escaped text gives back exactly the original code units |
| HtmlUtils.InBody | src/main/java/com/topdesk/timetransformer/examples/webserver/HtmlUtils.java:122-124 | the page is the fixed head, then the contents unchanged, then the fixed tail |
| HtmlUtils.BuildWelcomePage | src/main/java/com/topdesk/timetransformer/examples/webserver/HtmlUtils.java:38-40 | the page is the body head and `<span id="welcome">Welcome `, then the name, then `</span>` and the body tail; the name is written only as character references, with no `<`, and those decode back to the name's code units |
| HtmlUtils.BuildLoginFormResponse | src/main/java/com/topdesk/timetransformer/examples/webserver/HtmlUtils.java:96-120 | a null or empty message gives the bare login form in the body; any other message goes in a "message" fieldset before the form |
| HtmlUtils.MessageShownVerbatim | src/main/java/com/topdesk/timetransformer/examples/webserver/HtmlUtils.java:98-100 | a non-empty message appears unescaped right after the fieldset opening at the start of the body |
| HtmlUtils.NoMessageNoFieldset | src/main/java/com/topdesk/timetransformer/examples/webserver/HtmlUtils.java:98-101 | with no message, the body does not start with the message fieldset |
| AuthenticationWebServer.Decide | src/main/java/com/topdesk/timetransformer/examples/webserver/AuthenticationWebServer.java:90-98 | access is granted iff the identity is not locked out and both username and password are "admin"; a grant registers no failure, and every refusal registers one after the expiry check |
| AuthenticationWebServer.RejectionCountsAndExtends | src/main/java/com/topdesk/timetransformer/examples/webserver/AuthenticationWebServer.java:93-96 | a refused "admin" loses one attempt (never below 0) and its failure time moves to `now`, so a locked-out account stays locked and its lockout is extended |
| AuthenticationWebServer.WrongLoginsCountDown | src/main/java/com/topdesk/timetransformer/examples/webserver/AuthenticationWebServer.java:90-98 | n wrong-password logins, each within five minutes of the one before, leave max - n attempts (never below 0) and stamp the last time |
| AuthenticationWebServer.ThreeWrongLoginsLockOut | src/test/java/com/topdesk/timetransformer/examples/webserver/AuthenticationWebserverE2ECase.java:69-74 | after three wrong logins the correct credentials are refused until five minutes after the last one, inclusive |
| AuthenticationWebServer.LoginAfterLockoutExpires | src/test/java/com/topdesk/timetransformer/examples/webserver/AuthenticationWebserverE2ECase.java:76-82 | after three wrong logins the correct credentials are accepted again once more than five minutes have passed |
| AuthenticationWebServer.EqualsIgnoreCase | src/main/java/com/topdesk/timetransformer/examples/webserver/AuthenticationWebServer.java:76 | equal strings always match, and matching strings have the same length |
| AuthenticationWebServer.PostInAnyCase | src/main/java/com/topdesk/timetransformer/examples/webserver/AuthenticationWebServer.java:76 | the methods taken as POST are exactly the four-letter words spelt p/P, o/O, s/S, t/T |
| AuthenticationWebServer.AuthenticationHandler.constructor | src/main/java/com/topdesk/timetransformer/examples/webserver/AuthenticationWebServer.java:72 | the handler owns a new valid manager with 3 attempts and no records |
| AuthenticationWebServer.AuthenticationHandler.Authenticate | src/main/java/com/topdesk/timetransformer/examples/webserver/AuthenticationWebServer.java:90-98 | the answer and the manager's new state are those of `Decide` for the posted username and password |
| AuthenticationWebServer.AuthenticationHandler.Handle | src/main/java/com/topdesk/timetransformer/examples/webserver/AuthenticationWebServer.java:75-88 | a request other than POST (case-insensitive) gets the login form and leaves the tracker alone; a POST whose body fails to decode aborts with no change; otherwise the response is the welcome page for a grant or the "Incorrect login" form, and the tracker is `Decide`'s |
| AuthenticationWebServer.Dispatch | src/main/java/com/topdesk/timetransformer/examples/webserver/AuthenticationWebServer.java:48-67 | `disable` wins over `current`, which wins over `time`, whose value is kept; with none of them the usage text is chosen |

## Left out

- HTTP transport is not modelled: `main`, `sendResponse`/`sendHtmlResponse`/`sendTextResponse`, response headers and the UTF-8 encoding of responses. `Handle` returns the page it would send.
- `consumePostRequestBody` and `readInputStreamIntoString` are not modelled: `Handle` receives the request body as a string that is already decoded.
- `URLDecoder.decode` is a parameter, and `None` stands for any exception it throws. The exception that can actually occur is `IllegalArgumentException` on a malformed `%` escape. It escapes `convertParametersToMap` unwrapped and ends the request before any decision. The `UnsupportedEncodingException` that HtmlUtils.java:84-86 wraps cannot occur, because the charset is UTF-8.
- Concurrency is not modelled. `main` (AuthenticationWebServer.java:26-33) sets no executor, so the JDK server runs every handler on its single dispatcher thread, and requests are handled one after the other, as in the model. `loginAttempts` is a `ConcurrentHashMap`, whose `computeIfAbsent` is atomic. The two fields of `Attempts` are read and then written without synchronisation (FailedLoginAttemptsManager.java:50-53 and 57-61), so they would race only under a multi-threaded executor.
- The clock is not modelled. Every operation takes `now` as a parameter. `authenticate` reads the clock once in `isLockedOut` and again in `registerFailedLoginAttempt`; the model uses one instant for both.
- TimeUtils.java is not part of this model. `Lockout.FiveMinutesAgo` follows its test (TimeUtilsTest.java:25): the bound is `now - 300000`.
- 64-bit `long` arithmetic is not modelled. Times are unbounded integers, so `now - 300000` cannot wrap around. The `Long.MIN_VALUE` sentinel is the constructor `Never`, which is older than every bound.
- `int` overflow of `maxAttempts` and `remainingAttempts` is not modelled. The counter only decreases while it is positive, so it cannot wrap.
- The static `UNKNOWN_USER` is passed to the manager's constructor, which requires a maximum of 0. Its time stamp is shared by all unknown identities, exactly as in the code.
- AuthenticationWebServer.EqualsIgnoreCase: folds only ASCII letters. Java also folds some non-ASCII characters (U+017F and U+0131 compare equal to "S" and "I"), so a method such as "POſT" counts as POST in Java but not in the model.
- AuthenticationWebServer.Dispatch: chooses only the action. `Long.parseLong` of `time` (and its `NumberFormatException`), `TimeTransformer.setTime`, the reported clock value and the response texts are not modelled.
- HtmlUtils.ToCharArray: a Dafny `char` is a Unicode scalar value, so a Java string holding an unpaired surrogate cannot be represented.
- HtmlUtils.BuildWelcomePage: takes a non-null name. The code passes `postData.get("username")`, which is "admin" whenever access is granted, so the `null` case of `String.format` and `toCharArray` never arises.
- `String.split` is modelled for the one-character separators used here ("&" and "="), not for general regular expressions.
- `Collections.emptyMap()` is immutable while the `HashMap` is not. The model returns the same empty map value in both cases.
- AuthenticationWebServer.RejectionCountsAndExtends: is stated only for a non-negative maximum of attempts. The server always uses 3.
