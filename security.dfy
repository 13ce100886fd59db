/** The security helpers: the session-backed rate limiter, the login-attempt log that drives
    account lockout, the security-event log, the XSS and SQL-injection heuristics, filename
    sanitising and upload validation. */
module Security {
  import opened Common
  import opened Db

  const MaxLoginAttempts := 5
  const LockoutDuration := 900

  /** The request's `REMOTE_ADDR` and `HTTP_USER_AGENT`, either of which may be absent. */
  datatype Client = Client(remoteAddr: Option<string>, userAgent: Option<string>)

  /** `$_SERVER['REMOTE_ADDR'] ?? 'unknown'`, the address written into the logs. */
  function LoggedIp(client: Client): string
  {
    GetOr(client.remoteAddr, "unknown")
  }

  function LoggedUserAgent(client: Client): string
  {
    GetOr(client.userAgent, "unknown")
  }

  // ================================================================ rate limiting

  /** `$_SESSION[$key] ?? []`: the stored timestamps of one identifier. */
  function Attempts(store: map<string, seq<int>>, id: string): seq<int>
  {
    if id in store then store[id] else []
  }

  /** The `array_filter` of the limiter: a timestamp survives iff it is strictly younger
      than the window, so an attempt exactly `window` seconds old is dropped. */
  function Prune(attempts: seq<int>, now: int, window: int): (kept: seq<int>)
    ensures |kept| <= |attempts|
    ensures forall t :: t in kept <==> t in attempts && now - t < window
  {
    if attempts == [] then []
    else
      assert attempts == [attempts[0]] + attempts[1..];
      (if now - attempts[0] < window then [attempts[0]] else []) + Prune(attempts[1..], now, window)
  }

  /** The filter distributes over concatenation, so survivors keep their order and repeats. */
  lemma {:induction false} PruneAppend(a: seq<int>, b: seq<int>, now: int, window: int)
    ensures Prune(a + b, now, window) == Prune(a, now, window) + Prune(b, now, window)
    decreases |a|
  {
    if a == [] {
      assert a + b == b;
    } else {
      assert (a + b)[0] == a[0] && (a + b)[1..] == a[1..] + b;
      PruneAppend(a[1..], b, now, window);
    }
  }

  /** Each timestamp stays where it stands iff it is younger than the window. */
  lemma PruneDrops(a: seq<int>, t: int, b: seq<int>, now: int, window: int)
    ensures Prune(a + [t] + b, now, window)
         == Prune(a, now, window) + (if now - t < window then [t] else []) + Prune(b, now, window)
  {
    PruneAppend(a + [t], b, now, window);
    PruneAppend(a, [t], now, window);
    assert [t][1..] == [];
  }

  /** The verdict of one `checkRateLimit` call and the session store it leaves behind. */
  datatype Throttle = Throttle(allowed: bool, store: map<string, seq<int>>)

  /** `checkRateLimit($identifier, $maxAttempts, $windowSeconds)` at time `now`. */
  function RateLimit(store: map<string, seq<int>>, id: string, maxAttempts: int, window: int, now: int): (r: Throttle)
    ensures r.allowed <==> |Prune(Attempts(store, id), now, window)| < maxAttempts
    ensures !r.allowed ==> r.store == store
    ensures r.allowed ==> id in r.store && Attempts(r.store, id) == Prune(Attempts(store, id), now, window) + [now]
    ensures r.allowed ==> |Prune(Attempts(r.store, id), now, window)| <= maxAttempts
    ensures forall k :: k != id ==> (k in r.store <==> k in store) && Attempts(r.store, k) == Attempts(store, k)
  {
    var kept := Prune(Attempts(store, id), now, window);
    if |kept| >= maxAttempts then Throttle(false, store)
    else Throttle(true, store[id := kept + [now]])
  }

  /** The limiter on the session: prune, refuse at the cap, otherwise append and store. */
  method CheckRateLimit(session: Session, id: string, maxAttempts: int, window: int, now: int)
    returns (allowed: bool)
    modifies session`rateLimits
    ensures Throttle(allowed, session.rateLimits) == RateLimit(old(session.rateLimits), id, maxAttempts, window, now)
  {
    var attempts := Attempts(session.rateLimits, id);
    attempts := Prune(attempts, now, window);
    if |attempts| >= maxAttempts {
      return false;
    }
    attempts := attempts + [now];
    session.rateLimits := session.rateLimits[id := attempts];
    return true;
  }

  /** The verdicts of consecutive calls for one identifier at the given times, and the final store. */
  function Run(store: map<string, seq<int>>, id: string, maxAttempts: int, window: int, times: seq<int>)
    : (r: (seq<bool>, map<string, seq<int>>))
    ensures |r.0| == |times|
    decreases |times|
  {
    if times == [] then ([], store)
    else
      var prev := Run(store, id, maxAttempts, window, times[..|times| - 1]);
      var step := RateLimit(prev.1, id, maxAttempts, window, times[|times| - 1]);
      (prev.0 + [step.allowed], step.store)
  }

  predicate NonDecreasing(times: seq<int>)
  {
    forall i, j :: 0 <= i <= j < |times| ==> times[i] <= times[j]
  }

  /** Pruning keeps a list whose every timestamp is inside the window. */
  lemma {:induction false} PruneKeepsAll(attempts: seq<int>, now: int, window: int)
    requires forall i :: 0 <= i < |attempts| ==> now - attempts[i] < window
    ensures Prune(attempts, now, window) == attempts
  {
    if attempts != [] {
      PruneKeepsAll(attempts[1..], now, window);
    }
  }

  /** Pruning empties a list whose every timestamp is at least a window old. */
  lemma {:induction false} PruneDropsStale(attempts: seq<int>, now: int, window: int)
    requires forall i :: 0 <= i < |attempts| ==> now - attempts[i] >= window
    ensures Prune(attempts, now, window) == []
  {
    if attempts != [] {
      PruneDropsStale(attempts[1..], now, window);
    }
  }

  /** From a fresh identifier, up to `maxAttempts` calls that all fall inside one window are
      allowed, and the store then holds exactly their timestamps. */
  lemma {:induction false} RunWithinWindow(store: map<string, seq<int>>, id: string, maxAttempts: int, window: int, times: seq<int>, start: int)
    requires Attempts(store, id) == []
    requires |times| <= maxAttempts
    requires forall i :: 0 <= i < |times| ==> start <= times[i] < start + window
    ensures forall i :: 0 <= i < |times| ==> Run(store, id, maxAttempts, window, times).0[i]
    ensures Attempts(Run(store, id, maxAttempts, window, times).1, id) == times
  {
    if times != [] {
      var init := times[..|times| - 1];
      var now := times[|times| - 1];
      assert forall i :: 0 <= i < |init| ==> init[i] == times[i];
      RunWithinWindow(store, id, maxAttempts, window, init, start);
      var prev := Run(store, id, maxAttempts, window, init);
      forall i | 0 <= i < |init| ensures now - init[i] < window {
        assert start <= init[i];
      }
      PruneKeepsAll(init, now, window);
      RunStepAllowed(store, id, maxAttempts, window, times, prev);
    }
  }

  /** One more call, allowed because the pruned list is the previous one and below the cap. */
  lemma RunStepAllowed(store: map<string, seq<int>>, id: string, maxAttempts: int, window: int, times: seq<int>,
                       prev: (seq<bool>, map<string, seq<int>>))
    requires times != [] && prev == Run(store, id, maxAttempts, window, times[..|times| - 1])
    requires forall i :: 0 <= i < |prev.0| ==> prev.0[i]
    requires Attempts(prev.1, id) == times[..|times| - 1] && |times| <= maxAttempts
    requires Prune(times[..|times| - 1], times[|times| - 1], window) == times[..|times| - 1]
    ensures forall i :: 0 <= i < |times| ==> Run(store, id, maxAttempts, window, times).0[i]
    ensures Attempts(Run(store, id, maxAttempts, window, times).1, id) == times
  {
    var init := times[..|times| - 1];
    var now := times[|times| - 1];
    var step := RateLimit(prev.1, id, maxAttempts, window, now);
    assert step.allowed;
    assert Attempts(step.store, id) == times by {
      SnocLast(times);
    }
    assert Run(store, id, maxAttempts, window, times) == (prev.0 + [true], step.store);
    AllTrueSnoc(prev.0);
  }

  lemma SnocLast(xs: seq<int>)
    requires xs != []
    ensures xs[..|xs| - 1] + [xs[|xs| - 1]] == xs
  {
  }

  lemma AllTrueSnoc(flags: seq<bool>)
    requires forall i :: 0 <= i < |flags| ==> flags[i]
    ensures forall i :: 0 <= i < |flags| + 1 ==> (flags + [true])[i]
  {
  }

  /** With cap N, the first N calls inside one window from a fresh identifier are allowed and
      the (N+1)-th is refused. */
  lemma NthPlusOneRefused(store: map<string, seq<int>>, id: string, maxAttempts: nat, window: int, times: seq<int>)
    requires Attempts(store, id) == []
    requires |times| == maxAttempts + 1
    requires NonDecreasing(times)
    requires times[|times| - 1] - times[0] < window
    ensures forall i :: 0 <= i < maxAttempts ==> Run(store, id, maxAttempts, window, times).0[i]
    ensures !Run(store, id, maxAttempts, window, times).0[maxAttempts]
  {
    var init := times[..maxAttempts];
    var now := times[maxAttempts];
    forall i | 0 <= i < |init| ensures times[0] <= init[i] < times[0] + window {
      assert init[i] == times[i] && times[i] <= times[maxAttempts];
    }
    RunWithinWindow(store, id, maxAttempts, window, init, times[0]);
    forall i | 0 <= i < |init| ensures now - init[i] < window {
      assert times[0] <= init[i];
    }
    PruneKeepsAll(init, now, window);
    assert times[..|times| - 1] == init;
  }

  /** Once every stored attempt has aged out of the window, the next call is allowed again. */
  lemma StaleAttemptsFreeTheLimit(store: map<string, seq<int>>, id: string, maxAttempts: int, window: int, now: int)
    requires maxAttempts >= 1
    requires forall i :: 0 <= i < |Attempts(store, id)| ==> now - Attempts(store, id)[i] >= window
    ensures RateLimit(store, id, maxAttempts, window, now).allowed
    ensures Attempts(RateLimit(store, id, maxAttempts, window, now).store, id) == [now]
  {
    PruneDropsStale(Attempts(store, id), now, window);
  }

  // ================================================================ login attempts

  /** `SELECT COUNT(*) FROM login_attempts WHERE email = ? AND created_at > ?`. */
  function CountRecent(log: seq<LoginAttempt>, email: string, cutoff: int): (n: nat)
    ensures n <= |log|
    decreases |log|
  {
    if log == [] then 0
    else
      var last := log[|log| - 1];
      CountRecent(log[..|log| - 1], email, cutoff) + (if last.email == email && last.createdAt > cutoff then 1 else 0)
  }

  /** `DELETE FROM login_attempts WHERE email = ?`. */
  function WithoutEmail(log: seq<LoginAttempt>, email: string): (r: seq<LoginAttempt>)
    ensures forall a :: a in r <==> a in log && a.email != email
    decreases |log|
  {
    if log == [] then []
    else
      var last := log[|log| - 1];
      assert log == log[..|log| - 1] + [last];
      WithoutEmail(log[..|log| - 1], email) + (if last.email != email then [last] else [])
  }

  /** `checkLoginAttempts`: fewer than five attempts (successful ones included) for the email
      in the last fifteen minutes. */
  method CheckLoginAttempts(db: Database, email: string, now: int) returns (allowed: bool)
    ensures allowed <==> CountRecent(db.loginAttempts, email, now - LockoutDuration) < MaxLoginAttempts
  {
    var attempts := CountRecent(db.loginAttempts, email, now - LockoutDuration);
    allowed := attempts < MaxLoginAttempts;
  }

  /** `logSecurityEvent`: one event appended, whichever transport takes it; it never raises. */
  method LogSecurityEvent(db: Database, client: Client, event: string, context: seq<(string, string)>, now: int)
    modifies db`securityLogs
    ensures db.securityLogs == old(db.securityLogs) + [SecurityEvent(event, LoggedIp(client), LoggedUserAgent(client), context, now)]
  {
    db.securityLogs := db.securityLogs + [SecurityEvent(event, LoggedIp(client), LoggedUserAgent(client), context, now)];
  }

  /** The events `recordLoginAttempt` logs: a `failed_login` event exactly when it failed. */
  function AttemptEvents(client: Client, email: string, success: bool, now: int): seq<SecurityEvent>
  {
    if success then [] else [SecurityEvent("failed_login", LoggedIp(client), LoggedUserAgent(client), [("email", email)], now)]
  }

  /** `recordLoginAttempt`: exactly one attempt row carrying the success flag. */
  method RecordLoginAttempt(db: Database, client: Client, email: string, success: bool, now: int)
    modifies db`loginAttempts, db`securityLogs
    ensures db.loginAttempts == old(db.loginAttempts) + [LoginAttempt(email, LoggedIp(client), success, now)]
    ensures db.securityLogs == old(db.securityLogs) + AttemptEvents(client, email, success, now)
  {
    db.loginAttempts := db.loginAttempts + [LoginAttempt(email, LoggedIp(client), success, now)];
    if !success {
      LogSecurityEvent(db, client, "failed_login", [("email", email)], now);
    }
  }

  /** `clearLoginAttempts`: the email's attempt rows, and only those, are deleted. */
  method ClearLoginAttempts(db: Database, email: string)
    modifies db`loginAttempts
    ensures db.loginAttempts == WithoutEmail(old(db.loginAttempts), email)
  {
    db.loginAttempts := WithoutEmail(db.loginAttempts, email);
  }

  /** One more recorded attempt, successful or not, raises the email's recent count by one. */
  lemma RecordedAttemptCounts(log: seq<LoginAttempt>, a: LoginAttempt, email: string, cutoff: int)
    ensures CountRecent(log + [a], email, cutoff)
         == CountRecent(log, email, cutoff) + (if a.email == email && a.createdAt > cutoff then 1 else 0)
  {
    assert (log + [a])[..|log|] == log;
  }

  /** Clearing an email leaves it no recent attempts. */
  lemma {:induction false} ClearedEmailCountsZero(log: seq<LoginAttempt>, email: string, cutoff: int)
    ensures CountRecent(WithoutEmail(log, email), email, cutoff) == 0
    decreases |log|
  {
    if log != [] {
      var init, last := log[..|log| - 1], log[|log| - 1];
      var w := WithoutEmail(init, email);
      ClearedEmailCountsZero(init, email, cutoff);
      if last.email != email {
        assert WithoutEmail(log, email) == w + [last];
        RecordedAttemptCounts(w, last, email, cutoff);
      } else {
        assert WithoutEmail(log, email) == w;
      }
    }
  }

  /** Clearing one email does not change any other email's count. */
  lemma {:induction false} ClearKeepsOtherEmails(log: seq<LoginAttempt>, email: string, other: string, cutoff: int)
    requires other != email
    ensures CountRecent(WithoutEmail(log, email), other, cutoff) == CountRecent(log, other, cutoff)
    decreases |log|
  {
    if log != [] {
      var init, last := log[..|log| - 1], log[|log| - 1];
      var w := WithoutEmail(init, email);
      ClearKeepsOtherEmails(init, email, other, cutoff);
      assert log == init + [last];
      RecordedAttemptCounts(init, last, other, cutoff);
      if last.email != email {
        assert WithoutEmail(log, email) == w + [last];
        RecordedAttemptCounts(w, last, other, cutoff);
      } else {
        assert WithoutEmail(log, email) == w;
      }
    }
  }

  /** Five attempts for an email within the last fifteen minutes lock it, whatever their outcome. */
  lemma {:induction false} FiveRecentAttemptsLock(log: seq<LoginAttempt>, email: string, now: int, recent: seq<LoginAttempt>)
    requires |recent| == MaxLoginAttempts
    requires forall i :: 0 <= i < |recent| ==> recent[i].email == email && recent[i].createdAt > now - LockoutDuration
    ensures CountRecent(log + recent, email, now - LockoutDuration) >= MaxLoginAttempts
  {
    AppendedRecentCount(log, email, now - LockoutDuration, recent);
  }

  lemma {:induction false} AppendedRecentCount(log: seq<LoginAttempt>, email: string, cutoff: int, recent: seq<LoginAttempt>)
    requires forall i :: 0 <= i < |recent| ==> recent[i].email == email && recent[i].createdAt > cutoff
    ensures CountRecent(log + recent, email, cutoff) == CountRecent(log, email, cutoff) + |recent|
    decreases |recent|
  {
    if recent == [] {
      assert log + recent == log;
    } else {
      var init, last := recent[..|recent| - 1], recent[|recent| - 1];
      AppendedRecentCount(log, email, cutoff, init);
      assert log + recent == (log + init) + [last];
      RecordedAttemptCounts(log + init, last, email, cutoff);
    }
  }

  // ================================================================ injection heuristics

  const XssPatterns: seq<string> := [
    "<script", "javascript:", "onclick=", "onerror=", "onload=", "onmouseover=",
    "onfocus=", "eval(", "expression(", "vbscript:", "data:text/html"]

  /** `detectXSS`: one of the eleven fragments occurs, ignoring ASCII case. */
  function DetectXss(input: string): (r: bool)
    ensures r <==> exists i :: 0 <= i < |XssPatterns| && ContainsCI(input, XssPatterns[i])
  {
    AnyContainsCI(input, XssPatterns)
  }

  predicate IsQuote(c: char)
  {
    c == '\'' || c == '"' || c == '`'
  }

  predicate NoLineFeedBetween(s: string, i: int, j: int)
    requires 0 <= i <= j <= |s|
  {
    forall k :: i <= k < j ==> s[k] != '\n'
  }

  /** The pattern `('|"|`).*('|"|`)`: two quote characters with no line feed between them,
      since `.` does not match a line feed. */
  predicate HasQuotePair(s: string)
  {
    exists i, j :: 0 <= i < j < |s| && IsQuote(s[i]) && IsQuote(s[j]) && NoLineFeedBetween(s, i + 1, j)
  }

  /** The pattern `(-{2}|\/\*|\*\/)`: an SQL comment marker. */
  predicate HasCommentMarker(s: string)
  {
    Contains(s, "--") || Contains(s, "/*") || Contains(s, "*/")
  }

  /** `detectSQLInjection`. `keywordHit` is the verdict of the two keyword patterns
      (`\b(SELECT|...)\b` and `\b(OR|AND)\s+\d+\s*=\s*\d+`), which are not modelled. */
  function DetectSqlInjection(input: string, keywordHit: bool): (r: bool)
    ensures r <==> keywordHit || HasQuotePair(input) || HasCommentMarker(input)
  {
    if keywordHit then true
    else if HasQuotePair(input) then true
    else HasCommentMarker(input)
  }

  /** A string without quote characters holds no quote pair. */
  lemma NoQuoteNoPair(s: string)
    requires '\'' !in s && '"' !in s && '`' !in s
    ensures !HasQuotePair(s)
  {
    forall i | 0 <= i < |s| ensures !IsQuote(s[i]) {
      assert s[i] in s;
    }
  }

  /** A string without '-' and '*' holds no comment marker. */
  lemma NoCommentCharsNoMarker(s: string)
    requires '-' !in s && '*' !in s
    ensures !HasCommentMarker(s)
  {
    NotContainsWithout(s, "--", 0);
    NotContainsWithout(s, "/*", 1);
    NotContainsWithout(s, "*/", 0);
  }

  /** The injections the unit tests list are detected by the comment and quote patterns alone,
      except the UNION SELECT one, which only the keyword pattern catches. */
  lemma SqlInjectionExamples(keywordHit: bool)
    ensures DetectSqlInjection("1' OR 1=1--", keywordHit)
    ensures DetectSqlInjection("'; DROP TABLE users;--", keywordHit)
    ensures DetectSqlInjection("admin'/*", keywordHit)
    ensures DetectSqlInjection("1 UNION SELECT * FROM users", true)
    ensures !HasQuotePair("1 UNION SELECT * FROM users") && !HasCommentMarker("1 UNION SELECT * FROM users")
  {
    assert DetectSqlInjection("1' OR 1=1--", keywordHit) by {
      assert OccursAt("1' OR 1=1--", "--", 9);
    }
    assert DetectSqlInjection("'; DROP TABLE users;--", keywordHit) by {
      assert OccursAt("'; DROP TABLE users;--", "--", 20);
    }
    assert DetectSqlInjection("admin'/*", keywordHit) by {
      assert OccursAt("admin'/*", "/*", 6);
    }
    UnionSelectNeedsKeywords();
  }

  lemma UnionSelectNeedsKeywords()
    ensures !HasQuotePair("1 UNION SELECT * FROM users") && !HasCommentMarker("1 UNION SELECT * FROM users")
  {
    UnionSelectQuoteFree();
    UnionSelectMarkerFree();
  }

  lemma UnionSelectQuoteFree()
    ensures !HasQuotePair("1 UNION SELECT * FROM users")
  {
    var s := "1 UNION SELECT * FROM users";
    forall i | 0 <= i < |s| ensures s[i] != '\'' && s[i] != '"' && s[i] != '`' {
    }
    NoQuoteNoPair(s);
  }

  lemma UnionSelectMarkerFree()
    ensures !HasCommentMarker("1 UNION SELECT * FROM users")
  {
    var s := "1 UNION SELECT * FROM users";
    forall i | 0 <= i < |s| ensures s[i] != '-' && s[i] != '/' {
    }
    assert !Contains(s, "--") by {
      NotContainsWithout(s, "--", 0);
    }
    assert !Contains(s, "/*") by {
      NotContainsWithout(s, "/*", 0);
    }
    assert !Contains(s, "*/") by {
      NotContainsWithout(s, "*/", 1);
    }
  }

  /** A text without quotes, '-' and '*' can only be flagged by the keyword patterns. */
  lemma SqlSafe(s: string)
    requires '\'' !in s && '"' !in s && '`' !in s && '-' !in s && '*' !in s
    ensures !DetectSqlInjection(s, false)
  {
    NoQuoteNoPair(s);
    NoCommentCharsNoMarker(s);
  }

  /** The safe inputs of the unit tests pass whenever the keyword patterns do not fire. */
  lemma SqlSafeExamples()
    ensures !DetectSqlInjection("normal text", false)
    ensures !DetectSqlInjection("password123", false)
    ensures !DetectSqlInjection("user@email.com", false)
    ensures !DetectSqlInjection("Product Name 2024", false)
  {
    SqlSafeText("normal text");
    SqlSafeText("password123");
    SqlSafeText("user@email.com");
    SqlSafeText("Product Name 2024");
  }

  /** Letters, digits, spaces and '@' and '.' are all harmless to the SQL heuristic. */
  lemma SqlSafeText(s: string)
    requires forall i :: 0 <= i < |s| ==> IsPlainChar(s[i])
    ensures !DetectSqlInjection(s, false)
  {
    forall i | 0 <= i < |s| ensures s[i] != '\'' && s[i] != '"' && s[i] != '`' && s[i] != '-' && s[i] != '*' {
      assert IsPlainChar(s[i]);
    }
    SqlSafe(s);
  }

  predicate IsPlainChar(c: char)
  {
    'a' <= c <= 'z' || 'A' <= c <= 'Z' || '0' <= c <= '9' || c == ' ' || c == '@' || c == '.'
  }

  /** The XSS attempts of the unit tests are detected. */
  lemma XssExamples()
    ensures DetectXss("<script>alert(\"xss\")</script>")
    ensures DetectXss("javascript:alert(1)")
    ensures DetectXss("<img src=\"x\" onerror=\"alert(1)\">")
    ensures DetectXss("<body onload=\"evil()\">")
    ensures DetectXss("eval(malicious_code)")
  {
    XssScriptTag();
    XssJavascriptUrl();
    XssOnerror();
    XssOnload();
    XssEval();
  }

  lemma XssScriptTag()
    ensures DetectXss("<script>alert(\"xss\")</script>")
  {
    XssFlags("", 0, "<script", ">alert(\"xss\")</script>");
    assert "" + "<script" + ">alert(\"xss\")</script>" == "<script>alert(\"xss\")</script>";
  }

  lemma XssJavascriptUrl()
    ensures DetectXss("javascript:alert(1)")
  {
    XssFlags("", 1, "javascript:", "alert(1)");
    assert "" + "javascript:" + "alert(1)" == "javascript:alert(1)";
  }

  lemma XssOnerror()
    ensures DetectXss("<img src=\"x\" onerror=\"alert(1)\">")
  {
    var s := "<img src=\"x\" onerror=\"alert(1)\">";
    assert s[13..21] == "onerror=";
    ContainsCIAtExact(s, "onerror=", 13);
    assert XssPatterns[3] == "onerror=";
  }

  lemma XssOnload()
    ensures DetectXss("<body onload=\"evil()\">")
  {
    XssFlags("<body ", 4, "onload=", "\"evil()\">");
    assert "<body " + "onload=" + "\"evil()\">" == "<body onload=\"evil()\">";
  }

  lemma XssEval()
    ensures DetectXss("eval(malicious_code)")
  {
    XssFlags("", 7, "eval(", "malicious_code)");
    assert "" + "eval(" + "malicious_code)" == "eval(malicious_code)";
  }

  /** Any text with one of the fragments inside is flagged. */
  lemma XssFlags(a: string, i: nat, p: string, b: string)
    requires i < |XssPatterns| && XssPatterns[i] == p
    ensures DetectXss(a + p + b)
  {
    ContainsCIInside(a, p, b);
  }

  /** Seven of the fragments end in '=' or '('; a text without those two characters can only
      be flagged by the other four. */
  lemma XssNeedsFragment(s: string)
    requires '=' !in s && '(' !in s
    requires !ContainsCI(s, "<script") && !ContainsCI(s, "javascript:")
    requires !ContainsCI(s, "vbscript:") && !ContainsCI(s, "data:text/html")
    ensures !DetectXss(s)
  {
    forall i | 0 <= i < |XssPatterns| ensures !ContainsCI(s, XssPatterns[i]) {
      if i == 2 { NotContainsCIWithout(s, XssPatterns[i], 7); }
      else if i == 3 { NotContainsCIWithout(s, XssPatterns[i], 7); }
      else if i == 4 { NotContainsCIWithout(s, XssPatterns[i], 6); }
      else if i == 5 { NotContainsCIWithout(s, XssPatterns[i], 11); }
      else if i == 6 { NotContainsCIWithout(s, XssPatterns[i], 7); }
      else if i == 7 { NotContainsCIWithout(s, XssPatterns[i], 4); }
      else if i == 8 { NotContainsCIWithout(s, XssPatterns[i], 10); }
    }
  }

  /** A text is not flagged when it lacks '=' and '(', and lacks a character of each of the
      four remaining fragments in both cases: 'c' or '<', 'j' or ':', 'v' or ':', 'x' or ':'. */
  lemma XssSafeByCharacters(s: string)
    requires '=' !in s && '(' !in s
    requires '<' !in s || ('c' !in s && 'C' !in s)
    requires ':' !in s || ('j' !in s && 'J' !in s && 'v' !in s && 'V' !in s && 'x' !in s && 'X' !in s)
    ensures !DetectXss(s)
  {
    if '<' !in s {
      NotContainsCIWithout(s, "<script", 0);
    } else {
      NotContainsCIWithout(s, "<script", 2);
    }
    if ':' !in s {
      NotContainsCIWithout(s, "javascript:", 10);
      NotContainsCIWithout(s, "vbscript:", 8);
      NotContainsCIWithout(s, "data:text/html", 4);
    } else {
      NotContainsCIWithout(s, "javascript:", 0);
      NotContainsCIWithout(s, "vbscript:", 0);
      NotContainsCIWithout(s, "data:text/html", 7);
    }
    XssNeedsFragment(s);
  }

  /** The safe inputs of the unit tests, plain HTML included, are not flagged. */
  lemma XssSafePlainText()
    ensures !DetectXss("Normal text content")
  {
    var s := "Normal text content";
    forall i | 0 <= i < |s| ensures s[i] != '=' && s[i] != '(' && s[i] != '<' && s[i] != ':' {
    }
    XssSafeByCharacters(s);
  }

  lemma XssSafeParagraph()
    ensures !DetectXss("<p>Safe HTML paragraph</p>")
  {
    var s := "<p>Safe HTML paragraph</p>";
    forall i | 0 <= i < |s| ensures s[i] != '=' && s[i] != '(' && s[i] != 'c' && s[i] != 'C' && s[i] != ':' {
    }
    XssSafeByCharacters(s);
  }

  lemma XssSafeStrong()
    ensures !DetectXss("<strong>Bold text</strong>")
  {
    var s := "<strong>Bold text</strong>";
    forall i | 0 <= i < |s| ensures s[i] != '=' && s[i] != '(' && s[i] != 'c' && s[i] != 'C' && s[i] != ':' {
    }
    XssSafeByCharacters(s);
  }

  // ================================================================ filenames

  predicate IsSafeFilenameChar(c: char)
  {
    'a' <= c <= 'z' || 'A' <= c <= 'Z' || '0' <= c <= '9' || c == '.' || c == '_' || c == '-'
  }

  predicate IsSafeFilename(s: string)
  {
    forall i :: 0 <= i < |s| ==> IsSafeFilenameChar(s[i])
  }

  /** `preg_replace('/[^a-zA-Z0-9._-]/', '', $s)`. */
  function KeepSafe(s: string): (r: string)
    ensures IsSafeFilename(r)
    ensures |r| <= |s|
    ensures IsSafeFilename(s) ==> r == s
    decreases |s|
  {
    if s == [] then []
    else
      var rest := KeepSafe(s[1..]);
      assert IsSafeFilename(s) ==> IsSafeFilename(s[1..]);
      (if IsSafeFilenameChar(s[0]) then [s[0]] else []) + rest
  }

  lemma {:induction false} KeepSafeAppend(a: string, b: string)
    ensures KeepSafe(a + b) == KeepSafe(a) + KeepSafe(b)
    decreases |a|
  {
    if a == [] {
      assert a + b == b;
    } else {
      assert (a + b)[0] == a[0] && (a + b)[1..] == a[1..] + b;
      KeepSafeAppend(a[1..], b);
    }
  }

  /** Each character stays where it stands iff it is in the safe class, so the result is
      the input's safe characters in their order. */
  lemma KeepSafeDrops(a: string, c: char, b: string)
    ensures KeepSafe(a + [c] + b) == KeepSafe(a) + (if IsSafeFilenameChar(c) then [c] else []) + KeepSafe(b)
  {
    KeepSafeAppend(a + [c], b);
    KeepSafeAppend(a, [c]);
    assert [c][1..] == [];
  }

  /** `str_replace($p, '', $s)`: occurrences removed left to right, without rescanning. */
  function StrRemove(s: string, p: string): (r: string)
    requires |p| > 0
    ensures |r| <= |s|
    ensures IsSafeFilename(s) ==> IsSafeFilename(r)
    decreases |s|
  {
    if |s| < |p| then s
    else if s[..|p|] == p then StrRemove(s[|p|..], p)
    else [s[0]] + StrRemove(s[1..], p)
  }

  /** A fragment needing a character that `s` lacks removes nothing. */
  lemma {:induction false} StrRemoveAbsent(s: string, p: string, j: nat)
    requires j < |p| && p[j] !in s
    ensures StrRemove(s, p) == s
    decreases |s|
  {
    if |s| >= |p| {
      assert s[..|p|] != p by {
        assert s[..|p|][j] == s[j];
        assert s[j] in s;
      }
      StrRemoveAbsent(s[1..], p, j);
      assert [s[0]] + s[1..] == s;
    }
  }

  /** `substr($s, 0, $n)`. */
  function Take(s: string, n: nat): (r: string)
    ensures |r| <= n && |r| <= |s|
    ensures r == s[..|r|]
  {
    if |s| <= n then s else s[..n]
  }

  /** `sanitizeFilename`: filter to safe characters, strip traversal sequences, cut to 255. */
  function SanitizeFilename(name: string): (r: string)
    ensures IsSafeFilename(r) && |r| <= 255 && |r| <= |name|
    ensures r == (if |KeepSafe(name)| > 255 then KeepSafe(name)[..255] else KeepSafe(name))
  {
    var kept := KeepSafe(name);
    var noTraversal := StrRemove(StrRemove(StrRemove(kept, "../"), ".\\"), "..\\");
    TraversalStripIsIdentity(kept);
    Take(noTraversal, 255)
  }

  /** Once filtered, a name holds neither '/' nor '\', so the traversal replacements never fire. */
  lemma TraversalStripIsIdentity(kept: string)
    requires IsSafeFilename(kept)
    ensures StrRemove(StrRemove(StrRemove(kept, "../"), ".\\"), "..\\") == kept
  {
    forall i | 0 <= i < |kept| ensures kept[i] != '/' && kept[i] != '\\' {
      assert IsSafeFilenameChar(kept[i]);
    }
    StrRemoveAbsent(kept, "../", 2);
    StrRemoveAbsent(kept, ".\\", 1);
    StrRemoveAbsent(kept, "..\\", 2);
  }

  /** The sanitised name holds only `[a-zA-Z0-9._-]`, is at most 255 characters long, is a
      fixed point of sanitising, and a safe name of at most 255 characters is returned as is. */
  lemma SanitizeFilenameProperties(name: string)
    ensures IsSafeFilename(SanitizeFilename(name))
    ensures |SanitizeFilename(name)| <= 255
    ensures SanitizeFilename(SanitizeFilename(name)) == SanitizeFilename(name)
    ensures IsSafeFilename(name) && |name| <= 255 ==> SanitizeFilename(name) == name
  {
    var kept := KeepSafe(name);
    TraversalStripIsIdentity(kept);
    var r := Take(kept, 255);
    assert IsSafeFilename(r) by {
      forall i | 0 <= i < |r| ensures IsSafeFilenameChar(r[i]) { assert r[i] == kept[i]; }
    }
    TraversalStripIsIdentity(r);
  }

  /** The unit-test name `document-2024.pdf` is returned unchanged. */
  lemma SanitizeNormalName(name: string)
    requires name == "document-2024.pdf"
    ensures SanitizeFilename(name) == name
  {
    SanitizeFilenameProperties(name);
  }

  // ================================================================ uploads

  const UploadErrOk := 0
  const UploadErrIniSize := 1
  const UploadErrFormSize := 2
  const UploadErrPartial := 3
  const UploadErrNoFile := 4

  /** The `$_FILES` entry fields the validation reads. */
  datatype UploadedFile = UploadedFile(error: int, size: int, name: string)

  function UploadErrorMessage(code: int): string
  {
    if code == UploadErrIniSize || code == UploadErrFormSize then "File is too large"
    else if code == UploadErrPartial then "File upload was interrupted"
    else if code == UploadErrNoFile then "No file was uploaded"
    else "Upload failed"
  }

  const DangerousExtensions: seq<string> := ["php", "phtml", "php3", "php4", "php5", "pl", "py", "jsp", "asp", "sh", "cgi"]

  /** The part of `s` after its last `c`; all of `s` when `c` does not occur. */
  function AfterLast(s: string, c: char): (r: string)
    ensures |r| <= |s| && c !in r
    ensures c !in s ==> r == s
    decreases |s|
  {
    if s == [] then []
    else if s[|s| - 1] == c then []
    else
      assert c !in s ==> c !in s[..|s| - 1];
      assert s == s[..|s| - 1] + [s[|s| - 1]];
      AfterLast(s[..|s| - 1], c) + [s[|s| - 1]]
  }

  /** `s` without its trailing `c` characters. */
  function TrimTrailing(s: string, c: char): (r: string)
    ensures |r| <= |s|
    decreases |s|
  {
    if s != [] && s[|s| - 1] == c then TrimTrailing(s[..|s| - 1], c) else s
  }

  /** `strtolower(pathinfo($name, PATHINFO_EXTENSION))`: the text after the last dot of the last
      path component, or "" when that component has no dot. */
  function Extension(name: string): string
  {
    var base := AfterLast(TrimTrailing(name, '/'), '/');
    if '.' in base then Lower(AfterLast(base, '.')) else ""
  }

  /** `number_format($n, 1)` for a rational `num / den`, rounding half away from zero and
      grouping thousands with commas. */
  function FormatOneDecimal(num: int, den: nat): string
    requires den > 0
  {
    var magnitude := if num < 0 then -num else num;
    var tenths := (2 * magnitude * 10 + den) / (2 * den);
    var sign := if num < 0 && tenths > 0 then "-" else "";
    sign + GroupThousands(NatToString(tenths / 10)) + "." + [DigitChar(tenths % 10)]
  }

  function GroupThousands(digits: string): string
    decreases |digits|
  {
    if |digits| <= 3 then digits
    else GroupThousands(digits[..|digits| - 3]) + "," + digits[|digits| - 3..]
  }

  function TooLargeMessage(maxSize: int): string
  {
    "File is too large (max " + FormatOneDecimal(maxSize, 1048576) + "MB)"
  }

  /** `validateFileUpload`. `mimeType` is what content sniffing reports for the temporary file. */
  method ValidateFileUpload(file: UploadedFile, allowedTypes: seq<string>, maxSize: int, mimeType: string)
    returns (errors: seq<string>)
    ensures file.error != UploadErrOk ==> errors == [UploadErrorMessage(file.error)]
    ensures file.error == UploadErrOk ==>
      |errors| <= 3 &&
      (TooLargeMessage(maxSize) in errors <==> file.size > maxSize) &&
      ("File type not allowed" in errors <==> |allowedTypes| > 0 && mimeType !in allowedTypes) &&
      ("File extension not allowed" in errors <==> Extension(file.name) in DangerousExtensions) &&
      (errors == [] <==> file.size <= maxSize && (|allowedTypes| == 0 || mimeType in allowedTypes)
                         && Extension(file.name) !in DangerousExtensions)
    ensures file.error == UploadErrOk && file.size > maxSize ==> errors[0] == TooLargeMessage(maxSize)
    ensures file.error == UploadErrOk ==>
      errors == (if file.size > maxSize then [TooLargeMessage(maxSize)] else [])
              + (if |allowedTypes| > 0 && mimeType !in allowedTypes then ["File type not allowed"] else [])
              + (if Extension(file.name) in DangerousExtensions then ["File extension not allowed"] else [])
  {
    errors := [];
    if file.error != UploadErrOk {
      errors := errors + [UploadErrorMessage(file.error)];
      return;
    }
    if file.size > maxSize {
      errors := errors + [TooLargeMessage(maxSize)];
    }
    if |allowedTypes| > 0 {
      if mimeType !in allowedTypes {
        errors := errors + ["File type not allowed"];
      }
    }
    var extension := Extension(file.name);
    if extension in DangerousExtensions {
      errors := errors + ["File extension not allowed"];
    }
  }

  /** A last path component `stem.ext` has extension `ext`, case folded. */
  lemma ExtensionOf(dir: string, stem: string, ext: string)
    requires '/' !in stem && '/' !in ext && '.' !in ext && ext != ""
    ensures Extension(dir + stem + "." + ext) == Lower(ext)
  {
    var lead := if '/' in dir then AfterLast(dir, '/') else dir;
    BaseNameOf(dir, stem, ext);
    DotExtension(lead + stem + ".", ext);
  }

  /** The base name of `dir + stem + "." + ext` is the part of `dir` after its last '/'
      followed by `stem + "." + ext`. */
  lemma BaseNameOf(dir: string, stem: string, ext: string)
    requires '/' !in stem && '/' !in ext && ext != ""
    ensures AfterLast(TrimTrailing(dir + stem + "." + ext, '/'), '/') ==
      (if '/' in dir then AfterLast(dir, '/') else dir) + stem + "." + ext
  {
    var name := dir + stem + "." + ext;
    var tail := stem + "." + ext;
    var lead := if '/' in dir then AfterLast(dir, '/') else dir;
    assert name == dir + tail;
    assert TrimTrailing(name, '/') == name by {
      assert name[|name| - 1] == ext[|ext| - 1];
      assert ext[|ext| - 1] in ext;
    }
    assert AfterLast(dir + tail, '/') == lead + tail by {
      SlashFreeTail(stem, ext);
      AfterLastSplit(dir, tail, '/');
    }
    assert lead + tail == lead + stem + "." + ext;
  }

  lemma SlashFreeTail(stem: string, ext: string)
    requires '/' !in stem && '/' !in ext
    ensures '/' !in stem + "." + ext
  {
    var tail := stem + "." + ext;
    forall i | 0 <= i < |tail| ensures tail[i] != '/' {
      if i < |stem| { assert tail[i] == stem[i] && stem[i] in stem; }
      else if i > |stem| { assert tail[i] == ext[i - |stem| - 1] && ext[i - |stem| - 1] in ext; }
    }
  }

  /** After a head that ends in '.', a dot-free `ext` is what follows the last '.'. */
  lemma DotExtension(head: string, ext: string)
    requires head != [] && head[|head| - 1] == '.' && '.' !in ext
    ensures '.' in head + ext && AfterLast(head + ext, '.') == ext
  {
    assert (head + ext)[|head| - 1] == '.';
    assert '.' in head by { assert head[|head| - 1] == '.'; }
    AfterLastSplit(head, ext, '.');
    assert AfterLast(head, '.') == [];
  }

  /** When `b` has no `c`, the part of `a + b` after the last `c` is that part of `a` followed by `b`. */
  lemma {:induction false} AfterLastSplit(a: string, b: string, c: char)
    requires c !in b
    ensures AfterLast(a + b, c) == (if c in a then AfterLast(a, c) + b else a + b)
    decreases |b|
  {
    if b == [] {
      assert a + b == a;
    } else {
      var init := b[..|b| - 1];
      assert (a + b)[..|a + b| - 1] == a + init;
      assert b[|b| - 1] in b;
      forall i | 0 <= i < |init| ensures init[i] != c {
        assert init[i] == b[i] && b[i] in b;
      }
      AfterLastSplit(a, init, c);
      assert init + [b[|b| - 1]] == b;
      if c !in a {
        forall i | 0 <= i < |a + b| ensures (a + b)[i] != c {
          if i < |a| { assert a[i] in a; } else { assert b[i - |a|] in b; }
        }
      }
    }
  }
}
