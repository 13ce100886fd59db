/** The stores every service works on: the relational tables (users, login_attempts,
    security_logs, streams, stream_access, stream_stats) and the per-visitor session.
    Rows are values; the two stores are objects whose fields the operations reassign. */
module Db {
  import opened Common

  /** A row of `users`. Timestamps are seconds since the epoch. */
  datatype User = User(
    id: nat,
    email: string,
    passwordHash: string,
    role: string,
    failedLoginAttempts: int,
    lockedUntil: Option<int>,
    lastLogin: Option<int>,
    createdAt: int)

  /** A row of `login_attempts`; successful attempts are recorded too. */
  datatype LoginAttempt = LoginAttempt(email: string, ipAddress: string, success: bool, createdAt: int)

  /** A row of `security_logs`; `context` is the JSON object as key/value pairs. */
  datatype SecurityEvent = SecurityEvent(
    event: string,
    ipAddress: string,
    userAgent: string,
    context: seq<(string, string)>,
    createdAt: int)

  /** A row of `stream_access`: a paid grant of one stream to one user. Money is in cents.
      The ids are the text the queries bind (the payment's metadata or the token's user id). */
  datatype StreamAccess = StreamAccess(
    userId: string,
    streamId: string,
    paymentIntentId: string,
    amountPaid: int,
    currency: string,
    expiresAt: Option<int>)

  /** A row of `stream_stats`. Revenue is in cents. */
  datatype StreamStats = StreamStats(
    streamId: string,
    recordedAt: int,
    viewerCount: int,
    peakViewers: int,
    totalRevenue: int,
    totalPurchases: int)

  /** A row of `streams`, column name to value (`id` is the key of the table map). */
  type StreamRow = map<string, Value>

  /** The calendar day of a timestamp, as `DATE(...)` and `CURDATE()` see it (UTC). */
  function Day(t: int): int
  {
    t / 86400
  }

  /** The `stream_stats` row of a stream for a day: the last one in table order. The table
      keeps at most one per stream and day (see `StatsKeyed`), so it is the only one. */
  function FindDayStats(stats: seq<StreamStats>, streamId: string, day: int): (r: Option<nat>)
    ensures r.Some? ==> r.value < |stats| && stats[r.value].streamId == streamId && Day(stats[r.value].recordedAt) == day
    ensures r.Some? ==> forall j :: r.value < j < |stats| ==> !(stats[j].streamId == streamId && Day(stats[j].recordedAt) == day)
    ensures r.None? <==> forall j :: 0 <= j < |stats| ==> !(stats[j].streamId == streamId && Day(stats[j].recordedAt) == day)
    decreases |stats|
  {
    if stats == [] then None
    else
      var last := stats[|stats| - 1];
      if last.streamId == streamId && Day(last.recordedAt) == day then Some(|stats| - 1)
      else FindDayStats(stats[..|stats| - 1], streamId, day)
  }

  /** At most one statistics row per stream and day. */
  ghost predicate StatsKeyed(stats: seq<StreamStats>)
  {
    forall i, j :: 0 <= i < j < |stats| ==>
      !(stats[i].streamId == stats[j].streamId && Day(stats[i].recordedAt) == Day(stats[j].recordedAt))
  }

  /** Users are numbered by the auto-increment key in insertion order and never deleted. */
  ghost predicate UsersNumbered(users: seq<User>)
  {
    forall i :: 0 <= i < |users| ==> users[i].id == i + 1
  }

  class Database {
    var users: seq<User>
    var loginAttempts: seq<LoginAttempt>
    var securityLogs: seq<SecurityEvent>
    var streams: map<nat, StreamRow>
    var nextStreamId: nat
    var streamAccess: seq<StreamAccess>
    var streamStats: seq<StreamStats>

    /** The auto-increment keys stay ahead of every stored key. */
    ghost predicate Valid()
      reads this
    {
      UsersNumbered(users) && 0 < nextStreamId && forall id :: id in streams ==> id < nextStreamId
    }

    constructor ()
      ensures Valid()
      ensures users == [] && loginAttempts == [] && securityLogs == []
      ensures streams == map[] && nextStreamId == 1 && streamAccess == [] && streamStats == []
    {
      users, loginAttempts, securityLogs := [], [], [];
      streams, nextStreamId := map[], 1;
      streamAccess, streamStats := [], [];
    }
  }

  /** `$_SESSION`: the rate-limit timestamp lists (keyed by identifier) and the CSRF token. */
  class Session {
    var rateLimits: map<string, seq<int>>
    var csrfToken: Option<string>

    constructor ()
      ensures rateLimits == map[] && csrfToken == None
    {
      rateLimits, csrfToken := map[], None;
    }
  }
}
