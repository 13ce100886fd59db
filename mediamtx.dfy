/** The MediaMTX client: how each answer of the media server's API (or the request error in
    its place) becomes a result, the playback addresses built from a stream key, and the
    stream-status sync that writes live/ended transitions back into the streams table.
    Each exchange with the API is a parameter: the reply the server gave to the request. */
module MediaMtx {
  import opened Common
  import Db
  import Streams

  /** What the HTTP client hands back: the decoded body, or a request error with the
      response's status code when there was a response. */
  datatype Reply<T> = Answered(body: T) | Failed(status: Option<int>, message: string)

  predicate FailedWith<T>(reply: Reply<T>, code: int)
  {
    reply.Failed? && reply.status == Some(code)
  }

  // ================================================================ addresses

  /** `buildRTMPUrl`: the publishing address on the default RTMP port. */
  function RtmpUrl(host: string, key: string): string
  {
    "rtmp://" + host + ":1935/" + key
  }

  /** `buildHLSUrl`: the playlist address on the default HLS port. */
  function HlsUrl(host: string, key: string): string
  {
    "http://" + host + ":8888/" + key + "/index.m3u8"
  }

  /** The key is where the RTMP address ends: it can be read back from the address. */
  lemma RtmpUrlKey(host: string, key: string)
    ensures var u := RtmpUrl(host, key); u[|u| - |key|..] == key
    ensures var u := RtmpUrl(host, key); u[..|u| - |key|] == "rtmp://" + host + ":1935/"
  {
  }

  /** On one host, distinct keys give distinct RTMP and HLS addresses. */
  lemma UrlsDistinguishKeys(host: string, a: string, b: string)
    requires RtmpUrl(host, a) == RtmpUrl(host, b) || HlsUrl(host, a) == HlsUrl(host, b)
    ensures a == b
  {
    var n := |"http://" + host + ":8888/"|;
    if HlsUrl(host, a) == HlsUrl(host, b) {
      assert |a| == |b|;
      assert a == HlsUrl(host, a)[n..n + |a|];
      assert b == HlsUrl(host, b)[n..n + |b|];
    } else {
      RtmpUrlKey(host, a);
      RtmpUrlKey(host, b);
    }
  }

  // ================================================================ path configuration

  /** What `createStream` returns: both addresses, the key, and the server's answer when the
      path was created now (absent when it existed already). */
  datatype CreatedPath = CreatedPath(rtmpUrl: string, hlsUrl: string, streamKey: string, config: Option<Value>)

  const CreateFailed := "Failed to create stream in MediaMTX: "
  const DeleteFailed := "Failed to delete stream from MediaMTX: "
  const StatsFailed := "Failed to get stream stats from MediaMTX: "

  /** The API path of a stream's configuration. */
  function ConfigPath(key: string): string
  {
    "/config/paths/" + key
  }

  /** The configuration posted for a new path: published over RTMP under the key, recorded
      in fragmented MP4 that is deleted after a day. */
  function PathConfig(key: string): (c: map<string, Value>)
    ensures "name" in c && "source" in c && "sourceProtocol" in c
    ensures c["name"] == Str(key) && c["source"] == Str("publisher") && c["sourceProtocol"] == Str("rtmp")
  {
    map["name" := Str(key), "source" := Str("publisher"), "sourceProtocol" := Str("rtmp"),
        "disablePublisherOverride" := Bool(false), "fallback" := Str(""),
        "srtReadPassphrase" := Str(""), "srtPublishPassphrase" := Str(""), "recordPath" := Str(""),
        "recordFormat" := Str("fmp4"), "recordPartDuration" := Str("1s"),
        "recordSegmentDuration" := Str("1h"), "recordDeleteAfter" := Str("24h"),
        "overridePublisher" := Bool(false)]
  }

  /** `createStream`, given the reply to the POST of `PathConfig(key)` to `ConfigPath(key)`:
      a path that already exists (409) counts as created; any other failure is an error. */
  function CreateStream(host: string, key: string, reply: Reply<Value>): (r: Result<CreatedPath>)
    ensures r.Ok? <==> reply.Answered? || FailedWith(reply, 409)
    ensures r.Ok? ==> r.value.rtmpUrl == RtmpUrl(host, key) && r.value.hlsUrl == HlsUrl(host, key) && r.value.streamKey == key
    ensures r.Ok? ==> (r.value.config.Some? <==> reply.Answered?)
    ensures r.Err? ==> r.msg == CreateFailed + reply.message
  {
    match reply
    case Answered(body) => Ok(CreatedPath(RtmpUrl(host, key), HlsUrl(host, key), key, Some(body)))
    case Failed(status, message) =>
      if status == Some(409) then Ok(CreatedPath(RtmpUrl(host, key), HlsUrl(host, key), key, None))
      else Err(CreateFailed + message)
  }

  /** Creating a path twice hands out the same addresses: the second call's conflict gives
      the client exactly what the first call gave, without the server's configuration. */
  lemma CreateTwiceSameAddresses(host: string, key: string, first: Value, second: string)
    ensures CreateStream(host, key, Failed(Some(409), second)).value ==
      CreateStream(host, key, Answered(first)).value.(config := None)
  {
  }

  /** `deleteStream`, given the reply to the DELETE of `ConfigPath(key)`: a missing path
      (404) counts as deleted; any other failure is an error. */
  function DeleteStream(reply: Reply<()>): (r: Result<bool>)
    ensures r.Ok? <==> reply.Answered? || FailedWith(reply, 404)
    ensures r.Ok? ==> r.value
    ensures r.Err? ==> r.msg == DeleteFailed + reply.message
  {
    match reply
    case Answered(_) => Ok(true)
    case Failed(status, message) => if status == Some(404) then Ok(true) else Err(DeleteFailed + message)
  }

  // ================================================================ statistics

  /** The fields of a path's state that are read (absent or null as `None`). */
  datatype PathInfo = PathInfo(
    sourceReady: Option<bool>, readers: Option<seq<string>>, bytesSent: Option<int>,
    bytesReceived: Option<int>, created: Option<string>, lastRequest: Option<string>)

  datatype PathStats = PathStats(
    isLive: bool, viewers: nat, bytesSent: int, bytesReceived: int,
    createdAt: Option<string>, lastRequest: Option<string>)

  /** The statistics of a path the server does not know. */
  const Idle := PathStats(false, 0, 0, 0, None, None)

  /** The API path of a stream's live state. */
  function StatePath(key: string): string
  {
    "/paths/" + key
  }

  /** `getStreamStats`, given the reply to the GET of `StatePath(key)`: the viewers are the
      readers, missing fields take their defaults, and an unknown path (404) is idle. */
  function GetStreamStats(reply: Reply<PathInfo>): (r: Result<PathStats>)
    ensures r.Ok? <==> reply.Answered? || FailedWith(reply, 404)
    ensures FailedWith(reply, 404) ==> r == Ok(Idle)
    ensures reply.Answered? ==> (r.Ok? &&
      r.value.viewers == |GetOr(reply.body.readers, [])| &&
      r.value.isLive == (reply.body.sourceReady == Some(true)) &&
      r.value.bytesSent == GetOr(reply.body.bytesSent, 0) &&
      r.value.bytesReceived == GetOr(reply.body.bytesReceived, 0))
    ensures r.Err? ==> r.msg == StatsFailed + reply.message
  {
    match reply
    case Answered(d) =>
      Ok(PathStats(GetOr(d.sourceReady, false), |GetOr(d.readers, [])|, GetOr(d.bytesSent, 0),
                   GetOr(d.bytesReceived, 0), d.created, d.lastRequest))
    case Failed(status, message) => if status == Some(404) then Ok(Idle) else Err(StatsFailed + message)
  }

  /** A path nobody reads has no viewers, and a path without a ready source is not live. */
  lemma StatsOfQuietPath(d: PathInfo)
    requires d.readers.None? || d.readers == Some([])
    requires d.sourceReady != Some(true)
    ensures var r := GetStreamStats(Answered(d)); r.Ok? && r.value.viewers == 0 && !r.value.isLive
  {
  }

  /** The fields of the server's root document that are read. */
  datatype ServerInfo = ServerInfo(version: Option<string>, uptime: Option<int>, paths: Option<seq<string>>, connectionsCount: Option<int>)

  datatype ServerStatus =
    | Online(version: string, uptime: int, pathsCount: nat, connectionsCount: int)
    | Offline(error: string)

  /** `getServerStatus`: never an error; a failed request reports the server offline with
      the error text. */
  function GetServerStatus(reply: Reply<ServerInfo>): (r: ServerStatus)
    ensures r.Offline? <==> reply.Failed?
    ensures r.Offline? ==> r.error == reply.message
    ensures r.Online? ==> (r.pathsCount == |GetOr(reply.body.paths, [])| &&
      r.version == GetOr(reply.body.version, "unknown"))
  {
    match reply
    case Answered(d) =>
      Online(GetOr(d.version, "unknown"), GetOr(d.uptime, 0), |GetOr(d.paths, [])|, GetOr(d.connectionsCount, 0))
    case Failed(_, message) => Offline(message)
  }

  // ================================================================ status sync

  /** `SELECT id FROM streams WHERE stream_key = ?`: the first id below `bound` whose row
      has the key. */
  function FindByKey(streams: map<nat, Db.StreamRow>, key: string, from: nat, bound: nat): (r: Option<nat>)
    ensures r.Some? ==> (from <= r.value < bound && r.value in streams &&
      Streams.Col(streams[r.value], "stream_key") == Str(key))
    ensures r.Some? ==> forall k :: from <= k < r.value && k in streams ==> Streams.Col(streams[k], "stream_key") != Str(key)
    ensures r.None? ==> forall k :: from <= k < bound && k in streams ==> Streams.Col(streams[k], "stream_key") != Str(key)
    decreases bound - from
  {
    if from >= bound then None
    else if from in streams && Streams.Col(streams[from], "stream_key") == Str(key) then Some(from)
    else FindByKey(streams, key, from + 1, bound)
  }

  /** The update a status report asks for, given the stream's row as read: live sets the
      status active and records the start when none is recorded; not live ends a stream
      that was active, recording the end, and otherwise makes it inactive. */
  function StatusData(isLive: bool, row: Db.StreamRow, stamp: string): (data: map<string, Value>)
    ensures "status" in data
    ensures isLive ==> data["status"] == Str("active")
    ensures !isLive ==> (data["status"] == Str("ended") <==> Streams.Col(row, "status") == Str("active"))
    ensures !isLive && data["status"] != Str("ended") ==> data["status"] == Str("inactive")
    ensures "actual_start" in data <==> isLive && IsEmpty(Streams.Col(row, "actual_start"))
    ensures "actual_end" in data <==> !isLive && Streams.Col(row, "status") == Str("active")
    ensures forall f :: f in data ==> f in {"status", "actual_start", "actual_end"}
    ensures "actual_start" in data ==> data["actual_start"] == Str(stamp)
    ensures "actual_end" in data ==> data["actual_end"] == Str(stamp)
  {
    var data := map["status" := Str(if isLive then "active" else "inactive")];
    if isLive && IsEmpty(Streams.Col(row, "actual_start")) then data["actual_start" := Str(stamp)]
    else if !isLive && Streams.Col(row, "status") == Str("active") then
      data["actual_end" := Str(stamp)]["status" := Str("ended")]
    else data
  }

  /** `updateStreamStatus` as written: the row it inspects is the fetched one, which holds
      only the id, and the update goes through `updateStream`, which accepts neither
      `actual_start` nor `actual_end`. */
  function UpdateStreamStatusAsWritten(streams: map<nat, Db.StreamRow>, bound: nat, key: string, isLive: bool, stamp: string, now: int): map<nat, Db.StreamRow>
  {
    match FindByKey(streams, key, 0, bound)
    case None => streams
    case Some(k) => Streams.UpdatedStreams(streams, NatToString(k), StatusData(isLive, map["id" := Int(k)], stamp), now)
  }

  /** The text id the lookup returns finds its own row again. */
  lemma GetStreamOfId(streams: map<nat, Db.StreamRow>, k: nat)
    requires k in streams
    ensures Streams.GetStream(streams, NatToString(k)) == Some(Streams.Stream(k, streams[k]))
  {
    var r := Streams.GetStream(streams, NatToString(k));
    assert r.Some?;
    NatToStringInjective(r.value.id, k);
  }

  /** As written, a stream reported offline is marked inactive and never ended, and neither
      its start nor its end is ever recorded. */
  lemma NeverEndedAsWritten(streams: map<nat, Db.StreamRow>, bound: nat, key: string, isLive: bool, stamp: string, now: int, k: nat)
    requires FindByKey(streams, key, 0, bound) == Some(k)
    ensures var after := UpdateStreamStatusAsWritten(streams, bound, key, isLive, stamp, now);
      k in after &&
      Streams.Col(after[k], "status") == Str(if isLive then "active" else "inactive") &&
      Streams.Col(after[k], "actual_start") == Streams.Col(streams[k], "actual_start") &&
      Streams.Col(after[k], "actual_end") == Streams.Col(streams[k], "actual_end")
  {
    AsWrittenUpdatesRow(streams, bound, key, isLive, stamp, now, k);
    AsWrittenRowFacts(streams[k], isLive, k, stamp, now);
  }

  lemma AsWrittenUpdatesRow(streams: map<nat, Db.StreamRow>, bound: nat, key: string, isLive: bool, stamp: string, now: int, k: nat)
    requires FindByKey(streams, key, 0, bound) == Some(k)
    ensures UpdateStreamStatusAsWritten(streams, bound, key, isLive, stamp, now) ==
      streams[k := Streams.UpdatedRow(streams[k], StatusData(isLive, map["id" := Int(k)], stamp), now)]
  {
    var data := StatusData(isLive, map["id" := Int(k)], stamp);
    GetStreamOfId(streams, k);
    assert "status" in Streams.UpdatableFields && Streams.IsSet(data, "status");
    assert "status" in Streams.SetFields(data, Streams.UpdatableFields);
  }

  lemma AsWrittenRowFacts(row: Db.StreamRow, isLive: bool, k: nat, stamp: string, now: int)
    ensures var r := Streams.UpdatedRow(row, StatusData(isLive, map["id" := Int(k)], stamp), now);
      Streams.Col(r, "status") == Str(if isLive then "active" else "inactive") &&
      Streams.Col(r, "actual_start") == Streams.Col(row, "actual_start") &&
      Streams.Col(r, "actual_end") == Streams.Col(row, "actual_end")
  {
    var data := StatusData(isLive, map["id" := Int(k)], stamp);
    assert "status" in Streams.UpdatableFields && Streams.IsSet(data, "status");
    Streams.UpdatedRowFacts(row, data, now);
    TimesNotUpdatable();
  }

  /** Neither recorded time is among the fields `updateStream` accepts. */
  lemma TimesNotUpdatable()
    ensures "actual_start" !in Streams.UpdatableFields && "actual_end" !in Streams.UpdatableFields
  {
    assert forall i :: 0 <= i < |Streams.UpdatableFields| ==> |Streams.UpdatableFields[i]| !in {10, 12};
  }

  /** The status sync as the code means it: the row is read in full and the transition
      writes `status`, `actual_start` and `actual_end` themselves, with `updated_at`. */
  function StatusUpdated(streams: map<nat, Db.StreamRow>, bound: nat, key: string, isLive: bool, stamp: string, now: int): (r: map<nat, Db.StreamRow>)
    ensures r.Keys == streams.Keys
    ensures FindByKey(streams, key, 0, bound).None? ==> r == streams
    ensures forall k :: k in streams && Some(k) != FindByKey(streams, key, 0, bound) ==> r[k] == streams[k]
  {
    match FindByKey(streams, key, 0, bound)
    case None => streams
    case Some(k) => streams[k := (streams[k] + StatusData(isLive, streams[k], stamp))["updated_at" := Int(now)]]
  }

  /** The transitions of the corrected sync: live makes a stream active and records its start
      once; offline ends an active stream with its end time and makes any other inactive. */
  lemma StatusTransitions(streams: map<nat, Db.StreamRow>, bound: nat, key: string, isLive: bool, stamp: string, now: int, k: nat)
    requires FindByKey(streams, key, 0, bound) == Some(k)
    ensures var before, after := streams[k], StatusUpdated(streams, bound, key, isLive, stamp, now)[k];
      (isLive ==> (after["status"] == Str("active") &&
        after["actual_start"] == (if IsEmpty(Streams.Col(before, "actual_start")) then Str(stamp) else before["actual_start"]))) &&
      (!isLive && Streams.Col(before, "status") == Str("active") ==> after["status"] == Str("ended") && after["actual_end"] == Str(stamp)) &&
      (!isLive && Streams.Col(before, "status") != Str("active") ==> after["status"] == Str("inactive")) &&
      after["updated_at"] == Int(now)
  {
  }

  /** A stream reported live again keeps the start recorded the first time. */
  lemma StartRecordedOnce(streams: map<nat, Db.StreamRow>, bound: nat, key: string, first: string, second: string, now: int, later: int)
    requires FindByKey(streams, key, 0, bound).Some? && !IsEmpty(Str(first))
    ensures var once := StatusUpdated(streams, bound, key, true, first, now);
      var twice := StatusUpdated(once, bound, key, true, second, later);
      var k := FindByKey(streams, key, 0, bound).value;
      twice[k]["actual_start"] == once[k]["actual_start"]
  {
    var k := FindByKey(streams, key, 0, bound).value;
    var once := StatusUpdated(streams, bound, key, true, first, now);
    assert once[k]["stream_key"] == streams[k]["stream_key"];
    assert FindByKey(once, key, 0, bound) == Some(k) by {
      FindByKeySameKeys(streams, once, key, 0, bound);
    }
  }

  /** Updating rows without touching their keys leaves the lookup where it was. */
  lemma {:induction false} FindByKeySameKeys(a: map<nat, Db.StreamRow>, b: map<nat, Db.StreamRow>, key: string, from: nat, bound: nat)
    requires a.Keys == b.Keys
    requires forall k :: k in a ==> Streams.Col(a[k], "stream_key") == Streams.Col(b[k], "stream_key")
    ensures FindByKey(a, key, from, bound) == FindByKey(b, key, from, bound)
    decreases bound - from
  {
    if from < bound {
      FindByKeySameKeys(a, b, key, from + 1, bound);
    }
  }

  /** `updateStreamStatus` (corrected): look the stream up by key among the ids handed out
      so far and write the transition. */
  method UpdateStreamStatus(db: Db.Database, key: string, isLive: bool, stamp: string, now: int)
    requires db.Valid()
    modifies db`streams
    ensures db.streams == StatusUpdated(old(db.streams), db.nextStreamId, key, isLive, stamp, now)
    ensures db.Valid()
  {
    var found := FindByKey(db.streams, key, 0, db.nextStreamId);
    if found.Some? {
      var k := found.value;
      db.streams := db.streams[k := (db.streams[k] + StatusData(isLive, db.streams[k], stamp))["updated_at" := Int(now)]];
    }
  }

  /** Ids below the counter are all the ids, so a key that is in the table is found. */
  lemma FindByKeyComplete(streams: map<nat, Db.StreamRow>, bound: nat, key: string, k: nat)
    requires forall j :: j in streams ==> j < bound
    requires k in streams && Streams.Col(streams[k], "stream_key") == Str(key)
    ensures FindByKey(streams, key, 0, bound).Some?
  {
  }
}
