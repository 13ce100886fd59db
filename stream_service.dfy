/** The stream records: lookup by id, the paid-access test, the playback URL, creation with
    its defaults, the whitelisted update and the viewer statistics. */
module Streams {
  import opened Common
  import opened Db

  /** A request body or a table row read as a PHP array: an absent key reads as null. */
  function Col(row: map<string, Value>, key: string): Value
  {
    if key in row then row[key] else Null
  }

  /** `isset($data[$key])`: present and not null. */
  predicate IsSet(data: map<string, Value>, key: string)
  {
    key in data && data[key] != Null
  }

  /** `$data[$key] ?? $default`. */
  function OrDefault(data: map<string, Value>, key: string, default: Value): (v: Value)
    ensures IsSet(data, key) ==> v == data[key]
    ensures !IsSet(data, key) ==> v == default
  {
    if IsSet(data, key) then data[key] else default
  }

  // ================================================================ reading

  /** A fetched stream: its key and its columns. */
  datatype Stream = Stream(id: nat, row: StreamRow)

  /** `SELECT * FROM streams WHERE id = ?`: the row whose id has the given decimal text. */
  function GetStream(streams: map<nat, StreamRow>, id: string): (r: Option<Stream>)
    ensures r.Some? ==> r.value.id in streams && NatToString(r.value.id) == id && r.value.row == streams[r.value.id]
    ensures r.None? <==> forall k :: k in streams ==> NatToString(k) != id
  {
    ParseNatRoundTrip(0, id);
    assert forall k: nat :: ParseNat(NatToString(k)) == Some(k) by {
      forall k: nat ensures ParseNat(NatToString(k)) == Some(k) {
        ParseNatRoundTrip(k, id);
      }
    }
    match ParseNat(id)
    case Some(k) => if k in streams then Some(Stream(k, streams[k])) else None
    case None => None
  }

  /** A grant that has not run out: no expiry, or one later than now. */
  predicate Active(g: StreamAccess, now: int)
  {
    g.expiresAt.None? || g.expiresAt.value > now
  }

  /** `hasAccess`: a grant of the stream to the user that is still active. */
  predicate HasAccess(access: seq<StreamAccess>, userId: string, streamId: string, now: int)
  {
    exists i :: 0 <= i < |access| && access[i].userId == userId && access[i].streamId == streamId && Active(access[i], now)
  }

  /** A grant without expiry gives access for good; one that has run out gives none. */
  lemma AccessOfGrant(access: seq<StreamAccess>, i: nat, now: int)
    requires i < |access|
    ensures access[i].expiresAt.None? ==> HasAccess(access, access[i].userId, access[i].streamId, now)
    ensures ((forall j :: 0 <= j < |access| && j != i ==> access[j].userId != access[i].userId || access[j].streamId != access[i].streamId) &&
      access[i].expiresAt.Some? && access[i].expiresAt.value <= now) ==>
      !HasAccess(access, access[i].userId, access[i].streamId, now)
  {
  }

  /** `getStreamUrl`: the HLS address of a stream that is on air, nothing otherwise. */
  function GetStreamUrl(streams: map<nat, StreamRow>, id: string): (r: Option<string>)
    ensures r.Some? <==> (GetStream(streams, id).Some? &&
      Col(GetStream(streams, id).value.row, "status") == Str("active") &&
      Col(GetStream(streams, id).value.row, "hls_url").Str?)
    ensures r.Some? ==> Col(GetStream(streams, id).value.row, "hls_url") == Str(r.value)
  {
    match GetStream(streams, id)
    case None => None
    case Some(s) =>
      if Col(s.row, "status") != Str("active") then None
      else match Col(s.row, "hls_url")
        case Str(url) => Some(url)
        case _ => None
  }

  /** The columns `getPublicStreams` selects. */
  const ListedColumns: set<string> := {"title", "description", "price", "currency", "status", "scheduled_start"}

  /** `getPublicStreams`: the streams that are on air or waiting, with the listed columns. */
  function PublicStreams(streams: map<nat, StreamRow>): (r: map<nat, StreamRow>)
    ensures forall k :: k in r <==> k in streams && Col(streams[k], "status") in {Str("active"), Str("inactive")}
    ensures forall k :: k in r ==> forall c :: c in r[k] <==> c in ListedColumns && c in streams[k]
    ensures forall k, c :: k in r && c in r[k] ==> r[k][c] == streams[k][c]
  {
    map k | k in streams && Col(streams[k], "status") in {Str("active"), Str("inactive")} ::
      map c | c in streams[k] && c in ListedColumns :: streams[k][c]
  }

  /** Ended, draft or status-less streams are never listed. */
  lemma PublicStreamsHidesEnded(streams: map<nat, StreamRow>, k: nat)
    requires k in streams && Col(streams[k], "status") == Str("ended")
    ensures k !in PublicStreams(streams)
  {
  }

  // ================================================================ creating

  /** `generateStreamKey`: "stream_" and the sixteen random bytes in hexadecimal. */
  function GenerateStreamKey(randomBytes: seq<bv8>): (key: string)
    requires |randomBytes| == 16
    ensures |key| == 39 && key[..7] == "stream_"
    ensures forall i :: 7 <= i < 39 ==> IsLowerHex(key[i])
  {
    "stream_" + HexEncode(randomBytes)
  }

  /** Different random bytes give different stream keys. */
  lemma StreamKeyInjective(a: seq<bv8>, b: seq<bv8>)
    requires |a| == 16 && |b| == 16 && GenerateStreamKey(a) == GenerateStreamKey(b)
    ensures a == b
  {
    assert HexEncode(a) == GenerateStreamKey(a)[7..] == GenerateStreamKey(b)[7..] == HexEncode(b);
    HexEncodeInjective(a, b);
  }

  /** The row `createStream` inserts: the title as given, defaults for what is not set. The
      price default stands for 0.00. */
  function NewStreamRow(data: map<string, Value>, key: string): StreamRow
  {
    map[
      "title" := Col(data, "title"),
      "description" := OrDefault(data, "description", Str("")),
      "price" := OrDefault(data, "price", Int(0)),
      "currency" := OrDefault(data, "currency", Str("USD")),
      "stream_key" := Str(key),
      "scheduled_start" := OrDefault(data, "scheduled_start", Null)]
  }

  /** `createStream`: insert under the next id and return that id as text. */
  method CreateStream(db: Database, data: map<string, Value>, randomBytes: seq<bv8>) returns (id: string)
    requires db.Valid() && |randomBytes| == 16
    modifies db`streams, db`nextStreamId
    ensures db.Valid()
    ensures id == NatToString(old(db.nextStreamId)) && db.nextStreamId == old(db.nextStreamId) + 1
    ensures db.streams == old(db.streams)[old(db.nextStreamId) := NewStreamRow(data, GenerateStreamKey(randomBytes))]
  {
    var key := GenerateStreamKey(randomBytes);
    var k := db.nextStreamId;
    db.streams := db.streams[k := NewStreamRow(data, key)];
    db.nextStreamId := k + 1;
    id := NatToString(k);
  }

  /** A stream created with only a title gets the empty description, price 0, USD and no
      schedule; the id returned finds the new row, and the other rows are kept. */
  lemma CreatedStreamFound(streams: map<nat, StreamRow>, next: nat, data: map<string, Value>, randomBytes: seq<bv8>)
    requires |randomBytes| == 16 && next !in streams
    ensures var after := streams[next := NewStreamRow(data, GenerateStreamKey(randomBytes))];
      GetStream(after, NatToString(next)) == Some(Stream(next, NewStreamRow(data, GenerateStreamKey(randomBytes)))) &&
      forall k :: k in streams ==> k in after && after[k] == streams[k]
    ensures data.Keys == {"title"} ==>
      var row := NewStreamRow(data, GenerateStreamKey(randomBytes));
      row["description"] == Str("") && row["price"] == Int(0) && row["currency"] == Str("USD") && row["scheduled_start"] == Null
  {
    ParseNatRoundTrip(next, "");
  }

  // ================================================================ updating

  /** The columns `updateStream` accepts, in the order it writes them. */
  const UpdatableFields: seq<string> := ["title", "description", "price", "currency", "status", "scheduled_start"]

  predicate Distinct(xs: seq<string>)
  {
    forall i, j :: 0 <= i < j < |xs| ==> xs[i] != xs[j]
  }

  /** The position of a field in a list of fields. */
  function IndexOf(xs: seq<string>, x: string): (r: nat)
    requires x in xs
    ensures r < |xs| && xs[r] == x && forall j :: 0 <= j < r ==> xs[j] != x
  {
    if xs[0] == x then 0 else 1 + IndexOf(xs[1..], x)
  }

  /** The fields of `fields` that `data` sets, in the order of `fields`. */
  function SetFields(data: map<string, Value>, fields: seq<string>): (r: seq<string>)
    ensures forall x :: x in r <==> x in fields && IsSet(data, x)
    ensures forall i :: 0 <= i < |r| ==> IsSet(data, r[i])
    ensures r == [] <==> forall i :: 0 <= i < |fields| ==> !IsSet(data, fields[i])
    decreases |fields|
  {
    if fields == [] then []
    else
      var last := fields[|fields| - 1];
      SetFields(data, fields[..|fields| - 1]) + (if IsSet(data, last) then [last] else [])
  }

  lemma IndexOfPrefix(xs: seq<string>, init: seq<string>, x: string)
    requires |init| <= |xs| && init == xs[..|init|] && x in init
    ensures IndexOf(init, x) == IndexOf(xs, x)
  {
    var i := IndexOf(init, x);
    assert xs[i] == init[i] == x;
    assert forall j :: 0 <= j < i ==> xs[j] == init[j];
    IndexOfFirst(xs, x, i);
  }

  /** The first position holding `x` is its index. */
  lemma {:induction false} IndexOfFirst(xs: seq<string>, x: string, i: nat)
    requires i < |xs| && xs[i] == x && forall j :: 0 <= j < i ==> xs[j] != x
    ensures IndexOf(xs, x) == i
    decreases i
  {
    if i > 0 {
      assert xs[1..][i - 1] == x;
      assert forall j :: 0 <= j < i - 1 ==> xs[1..][j] == xs[j + 1];
      IndexOfFirst(xs[1..], x, i - 1);
    }
  }

  /** The set fields keep the order of the list, and none is written twice. */
  lemma {:induction false} SetFieldsOrdered(data: map<string, Value>, fields: seq<string>)
    requires Distinct(fields)
    ensures var r := SetFields(data, fields);
      Distinct(r) && forall i, j :: 0 <= i < j < |r| ==> IndexOf(fields, r[i]) < IndexOf(fields, r[j])
    decreases |fields|
  {
    if fields != [] {
      var init := fields[..|fields| - 1];
      var last := fields[|fields| - 1];
      SetFieldsOrdered(data, init);
      forall x | x in init ensures IndexOf(init, x) == IndexOf(fields, x) && IndexOf(fields, x) < |fields| - 1 {
        IndexOfPrefix(fields, init, x);
      }
      assert IndexOf(fields, last) == |fields| - 1;
      assert last !in init;
    }
  }

  lemma UpdatableFieldsDistinct()
    ensures Distinct(UpdatableFields)
  {
  }

  lemma SetFieldsStep(data: map<string, Value>, fields: seq<string>, i: nat)
    requires i < |fields|
    ensures SetFields(data, fields[..i + 1]) ==
      SetFields(data, fields[..i]) + (if IsSet(data, fields[i]) then [fields[i]] else [])
  {
    assert fields[..i + 1][..i] == fields[..i];
  }

  /** The SET list and the parameters the update runs with: one `field = ?` per set field,
      the values in the same order, then the id. */
  method BuildStreamUpdate(id: string, data: map<string, Value>) returns (assignments: seq<string>, params: seq<Value>)
    ensures var names := SetFields(data, UpdatableFields);
      |assignments| == |names| && |params| == |names| + 1 && params[|names|] == Str(id) &&
      forall j :: 0 <= j < |names| ==> assignments[j] == names[j] + " = ?" && params[j] == data[names[j]]
  {
    assignments, params := [], [];
    var i := 0;
    while i < |UpdatableFields|
      invariant 0 <= i <= |UpdatableFields|
      invariant var names := SetFields(data, UpdatableFields[..i]);
        |assignments| == |names| && |params| == |names| &&
        forall j :: 0 <= j < |names| ==> assignments[j] == names[j] + " = ?" && params[j] == data[names[j]]
    {
      var field := UpdatableFields[i];
      SetFieldsStep(data, UpdatableFields, i);
      if field in data && data[field] != Null {
        assignments := assignments + [field + " = ?"];
        params := params + [data[field]];
      }
      i := i + 1;
    }
    assert UpdatableFields[..i] == UpdatableFields;
    params := params + [Str(id)];
  }

  /** A row after the update: each set field takes its value and `updated_at` the time. */
  function UpdatedRow(row: StreamRow, data: map<string, Value>, now: int): StreamRow
  {
    var names := SetFields(data, UpdatableFields);
    (row + map f | f in names :: data[f])["updated_at" := Int(now)]
  }

  /** The table after `updateStream`: untouched when nothing is set or no row has the id. */
  function UpdatedStreams(streams: map<nat, StreamRow>, id: string, data: map<string, Value>, now: int): map<nat, StreamRow>
  {
    if SetFields(data, UpdatableFields) == [] then streams
    else match GetStream(streams, id)
      case None => streams
      case Some(s) => streams[s.id := UpdatedRow(s.row, data, now)]
  }

  /** `updateStream`: false when no accepted field is set; otherwise the statement runs (and
      succeeds even when no row has the id). */
  method UpdateStream(db: Database, id: string, data: map<string, Value>, now: int) returns (ok: bool)
    modifies db`streams
    ensures ok <==> SetFields(data, UpdatableFields) != []
    ensures db.streams == UpdatedStreams(old(db.streams), id, data, now)
  {
    var assignments, params := BuildStreamUpdate(id, data);
    if assignments == [] {
      return false;
    }
    var found := GetStream(db.streams, id);
    if found.Some? {
      db.streams := db.streams[found.value.id := UpdatedRow(found.value.row, data, now)];
    }
    ok := true;
  }

  /** Only the six accepted fields are written, each set one with its value; every other
      column keeps its value, and every other stream is untouched. */
  lemma UpdateWritesOnlyAcceptedFields(streams: map<nat, StreamRow>, id: string, data: map<string, Value>, now: int)
    requires GetStream(streams, id).Some? && SetFields(data, UpdatableFields) != []
    ensures var s := GetStream(streams, id).value;
      var after := UpdatedStreams(streams, id, data, now);
      s.id in after && after[s.id]["updated_at"] == Int(now) &&
      (forall f :: f in UpdatableFields && IsSet(data, f) ==> f in after[s.id] && after[s.id][f] == data[f]) &&
      (forall c :: c != "updated_at" && !(c in UpdatableFields && IsSet(data, c)) ==>
        (c in after[s.id] <==> c in s.row) && (c in s.row ==> after[s.id][c] == s.row[c])) &&
      (forall k :: k in streams && k != s.id ==> k in after && after[k] == streams[k])
  {
    var s := GetStream(streams, id).value;
    UpdatedRowFacts(s.row, data, now);
  }

  lemma UpdatedRowFacts(row: StreamRow, data: map<string, Value>, now: int)
    ensures var r := UpdatedRow(row, data, now);
      "updated_at" in r && r["updated_at"] == Int(now) &&
      (forall f :: f in UpdatableFields && IsSet(data, f) ==> f in r && r[f] == data[f]) &&
      (forall c :: c != "updated_at" && !(c in UpdatableFields && IsSet(data, c)) ==>
        (c in r <==> c in row) && (c in row ==> r[c] == row[c]))
  {
    var names := SetFields(data, UpdatableFields);
    var m := map f | f in names :: data[f];
    assert forall c :: c in m <==> c in UpdatableFields && IsSet(data, c);
  }

  /** An update naming none of the accepted fields (the media addresses, say) is refused and
      changes nothing. */
  lemma MediaAddressesNotAccepted(streams: map<nat, StreamRow>, id: string, rtmp: string, hls: string, now: int)
    ensures var data := map["rtmp_url" := Str(rtmp), "hls_url" := Str(hls)];
      SetFields(data, UpdatableFields) == [] && UpdatedStreams(streams, id, data, now) == streams
  {
    var data := map["rtmp_url" := Str(rtmp), "hls_url" := Str(hls)];
    var names := SetFields(data, UpdatableFields);
    assert forall i :: 0 <= i < |UpdatableFields| ==> UpdatableFields[i] !in data;
  }

  /** Null values count as absent. */
  lemma NullFieldsIgnored(data: map<string, Value>, f: string)
    requires f in data && data[f] == Null
    ensures f !in SetFields(data, UpdatableFields)
  {
  }

  // ================================================================ viewers

  /** `recordViewerCount`: today's row of the stream takes the new count and keeps the larger
      peak; without one, a row is inserted with the count as both. */
  function RecordViewers(stats: seq<StreamStats>, streamId: string, count: int, now: int): seq<StreamStats>
  {
    match FindDayStats(stats, streamId, Day(now))
    case Some(i) =>
      stats[i := stats[i].(viewerCount := count, peakViewers := if stats[i].peakViewers >= count then stats[i].peakViewers else count)]
    case None => stats + [StreamStats(streamId, now, count, count, 0, 0)]
  }

  method RecordViewerCount(db: Database, streamId: string, count: int, now: int)
    modifies db`streamStats
    ensures db.streamStats == RecordViewers(old(db.streamStats), streamId, count, now)
  {
    var found := FindDayStats(db.streamStats, streamId, Day(now));
    if found.Some? {
      var i := found.value;
      var row := db.streamStats[i];
      var peak := if row.peakViewers >= count then row.peakViewers else count;
      db.streamStats := db.streamStats[i := row.(viewerCount := count, peakViewers := peak)];
    } else {
      db.streamStats := db.streamStats + [StreamStats(streamId, now, count, count, 0, 0)];
    }
  }

  /** After recording, today's row of the stream shows the count, a peak that is the larger of
      the old peak and the count, and unchanged revenue; at most one row per stream and day is
      kept, and no other row changes. */
  lemma RecordViewersPeak(stats: seq<StreamStats>, streamId: string, count: int, now: int)
    requires StatsKeyed(stats)
    ensures var after := RecordViewers(stats, streamId, count, now);
      var i := FindDayStats(after, streamId, Day(now));
      StatsKeyed(after) && i.Some? && after[i.value].viewerCount == count &&
      after[i.value].peakViewers >= count &&
      (FindDayStats(stats, streamId, Day(now)).Some? ==>
        var old_ := stats[FindDayStats(stats, streamId, Day(now)).value];
        i.value < |stats| && after[i.value].peakViewers >= old_.peakViewers &&
        (after[i.value].peakViewers == old_.peakViewers || after[i.value].peakViewers == count) &&
        after[i.value].totalRevenue == old_.totalRevenue && after[i.value].totalPurchases == old_.totalPurchases) &&
      (FindDayStats(stats, streamId, Day(now)).None? ==> after[i.value].peakViewers == count && i.value == |stats|) &&
      forall j :: 0 <= j < |stats| && j != i.value ==> after[j] == stats[j]
  {
    var d := Day(now);
    var after := RecordViewers(stats, streamId, count, now);
    match FindDayStats(stats, streamId, d)
    case Some(k) =>
      assert after[k].streamId == stats[k].streamId && after[k].recordedAt == stats[k].recordedAt;
      assert forall j :: 0 <= j < |stats| && j != k ==> after[j] == stats[j];
      LastDayStats(after, streamId, d, k);
    case None =>
      var row := StreamStats(streamId, now, count, count, 0, 0);
      assert after == stats + [row];
      LastDayStats(after, streamId, d, |stats|);
      forall a, b | 0 <= a < b < |after|
        ensures !(after[a].streamId == after[b].streamId && Day(after[a].recordedAt) == Day(after[b].recordedAt))
      {
        if b < |stats| { assert after[a] == stats[a] && after[b] == stats[b]; }
        else { assert after[a] == stats[a] && after[b] == row; }
      }
  }

  /** A row of the stream for the day with none after it is the one `FindDayStats` finds. */
  lemma {:induction false} LastDayStats(stats: seq<StreamStats>, streamId: string, day: int, k: nat)
    requires k < |stats| && stats[k].streamId == streamId && Day(stats[k].recordedAt) == day
    requires forall j :: k < j < |stats| ==> !(stats[j].streamId == streamId && Day(stats[j].recordedAt) == day)
    ensures FindDayStats(stats, streamId, day) == Some(k)
    decreases |stats|
  {
    if k < |stats| - 1 {
      var init := stats[..|stats| - 1];
      assert forall j :: k < j < |init| ==> init[j] == stats[j];
      LastDayStats(init, streamId, day, k);
    }
  }
}
