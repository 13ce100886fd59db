/** The payment side: shaping a payment intent for the gateway, wrapping webhook verification
    errors, and granting a paid stream exactly once with its revenue counted once. */
module Payments {
  import opened Common
  import opened Db

  // ================================================================ gateway

  /** The parameters sent to the gateway to open a payment. */
  datatype IntentRequest = IntentRequest(amount: int, currency: string, metadata: seq<(string, string)>, automaticPaymentMethods: bool)

  /** What the gateway returns for a new payment, and what this service hands on. */
  datatype CreatedIntent = CreatedIntent(clientSecret: string, id: string)

  /** A payment intent as a webhook event carries it. Amount is in cents. */
  datatype Intent = Intent(id: string, amount: int, currency: string, userId: string, streamId: string)

  /** A verified webhook event. */
  datatype Event = Event(eventType: string, intent: Intent)

  /** The gateway: opening a payment, and checking a webhook's signature against the secret. */
  datatype Gateway = Gateway(
    create: IntentRequest -> Result<CreatedIntent>,
    constructEvent: (string, string) -> Result<Event>)

  /** The request `createPaymentIntent` sends: the amount in cents, the currency in lower case
      and the buyer and the stream in the metadata. */
  function IntentRequestOf(amountInCents: int, currency: string, userId: string, streamId: string): (q: IntentRequest)
    ensures q.amount == amountInCents && q.currency == Lower(currency) && IsLowerCase(q.currency)
    ensures q.metadata == [("user_id", userId), ("stream_id", streamId)] && q.automaticPaymentMethods
  {
    LowerIsLowerCase(currency);
    IntentRequest(amountInCents, Lower(currency), [("user_id", userId), ("stream_id", streamId)], true)
  }

  const CreationFailed := "Payment creation failed: "
  const VerificationFailed := "Webhook verification failed: "

  /** `createPaymentIntent`: the gateway's answer, its failures re-raised with a prefix. */
  function CreatePaymentIntent(gateway: Gateway, amountInCents: int, currency: string, userId: string, streamId: string): (r: Result<CreatedIntent>)
    ensures var g := gateway.create(IntentRequestOf(amountInCents, currency, userId, streamId));
      (r.Ok? <==> g.Ok?) && (r.Ok? ==> r == g) && (r.Err? ==> r.msg == CreationFailed + g.msg)
  {
    match gateway.create(IntentRequestOf(amountInCents, currency, userId, streamId))
    case Ok(created) => Ok(CreatedIntent(created.clientSecret, created.id))
    case Err(m) => Err(CreationFailed + m)
  }

  /** `verifyWebhook`: the verified event, or the failure re-raised with a prefix. */
  function VerifyWebhook(gateway: Gateway, payload: string, sigHeader: string): (r: Result<Event>)
    ensures var v := gateway.constructEvent(payload, sigHeader);
      (r.Ok? <==> v.Ok?) && (r.Ok? ==> r == v) && (r.Err? ==> r.msg == VerificationFailed + v.msg)
  {
    match gateway.constructEvent(payload, sigHeader)
    case Ok(event) => Ok(event)
    case Err(m) => Err(VerificationFailed + m)
  }

  // ================================================================ ledger

  /** The two tables a payment touches. */
  datatype Ledger = Ledger(access: seq<StreamAccess>, stats: seq<StreamStats>)

  function LedgerOf(db: Database): Ledger
    reads db
  {
    Ledger(db.streamAccess, db.streamStats)
  }

  /** `SELECT id FROM stream_access WHERE user_id = ? AND stream_id = ?`: any grant, expired or not. */
  predicate GrantExists(access: seq<StreamAccess>, userId: string, streamId: string)
  {
    exists i :: 0 <= i < |access| && access[i].userId == userId && access[i].streamId == streamId
  }

  /** The grant a payment inserts: amount and reference from the intent, currency upper-cased,
      no expiry. */
  function GrantOf(intent: Intent): StreamAccess
  {
    StreamAccess(intent.userId, intent.streamId, intent.id, intent.amount, Upper(intent.currency), None)
  }

  /** `updateStreamRevenue`: today's row of the stream gains the amount and one purchase;
      without one, a row is inserted holding just this purchase. */
  function AddRevenue(stats: seq<StreamStats>, streamId: string, amount: int, now: int): seq<StreamStats>
  {
    match FindDayStats(stats, streamId, Day(now))
    case Some(i) => stats[i := stats[i].(totalRevenue := stats[i].totalRevenue + amount, totalPurchases := stats[i].totalPurchases + 1)]
    case None => stats + [StreamStats(streamId, now, 0, 0, amount, 1)]
  }

  /** `handleSuccessfulPayment`: nothing when the pair already has a grant; otherwise one grant
      and one revenue update. */
  function HandlePayment(l: Ledger, intent: Intent, now: int): Ledger
  {
    if GrantExists(l.access, intent.userId, intent.streamId) then l
    else Ledger(l.access + [GrantOf(intent)], AddRevenue(l.stats, intent.streamId, intent.amount, now))
  }

  method UpdateStreamRevenue(db: Database, streamId: string, amount: int, now: int)
    modifies db`streamStats
    ensures db.streamStats == AddRevenue(old(db.streamStats), streamId, amount, now)
  {
    var found := FindDayStats(db.streamStats, streamId, Day(now));
    if found.Some? {
      var i := found.value;
      var row := db.streamStats[i];
      db.streamStats := db.streamStats[i := row.(totalRevenue := row.totalRevenue + amount, totalPurchases := row.totalPurchases + 1)];
    } else {
      db.streamStats := db.streamStats + [StreamStats(streamId, now, 0, 0, amount, 1)];
    }
  }

  method HandleSuccessfulPayment(db: Database, intent: Intent, now: int)
    modifies db`streamAccess, db`streamStats
    ensures LedgerOf(db) == HandlePayment(old(LedgerOf(db)), intent, now)
  {
    if GrantExists(db.streamAccess, intent.userId, intent.streamId) {
      return;
    }
    db.streamAccess := db.streamAccess + [GrantOf(intent)];
    UpdateStreamRevenue(db, intent.streamId, intent.amount, now);
  }

  // ================================================================ properties

  /** At most one grant per user and stream. */
  predicate GrantsUnique(access: seq<StreamAccess>)
  {
    forall i, j :: 0 <= i < j < |access| ==> access[i].userId != access[j].userId || access[i].streamId != access[j].streamId
  }

  /** Purchases and revenue recorded for a stream, over all its rows. */
  function Purchases(stats: seq<StreamStats>, streamId: string): int
  {
    if stats == [] then 0
    else
      var last := stats[|stats| - 1];
      Purchases(stats[..|stats| - 1], streamId) + (if last.streamId == streamId then last.totalPurchases else 0)
  }

  function Revenue(stats: seq<StreamStats>, streamId: string): int
  {
    if stats == [] then 0
    else
      var last := stats[|stats| - 1];
      Revenue(stats[..|stats| - 1], streamId) + (if last.streamId == streamId then last.totalRevenue else 0)
  }

  /** Changing one row changes the totals of its stream by the row's change, and no other. */
  lemma {:induction false} TotalsOfUpdate(stats: seq<StreamStats>, i: nat, row: StreamStats, streamId: string)
    requires i < |stats| && row.streamId == stats[i].streamId
    ensures Purchases(stats[i := row], streamId) == Purchases(stats, streamId) +
      (if row.streamId == streamId then row.totalPurchases - stats[i].totalPurchases else 0)
    ensures Revenue(stats[i := row], streamId) == Revenue(stats, streamId) +
      (if row.streamId == streamId then row.totalRevenue - stats[i].totalRevenue else 0)
    decreases |stats|
  {
    var n := |stats|;
    var after := stats[i := row];
    if i < n - 1 {
      assert after[..n - 1] == stats[..n - 1][i := row];
      TotalsOfUpdate(stats[..n - 1], i, row, streamId);
    } else {
      assert after[..n - 1] == stats[..n - 1];
    }
  }

  lemma TotalsOfAppend(stats: seq<StreamStats>, row: StreamStats, streamId: string)
    ensures Purchases(stats + [row], streamId) == Purchases(stats, streamId) + (if row.streamId == streamId then row.totalPurchases else 0)
    ensures Revenue(stats + [row], streamId) == Revenue(stats, streamId) + (if row.streamId == streamId then row.totalRevenue else 0)
  {
    assert (stats + [row])[..|stats|] == stats;
  }

  /** A revenue update adds exactly one purchase and the amount to the stream's totals, leaves
      other streams' totals alone and keeps one row per stream and day. */
  lemma AddRevenueCountsOnce(stats: seq<StreamStats>, streamId: string, amount: int, now: int, other: string)
    ensures var after := AddRevenue(stats, streamId, amount, now);
      Purchases(after, other) == Purchases(stats, other) + (if other == streamId then 1 else 0) &&
      Revenue(after, other) == Revenue(stats, other) + (if other == streamId then amount else 0)
    ensures StatsKeyed(stats) ==> StatsKeyed(AddRevenue(stats, streamId, amount, now))
  {
    match FindDayStats(stats, streamId, Day(now))
    case Some(i) =>
      var row := stats[i].(totalRevenue := stats[i].totalRevenue + amount, totalPurchases := stats[i].totalPurchases + 1);
      TotalsOfUpdate(stats, i, row, other);
    case None =>
      var row := StreamStats(streamId, now, 0, 0, amount, 1);
      TotalsOfAppend(stats, row, other);
  }

  /** A payment for a pair without a grant adds exactly that grant, one purchase and the amount;
      for a pair with one it changes nothing. Afterwards the pair has a grant, and grants stay
      unique. */
  lemma PaymentGrantsOnce(l: Ledger, intent: Intent, now: int)
    ensures var after := HandlePayment(l, intent, now);
      GrantExists(after.access, intent.userId, intent.streamId) &&
      (GrantsUnique(l.access) ==> GrantsUnique(after.access)) &&
      (StatsKeyed(l.stats) ==> StatsKeyed(after.stats))
    ensures GrantExists(l.access, intent.userId, intent.streamId) ==> HandlePayment(l, intent, now) == l
    ensures !GrantExists(l.access, intent.userId, intent.streamId) ==>
      var after := HandlePayment(l, intent, now);
      after.access == l.access + [GrantOf(intent)] &&
      Purchases(after.stats, intent.streamId) == Purchases(l.stats, intent.streamId) + 1 &&
      Revenue(after.stats, intent.streamId) == Revenue(l.stats, intent.streamId) + intent.amount
  {
    var after := HandlePayment(l, intent, now);
    if !GrantExists(l.access, intent.userId, intent.streamId) {
      AddRevenueCountsOnce(l.stats, intent.streamId, intent.amount, now, intent.streamId);
      assert after.access[|l.access|] == GrantOf(intent);
    }
  }

  /** Handling a payment a second time, at any later moment, changes nothing: once is enough.
      The same holds for any other payment of the same user for the same stream. */
  lemma PaymentIdempotent(l: Ledger, intent: Intent, again: Intent, now: int, later: int)
    requires again.userId == intent.userId && again.streamId == intent.streamId
    ensures HandlePayment(HandlePayment(l, intent, now), again, later) == HandlePayment(l, intent, now)
  {
    PaymentGrantsOnce(l, intent, now);
  }

  /** The rows that carry a payment reference. */
  function RowsWithReference(access: seq<StreamAccess>, reference: string): nat
  {
    if access == [] then 0
    else RowsWithReference(access[..|access| - 1], reference) + (if access[|access| - 1].paymentIntentId == reference then 1 else 0)
  }

  /** A payment event delivered twice leaves exactly one grant row with its reference and
      exactly one purchase counted, when neither the pair nor the reference was seen before. */
  lemma DuplicateDeliveryCountedOnce(l: Ledger, intent: Intent, now: int, later: int)
    requires !GrantExists(l.access, intent.userId, intent.streamId) && RowsWithReference(l.access, intent.id) == 0
    ensures var after := HandlePayment(HandlePayment(l, intent, now), intent, later);
      RowsWithReference(after.access, intent.id) == 1 &&
      Purchases(after.stats, intent.streamId) == Purchases(l.stats, intent.streamId) + 1
  {
    PaymentIdempotent(l, intent, intent, now, later);
    PaymentGrantsOnce(l, intent, now);
    var access := l.access + [GrantOf(intent)];
    assert access[..|access| - 1] == l.access;
  }
}
