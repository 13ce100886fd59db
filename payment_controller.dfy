/** The two payment endpoints: opening a payment for a stream, behind its chain of guards, and
    the gateway's webhook, which grants the stream once a payment has gone through. */
module PaymentControl {
  import opened Common
  import opened Db
  import opened Streams
  import Auth
  import Payments

  /** An HTTP answer: the status code and the JSON object sent, as key/value pairs. */
  datatype Response = Response(status: int, body: seq<(string, string)>)

  function ErrorResponse(status: int, msg: string): Response
  {
    Response(status, [("error", msg)])
  }

  const Succeeded := "payment_intent.succeeded"
  const StreamIdRequired := "Stream ID required"
  const StreamNotFound := "Stream not found"
  const AlreadyPaid := "You already have access to this stream"

  // ================================================================ createPaymentIntent

  /** Where the guards of `createPaymentIntent` leave a request: cleared to pay for a stream,
      or refused with a status and a message. */
  datatype Screened = Cleared(userId: string, stream: Stream) | Refused(status: int, msg: string)

  /** The guards, in order: a valid token, a stream id in the body, an existing stream, and no
      access yet. A failed token check answers 400: the handler's catch overrides the 401 set
      before the throw. */
  function Screen(streams: map<nat, StreamRow>, access: seq<StreamAccess>, header: Option<string>,
                  input: Option<map<string, Value>>, crypto: Auth.Crypto, now: int): (r: Screened)
    ensures Auth.RequireAuth(header, crypto, now).Denied? ==> r == Refused(400, Auth.RequireAuth(header, crypto, now).msg)
    ensures Auth.RequireAuth(header, crypto, now).Granted? && (input.None? || !IsSet(input.value, "stream_id")) ==>
      r == Refused(400, StreamIdRequired)
    ensures (Auth.RequireAuth(header, crypto, now).Granted? && input.Some? && IsSet(input.value, "stream_id") &&
      GetStream(streams, ToText(input.value["stream_id"])).None?) ==> r == Refused(404, StreamNotFound)
    ensures r.Cleared? <==> (Auth.RequireAuth(header, crypto, now).Granted? && input.Some? && IsSet(input.value, "stream_id") &&
      GetStream(streams, ToText(input.value["stream_id"])).Some? &&
      !HasAccess(access, Auth.RequireAuth(header, crypto, now).claims.userId,
        NatToString(GetStream(streams, ToText(input.value["stream_id"])).value.id), now))
    ensures r.Cleared? ==> (r.userId == Auth.RequireAuth(header, crypto, now).claims.userId &&
      Some(r.stream) == GetStream(streams, ToText(input.value["stream_id"])))
  {
    match Auth.RequireAuth(header, crypto, now)
    case Denied(_, msg) => Refused(400, msg)
    case Granted(claims) =>
      if input.None? || !IsSet(input.value, "stream_id") then Refused(400, StreamIdRequired)
      else match GetStream(streams, ToText(input.value["stream_id"]))
        case None => Refused(404, StreamNotFound)
        case Some(s) =>
          if HasAccess(access, claims.userId, NatToString(s.id), now) then Refused(400, AlreadyPaid)
          else Cleared(claims.userId, s)
  }

  /** The payment the endpoint asks the gateway to open, if the guards let it through: the
      stream's price in cents and currency, the buyer and the stream. `toCents` stands for
      `(int)($price * 100)` on the stored decimal price. */
  function IntentSent(streams: map<nat, StreamRow>, access: seq<StreamAccess>, header: Option<string>,
                      input: Option<map<string, Value>>, crypto: Auth.Crypto, toCents: Value -> int, now: int): Option<Payments.IntentRequest>
  {
    match Screen(streams, access, header, input, crypto, now)
    case Refused(_, _) => None
    case Cleared(userId, s) =>
      Some(Payments.IntentRequestOf(toCents(Col(s.row, "price")), ToText(Col(s.row, "currency")), userId, NatToString(s.id)))
  }

  /** `createPaymentIntent`: refused requests answer with the guard's status; a cleared one
      answers with the gateway's client secret and payment id, or 400 when the gateway fails. */
  function CreatePaymentIntent(streams: map<nat, StreamRow>, access: seq<StreamAccess>, header: Option<string>,
                               input: Option<map<string, Value>>, crypto: Auth.Crypto, gateway: Payments.Gateway,
                               toCents: Value -> int, now: int): (r: Response)
    ensures var sc := Screen(streams, access, header, input, crypto, now);
      sc.Refused? ==> r == ErrorResponse(sc.status, sc.msg)
    ensures var sent := IntentSent(streams, access, header, input, crypto, toCents, now);
      sent.Some? ==>
        (gateway.create(sent.value).Ok? ==> r == Response(200, [("client_secret", gateway.create(sent.value).value.clientSecret),
                                                              ("payment_intent_id", gateway.create(sent.value).value.id)])) &&
        (gateway.create(sent.value).Err? ==> r == ErrorResponse(400, Payments.CreationFailed + gateway.create(sent.value).msg))
    ensures r.status == 200 <==> (IntentSent(streams, access, header, input, crypto, toCents, now).Some? &&
      gateway.create(IntentSent(streams, access, header, input, crypto, toCents, now).value).Ok?)
  {
    match Screen(streams, access, header, input, crypto, now)
    case Refused(status, msg) => ErrorResponse(status, msg)
    case Cleared(userId, s) =>
      match Payments.CreatePaymentIntent(gateway, toCents(Col(s.row, "price")), ToText(Col(s.row, "currency")), userId, NatToString(s.id))
      case Ok(created) => Response(200, [("client_secret", created.clientSecret), ("payment_intent_id", created.id)])
      case Err(msg) => ErrorResponse(400, msg)
  }

  /** A buyer who already has access is told so and no payment is opened. */
  lemma AlreadyPaidOpensNothing(streams: map<nat, StreamRow>, access: seq<StreamAccess>, header: Option<string>,
                                input: Option<map<string, Value>>, crypto: Auth.Crypto, gateway: Payments.Gateway,
                                toCents: Value -> int, now: int)
    requires Auth.RequireAuth(header, crypto, now).Granted? && input.Some? && IsSet(input.value, "stream_id")
    requires GetStream(streams, ToText(input.value["stream_id"])).Some?
    requires HasAccess(access, Auth.RequireAuth(header, crypto, now).claims.userId,
      NatToString(GetStream(streams, ToText(input.value["stream_id"])).value.id), now)
    ensures IntentSent(streams, access, header, input, crypto, toCents, now).None?
    ensures CreatePaymentIntent(streams, access, header, input, crypto, gateway, toCents, now) == ErrorResponse(400, AlreadyPaid)
  {
  }

  /** The payment opened for a cleared request names the token's user and the requested stream,
      in lower-case currency. */
  lemma IntentNamesBuyerAndStream(streams: map<nat, StreamRow>, access: seq<StreamAccess>, header: Option<string>,
                                  input: Option<map<string, Value>>, crypto: Auth.Crypto, toCents: Value -> int, now: int)
    requires IntentSent(streams, access, header, input, crypto, toCents, now).Some?
    ensures var q := IntentSent(streams, access, header, input, crypto, toCents, now).value;
      var claims := Auth.RequireAuth(header, crypto, now).claims;
      var s := GetStream(streams, ToText(input.value["stream_id"])).value;
      Auth.RequireAuth(header, crypto, now).Granted? &&
      q.metadata == [("user_id", claims.userId), ("stream_id", NatToString(s.id))] &&
      IsLowerCase(q.currency) && !HasAccess(access, claims.userId, NatToString(s.id), now)
  {
  }

  // ================================================================ handleWebhook

  datatype WebhookOutcome = WebhookOutcome(response: Response, ledger: Payments.Ledger)

  const SuccessBody: seq<(string, string)> := [("status", "success")]

  /** `handleWebhook`: a payload that does not verify answers 400 and changes nothing; a
      verified event answers success, and only a succeeded payment is applied. */
  function Webhook(l: Payments.Ledger, gateway: Payments.Gateway, payload: string, sigHeader: Option<string>, now: int): WebhookOutcome
  {
    match Payments.VerifyWebhook(gateway, payload, GetOr(sigHeader, ""))
    case Err(msg) => WebhookOutcome(ErrorResponse(400, msg), l)
    case Ok(event) =>
      if event.eventType == Succeeded then WebhookOutcome(Response(200, SuccessBody), Payments.HandlePayment(l, event.intent, now))
      else WebhookOutcome(Response(200, SuccessBody), l)
  }

  method HandleWebhook(db: Database, gateway: Payments.Gateway, payload: string, sigHeader: Option<string>, now: int)
    returns (response: Response)
    modifies db`streamAccess, db`streamStats
    ensures var w := Webhook(old(Payments.LedgerOf(db)), gateway, payload, sigHeader, now);
      response == w.response && Payments.LedgerOf(db) == w.ledger
  {
    var verified := Payments.VerifyWebhook(gateway, payload, GetOr(sigHeader, ""));
    if verified.Err? {
      return ErrorResponse(400, verified.msg);
    }
    if verified.value.eventType == Succeeded {
      Payments.HandleSuccessfulPayment(db, verified.value.intent, now);
    }
    response := Response(200, SuccessBody);
  }

  /** Fail closed: a payload that does not verify, unsigned ones included, is answered 400 with
      the wrapped reason and grants nothing. */
  lemma WebhookFailsClosed(l: Payments.Ledger, gateway: Payments.Gateway, payload: string, sigHeader: Option<string>, now: int)
    requires gateway.constructEvent(payload, GetOr(sigHeader, "")).Err?
    ensures var w := Webhook(l, gateway, payload, sigHeader, now);
      w.ledger == l && w.response.status == 400 &&
      w.response.body == [("error", Payments.VerificationFailed + gateway.constructEvent(payload, GetOr(sigHeader, "")).msg)]
  {
  }

  /** Only a verified succeeded payment changes the ledger; other verified events still answer
      success. */
  lemma WebhookGrantsOnlySucceeded(l: Payments.Ledger, gateway: Payments.Gateway, payload: string, sigHeader: Option<string>, now: int)
    requires gateway.constructEvent(payload, GetOr(sigHeader, "")).Ok?
    ensures var e := gateway.constructEvent(payload, GetOr(sigHeader, "")).value;
      var w := Webhook(l, gateway, payload, sigHeader, now);
      w.response == Response(200, SuccessBody) &&
      (e.eventType != Succeeded ==> w.ledger == l) &&
      (e.eventType == Succeeded ==> w.ledger == Payments.HandlePayment(l, e.intent, now))
  {
  }

  /** A redelivered webhook, at any later time, leaves the ledger as the first delivery did. */
  lemma WebhookRedeliveryNoop(l: Payments.Ledger, gateway: Payments.Gateway, payload: string, sigHeader: Option<string>, now: int, later: int)
    ensures var first := Webhook(l, gateway, payload, sigHeader, now);
      Webhook(first.ledger, gateway, payload, sigHeader, later).ledger == first.ledger
  {
    var v := Payments.VerifyWebhook(gateway, payload, GetOr(sigHeader, ""));
    if v.Ok? && v.value.eventType == Succeeded {
      Payments.PaymentIdempotent(l, v.value.intent, v.value.intent, now, later);
    }
  }

  /** Grants as this code writes them: none carries an expiry. */
  predicate NoExpiry(access: seq<StreamAccess>)
  {
    forall i :: 0 <= i < |access| ==> access[i].expiresAt.None?
  }

  /** Paying for a stream gives access: when the gateway confirms a payment carrying the buyer
      and the stream of a cleared request, the buyer has access from then on. */
  lemma PaidStreamGivesAccess(l: Payments.Ledger, userId: string, s: Stream, gateway: Payments.Gateway,
                              payload: string, sigHeader: Option<string>, now: int, later: int)
    requires NoExpiry(l.access) && !HasAccess(l.access, userId, NatToString(s.id), now)
    requires gateway.constructEvent(payload, GetOr(sigHeader, "")).Ok?
    requires var e := gateway.constructEvent(payload, GetOr(sigHeader, "")).value;
      e.eventType == Succeeded && e.intent.userId == userId && e.intent.streamId == NatToString(s.id)
    ensures var w := Webhook(l, gateway, payload, sigHeader, now);
      NoExpiry(w.ledger.access) && HasAccess(w.ledger.access, userId, NatToString(s.id), later)
  {
    var e := gateway.constructEvent(payload, GetOr(sigHeader, "")).value;
    assert !Payments.GrantExists(l.access, userId, NatToString(s.id)) by {
      forall i | 0 <= i < |l.access|
        ensures !(l.access[i].userId == userId && l.access[i].streamId == NatToString(s.id))
      {
        assert Active(l.access[i], now);
      }
    }
    var after := Payments.HandlePayment(l, e.intent, now);
    assert after.access[|l.access|] == Payments.GrantOf(e.intent);
    assert Active(after.access[|l.access|], later);
  }

  /** The idempotency check looks at any grant of the pair: a buyer whose earlier grant has run
      out is cleared to pay again, yet the confirmed payment adds no grant and gives no access. */
  lemma RepurchaseAfterExpiryGrantsNothing(l: Payments.Ledger, intent: Payments.Intent, now: int)
    requires Payments.GrantExists(l.access, intent.userId, intent.streamId)
    requires forall i :: 0 <= i < |l.access| && l.access[i].userId == intent.userId && l.access[i].streamId == intent.streamId ==>
      !Active(l.access[i], now)
    ensures !HasAccess(l.access, intent.userId, intent.streamId, now)
    ensures Payments.HandlePayment(l, intent, now) == l
  {
  }
}
