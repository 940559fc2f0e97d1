/** The `POST` handler of `webhook-api-template.ts`: a ladder of early returns in
    front of `processBraidPayWebhook`, and the module-level `processedPayments` set
    that makes repeated deliveries of one payment harmless.

    The set is threaded through explicitly: each request maps the set before it to
    the set after it. The deployment supplies the environment's secret and the
    business logic that the template leaves for the integrator to write. */
module WebhookRoute {
  import opened Wrappers
  import opened Types
  import opened Webhook

  /** The request body as `req.json()` sees it: either it throws (or yields `null`,
      whose fields cannot be read), or it yields a payload. A field that is absent
      reads as the empty string or the amount 0. A field of the wrong type, and a
      body that is a JSON value other than `null` or an object, are not represented. */
  datatype Body = Malformed | Parsed(payload: WebhookPayload)

  /** `x-webhook-signature` is `None` when the header is absent. */
  datatype Request = Request(signature: Option<string>, body: Body)

  /** The JSON bodies the route answers with. */
  datatype Reply = Failure(error: Option<string>) | Received | AlreadyProcessed

  datatype Response = Response(status: int, reply: Reply)

  /** The integrator's side: `BRAIDPAY_WEBHOOK_SECRET` from the environment, and the
      business logic that runs inside `onCompleted` before the id is recorded. */
  datatype Deployment = Deployment(secret: Option<string>, business: WebhookPayload -> Completion<()>)

  /** What one request did: the response, the processor's handler calls (empty when
      the processor was not reached), and the set of processed ids afterwards. */
  datatype Step = Step(response: Response, calls: seq<Call>, processed: set<string>)

  const MissingSignature := "Missing signature"
  const InvalidPayload := "Invalid payload"
  const ConfigurationError := "Configuration error"
  const InternalError := "Internal server error"

  /** The truthiness test on the three required fields. */
  predicate HasRequiredFields(p: WebhookPayload) {
    p.paymentID != "" && p.toAddress != "" && p.amount != 0
  }

  predicate HasSignature(req: Request) {
    req.signature.Some? && req.signature.value != ""
  }

  predicate HasSecret(dep: Deployment) {
    dep.secret.Some? && dep.secret.value != ""
  }

  /** The options the route hands to the processor. `onCompleted` wraps the business
      logic in a try/catch and so always returns; `onPending` and `onError` only log. */
  function TemplateOptions(secret: string): (o: ProcessorOptions)
    ensures o.webhookSecret == secret && o.onCompleted.Some? && o.onPending.Some? && o.onError.Some?
    ensures forall p :: o.onCompleted.value(p).Returned? && o.onPending.value(p).Returned?
    ensures forall m :: o.onError.value(m).Returned?
  {
    ProcessorOptions(secret, Some(_ => Returned(())), Some(_ => Returned(())), Some(_ => Returned(())))
  }

  function Reject(status: int, error: string, processed: set<string>): Step {
    Step(Response(status, Failure(Some(error))), [], processed)
  }

  /** One `POST`. */
  function Post(mac: Mac, dep: Deployment, processed: set<string>, req: Request): (r: Step)
    // The set only grows, and by at most the request's own payment id, which was not
    // yet in it.
    ensures processed <= r.processed
    ensures r.processed != processed ==>
              && req.body.Parsed?
              && req.body.payload.paymentID !in processed
              && r.processed == processed + {req.body.payload.paymentID}
    // The processor is reached only past every early return.
    ensures r.calls != [] ==>
              && HasSignature(req) && req.body.Parsed? && HasRequiredFields(req.body.payload)
              && req.body.payload.paymentID !in processed && HasSecret(dep)
    // Every error response says what went wrong.
    ensures r.response.status != 200 ==>
              r.response.reply.Failure? && r.response.reply.error.Some? && r.response.reply.error.value != ""
  {
    if !HasSignature(req) then Reject(401, MissingSignature, processed)
    else match req.body
      case Malformed => Reject(500, InternalError, processed)
      case Parsed(p) =>
        if !HasRequiredFields(p) then Reject(400, InvalidPayload, processed)
        else if p.paymentID in processed then Step(Response(200, AlreadyProcessed), [], processed)
        else if !HasSecret(dep) then Reject(500, ConfigurationError, processed)
        else
          var result := ProcessWebhook(mac, p, req.signature.value, TemplateOptions(dep.secret.value));
          var recorded := CompletedCall(p) in result.calls && dep.business(p).Returned?;
          var after := if recorded then processed + {p.paymentID} else processed;
          match result.outcome
          case Threw(_) => Step(Response(500, Failure(Some(InternalError))), result.calls, after)
          case Returned(res) =>
            if !res.success then Step(Response(400, Failure(res.error)), result.calls, after)
            else Step(Response(200, Received), result.calls, after)
  }

  /** A missing or empty signature header is answered with 401 before the body is
      looked at. */
  lemma MissingSignatureComesFirst(mac: Mac, dep: Deployment, processed: set<string>, req: Request)
    requires !HasSignature(req)
    ensures Post(mac, dep, processed, req) == Step(Response(401, Failure(Some(MissingSignature))), [], processed)
  {
  }

  /** A body that does not parse is answered with 500. */
  lemma MalformedBodyIsServerError(mac: Mac, dep: Deployment, processed: set<string>, req: Request)
    requires HasSignature(req) && req.body.Malformed?
    ensures Post(mac, dep, processed, req) == Step(Response(500, Failure(Some(InternalError))), [], processed)
  {
  }

  /** An empty payment id, an empty address or a zero amount is answered with 400. */
  lemma MissingFieldIsInvalidPayload(mac: Mac, dep: Deployment, processed: set<string>, req: Request)
    requires HasSignature(req) && req.body.Parsed? && !HasRequiredFields(req.body.payload)
    ensures Post(mac, dep, processed, req) == Step(Response(400, Failure(Some(InvalidPayload))), [], processed)
  {
  }

  /** A payment already processed is acknowledged with 200 whatever the secret and
      whatever the signature: neither is checked. */
  lemma AlreadyProcessedSkipsVerification(mac: Mac, dep: Deployment, processed: set<string>, req: Request)
    requires HasSignature(req) && req.body.Parsed? && HasRequiredFields(req.body.payload)
    requires req.body.payload.paymentID in processed
    ensures Post(mac, dep, processed, req) == Step(Response(200, AlreadyProcessed), [], processed)
  {
  }

  /** A missing secret is answered with 500 once the idempotency check has passed. */
  lemma MissingSecretIsConfigurationError(mac: Mac, dep: Deployment, processed: set<string>, req: Request)
    requires HasSignature(req) && req.body.Parsed? && HasRequiredFields(req.body.payload)
    requires req.body.payload.paymentID !in processed && !HasSecret(dep)
    ensures Post(mac, dep, processed, req) == Step(Response(500, Failure(Some(ConfigurationError))), [], processed)
  {
  }

  /** Past the early returns, the response is the processor's result: 400 with its
      error on failure, 200 on success. The processor never throws here, because the
      template's `onError` only logs. */
  lemma ProcessorResultIsResponse(mac: Mac, dep: Deployment, processed: set<string>, req: Request)
    requires HasSignature(req) && req.body.Parsed? && HasRequiredFields(req.body.payload)
    requires req.body.payload.paymentID !in processed && HasSecret(dep)
    ensures var result := ProcessWebhook(mac, req.body.payload, req.signature.value, TemplateOptions(dep.secret.value));
            var r := Post(mac, dep, processed, req);
            && result.outcome.Returned?
            && r.calls == result.calls
            && (result.outcome.value.success ==> r.response == Response(200, Received))
            && (!result.outcome.value.success ==> r.response == Response(400, Failure(result.outcome.value.error)))
  {
    var p := req.body.payload;
    NeverThrowsWithQuietOnError(mac, p, req.signature.value, TemplateOptions(dep.secret.value));
  }

  /** The route answers 500 exactly when the body does not parse or the secret is
      missing; no other path reaches the outer catch. */
  lemma ServerErrorIff(mac: Mac, dep: Deployment, processed: set<string>, req: Request)
    ensures Post(mac, dep, processed, req).response.status == 500
        <==> && HasSignature(req)
             && (|| req.body.Malformed?
                 || (HasRequiredFields(req.body.payload) && req.body.payload.paymentID !in processed && !HasSecret(dep)))
  {
    if HasSignature(req) && req.body.Parsed? && HasRequiredFields(req.body.payload)
       && req.body.payload.paymentID !in processed && HasSecret(dep) {
      ProcessorResultIsResponse(mac, dep, processed, req);
    }
  }

  /** A payment id enters the set exactly when the request gets past the early
      returns, carries the signature the secret yields for its address and amount,
      has status `COMPLETED`, and the business logic returns. */
  lemma RecordedIff(mac: Mac, dep: Deployment, processed: set<string>, req: Request)
    ensures Post(mac, dep, processed, req).processed != processed
        <==> && HasSignature(req) && req.body.Parsed? && HasRequiredFields(req.body.payload)
             && req.body.payload.paymentID !in processed && HasSecret(dep)
             && req.signature.value == ExpectedSignature(mac, dep.secret.value, req.body.payload.toAddress, req.body.payload.amount)
             && req.body.payload.status == Completed
             && dep.business(req.body.payload).Returned?
  {
    if HasSignature(req) && req.body.Parsed? && HasRequiredFields(req.body.payload)
       && req.body.payload.paymentID !in processed && HasSecret(dep) {
      var p := req.body.payload;
      var options := TemplateOptions(dep.secret.value);
      var result := ProcessWebhook(mac, p, req.signature.value, options);
      HandlersOnlyAfterVerification(mac, p, req.signature.value, options);
      if CompletedCall(p) in result.calls {
        var i :| 0 <= i < |result.calls| && result.calls[i] == CompletedCall(p);
        assert IsHandlerCall(result.calls[i]);
      }
      if req.signature.value == ExpectedSignature(mac, dep.secret.value, p.toAddress, p.amount) && p.status == Completed {
        assert result.calls[0] == CompletedCall(p);
      }
    }
  }

  /** Business logic that throws is swallowed: BraidPay still gets 200, and the id is
      not recorded, so a redelivery runs the business logic again. */
  lemma BusinessFailureIsAcknowledged(mac: Mac, dep: Deployment, processed: set<string>, req: Request)
    requires HasSignature(req) && req.body.Parsed? && HasRequiredFields(req.body.payload)
    requires req.body.payload.paymentID !in processed && HasSecret(dep)
    requires req.signature.value == ExpectedSignature(mac, dep.secret.value, req.body.payload.toAddress, req.body.payload.amount)
    requires req.body.payload.status == Completed && dep.business(req.body.payload).Threw?
    ensures var r := Post(mac, dep, processed, req);
            && r.response == Response(200, Received)
            && r.processed == processed
            && CompletedCall(req.body.payload) in r.calls
  {
    var p := req.body.payload;
    var options := TemplateOptions(dep.secret.value);
    var result := ProcessWebhook(mac, p, req.signature.value, options);
    assert result.calls == [CompletedCall(p)];
    assert result.outcome == Returned(WebhookResult(true, None));
  }

  /** A sequence of deliveries, each seeing the set the previous one left. */
  function Run(mac: Mac, dep: Deployment, processed: set<string>, reqs: seq<Request>): (steps: seq<Step>)
    ensures |steps| == |reqs|
    decreases |reqs|
  {
    if |reqs| == 0 then []
    else
      var first := Post(mac, dep, processed, reqs[0]);
      [first] + Run(mac, dep, first.processed, reqs[1..])
  }

  /** The set a run leaves behind. */
  function Final(processed: set<string>, steps: seq<Step>): set<string> {
    if |steps| == 0 then processed else steps[|steps| - 1].processed
  }

  /** The business logic ran to completion for this request. */
  predicate BusinessCompleted(dep: Deployment, req: Request, step: Step) {
    req.body.Parsed? && CompletedCall(req.body.payload) in step.calls && dep.business(req.body.payload).Returned?
  }

  /** In one request, completed business logic is what records the id. */
  lemma CompletionRecords(mac: Mac, dep: Deployment, processed: set<string>, req: Request)
    ensures var r := Post(mac, dep, processed, req);
            BusinessCompleted(dep, req, r) <==> r.processed != processed
  {
  }

  /** A run never shrinks the set. */
  lemma {:induction false} RunGrows(mac: Mac, dep: Deployment, processed: set<string>, reqs: seq<Request>)
    ensures processed <= Final(processed, Run(mac, dep, processed, reqs))
    decreases |reqs|
  {
    if |reqs| > 0 {
      var first := Post(mac, dep, processed, reqs[0]);
      var rest := Run(mac, dep, first.processed, reqs[1..]);
      RunGrows(mac, dep, first.processed, reqs[1..]);
      var steps := Run(mac, dep, processed, reqs);
      assert steps == [first] + rest;
      assert processed <= first.processed;
      if |rest| > 0 {
        assert steps[|steps| - 1] == rest[|rest| - 1];
      }
    }
  }

  /** A run never completes the business logic for an id already in the set it
      started from. */
  lemma {:induction false} RunSkipsKnown(mac: Mac, dep: Deployment, processed: set<string>, reqs: seq<Request>, k: nat)
    requires k < |reqs|
    requires BusinessCompleted(dep, reqs[k], Run(mac, dep, processed, reqs)[k])
    ensures reqs[k].body.payload.paymentID !in processed
    decreases |reqs|
  {
    var first := Post(mac, dep, processed, reqs[0]);
    if k == 0 {
      CompletionRecords(mac, dep, processed, reqs[0]);
    } else {
      var steps := Run(mac, dep, processed, reqs);
      assert steps[k] == Run(mac, dep, first.processed, reqs[1..])[k - 1];
      assert reqs[k] == reqs[1..][k - 1];
      RunSkipsKnown(mac, dep, first.processed, reqs[1..], k - 1);
    }
  }

  /** Idempotency: over any sequence of deliveries, the business logic completes at
      most once per payment id, and never for an id recorded beforehand. */
  lemma {:induction false} BusinessCompletesOncePerPayment(
    mac: Mac, dep: Deployment, processed: set<string>, reqs: seq<Request>, i: nat, j: nat)
    requires i < j < |reqs|
    requires BusinessCompleted(dep, reqs[i], Run(mac, dep, processed, reqs)[i])
    requires BusinessCompleted(dep, reqs[j], Run(mac, dep, processed, reqs)[j])
    ensures reqs[i].body.payload.paymentID != reqs[j].body.payload.paymentID
    decreases |reqs|
  {
    var first := Post(mac, dep, processed, reqs[0]);
    CompletedShifts(mac, dep, processed, reqs, j);
    if i == 0 {
      FirstCompletionRecorded(mac, dep, processed, reqs);
      RunSkipsKnown(mac, dep, first.processed, reqs[1..], j - 1);
    } else {
      CompletedShifts(mac, dep, processed, reqs, i);
      BusinessCompletesOncePerPayment(mac, dep, first.processed, reqs[1..], i - 1, j - 1);
    }
  }

  /** A completion in the first request records its id. */
  lemma FirstCompletionRecorded(mac: Mac, dep: Deployment, processed: set<string>, reqs: seq<Request>)
    requires 0 < |reqs|
    requires BusinessCompleted(dep, reqs[0], Run(mac, dep, processed, reqs)[0])
    ensures reqs[0].body.payload.paymentID in Post(mac, dep, processed, reqs[0]).processed
  {
    assert Run(mac, dep, processed, reqs)[0] == Post(mac, dep, processed, reqs[0]);
    CompletionRecords(mac, dep, processed, reqs[0]);
  }

  /** A completion past the first request is a completion in the run of the rest. */
  lemma CompletedShifts(mac: Mac, dep: Deployment, processed: set<string>, reqs: seq<Request>, k: nat)
    requires 0 < k < |reqs|
    requires BusinessCompleted(dep, reqs[k], Run(mac, dep, processed, reqs)[k])
    ensures reqs[1..][k - 1] == reqs[k]
    ensures BusinessCompleted(dep, reqs[1..][k - 1],
                              Run(mac, dep, Post(mac, dep, processed, reqs[0]).processed, reqs[1..])[k - 1])
  {
    assert reqs[k] == reqs[1..][k - 1];
  }
}
