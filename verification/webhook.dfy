/** The webhook verifier and dispatcher of `utils/webhook.ts`.

    HMAC-SHA256 (RFC 2104 over FIPS 180-4) is not modelled: it is the parameter
    `mac`, any function from (key bytes, message bytes) to a 32-byte digest. */
module Webhook {
  import opened Wrappers
  import opened Text
  import opened Utf8
  import opened Types

  type Digest = d: seq<byte> | |d| == 32 witness seq(32, _ => 0 as byte)

  /** HMAC-SHA256(key, message). */
  type Mac = (seq<byte>, seq<byte>) -> Digest

  /** The message Node's `crypto.timingSafeEqual` throws with on buffers of different lengths. */
  const LengthMismatch := "Input buffers must have the same byte length"
  const InvalidSignature := "Invalid signature"
  const ProcessingFailed := "Failed to process webhook"

  /** The signed message `${toAddress}:${amount}`; reading it back recovers both parts,
      because the rendered amount never contains the colon. */
  function SignedMessage(toAddress: string, amount: int): (m: string)
    ensures ParseSignedMessage(m) == Some((toAddress, amount))
  {
    var rendered := IntToDecimal(amount);
    IntToDecimalAvoids(amount, ':');
    IntToDecimalRoundTrip(amount);
    LastIndexOfSeparator(toAddress, ':', rendered);
    var m := toAddress + ":" + rendered;
    assert m[|toAddress| + 1..] == rendered && m[..|toAddress|] == toAddress;
    m
  }

  /** Splits a signed message at its last colon and reads the amount after it. */
  function ParseSignedMessage(m: string): Option<(string, int)> {
    match LastIndexOf(m, ':')
    case None => None
    case Some(i) =>
      match ParseInteger(m[i + 1..])
      case None => None
      case Some(n) => Some((m[..i], n))
  }

  /** `createHmac('sha256', secret).update(message).digest('hex')`: 64 lower-case
      hexadecimal characters, 64 bytes once encoded. */
  function ExpectedSignature(mac: Mac, secret: string, toAddress: string, amount: int): (sig: string)
    ensures |sig| == 64 && IsAscii(sig) && |Encode(sig)| == 64
    ensures forall i :: 0 <= i < |sig| ==> IsLowerHex(sig[i])
    ensures HexDecode(sig) == Some(mac(Encode(secret), Encode(SignedMessage(toAddress, amount))))
  {
    var digest := mac(Encode(secret), Encode(SignedMessage(toAddress, amount)));
    HexRoundTrip(digest);
    EncodeAscii(Hex(digest));
    Hex(digest)
  }

  /** `crypto.timingSafeEqual`: throws on a length mismatch, otherwise compares. */
  function TimingSafeEqual(a: seq<byte>, b: seq<byte>): Completion<bool> {
    if |a| != |b| then Threw(LengthMismatch) else Returned(a == b)
  }

  /** `verifyWebhookSignature`: compares the UTF-8 bytes of the header signature with
      those of the expected hex digest. It throws exactly when the signature is not
      64 bytes long; otherwise it is true exactly for the expected signature. */
  function VerifyWebhookSignature(mac: Mac, secret: string, toAddress: string, amount: int, signature: string)
    : (r: Completion<bool>)
    ensures r.Threw? <==> |Encode(signature)| != 64
    ensures r.Threw? ==> r.message == LengthMismatch
    ensures r.Returned? ==> (r.value <==> signature == ExpectedSignature(mac, secret, toAddress, amount))
  {
    var expected := ExpectedSignature(mac, secret, toAddress, amount);
    assert Encode(signature) == Encode(expected) ==> signature == expected by {
      if Encode(signature) == Encode(expected) {
        EncodeInjective(signature, expected);
      }
    }
    TimingSafeEqual(Encode(signature), Encode(expected))
  }

  /** The signature computed for an address and amount is accepted. */
  lemma ExpectedSignatureVerifies(mac: Mac, secret: string, toAddress: string, amount: int)
    ensures VerifyWebhookSignature(mac, secret, toAddress, amount,
                                   ExpectedSignature(mac, secret, toAddress, amount)) == Returned(true)
  {
  }

  /** A 64-character signature that holds any non-ASCII character is longer than
      64 bytes, so the comparison throws instead of returning false. */
  lemma NonAsciiSignatureThrows(mac: Mac, secret: string, toAddress: string, amount: int, signature: string)
    requires |signature| == 64 && !IsAscii(signature)
    ensures VerifyWebhookSignature(mac, secret, toAddress, amount, signature) == Threw(LengthMismatch)
  {
    EncodeLength(signature);
  }

  /** Different (address, amount) pairs sign different messages. */
  lemma SignedMessageInjective(a: string, n: int, b: string, k: int)
    requires SignedMessage(a, n) == SignedMessage(b, k)
    ensures a == b && n == k
  {
  }

  /** Without the colon the message would be ambiguous: address `0xABC` with amount 10
      and address `0xABC1` with amount 0 would sign the same string. */
  lemma UnseparatedMessageIsAmbiguous()
    ensures "0xABC" + IntToDecimal(10) == "0xABC1" + IntToDecimal(0)
    ensures SignedMessage("0xABC", 10) != SignedMessage("0xABC1", 0)
  {
    assert IntToDecimal(10) == "10";
  }

  /** A handler invocation or an `onError` notification, in call order. */
  datatype Call = CompletedCall(payload: WebhookPayload) | PendingCall(payload: WebhookPayload) | ErrorCall(message: string)

  /** `{success, error?}`. */
  datatype WebhookResult = WebhookResult(success: bool, error: Option<string>)

  /** What one `processBraidPayWebhook` call does: its result (or the error it throws)
      and the calls it makes into the options' handlers. */
  datatype Processing = Processing(outcome: Completion<WebhookResult>, calls: seq<Call>)

  /** The answer to a signature of the right length that does not match. */
  const Rejected := Processing(Returned(WebhookResult(false, Some(InvalidSignature))), [])

  predicate IsHandlerCall(c: Call) {
    c.CompletedCall? || c.PendingCall?
  }

  /** The catch block: tell `onError` (if any), then report the message, or the
      fallback text when the message is empty. */
  function Recover(options: ProcessorOptions, message: string, calls: seq<Call>): (r: Processing)
    ensures r.calls == calls + (if options.onError.Some? then [ErrorCall(message)] else [])
    ensures r.outcome.Threw? ==> options.onError.Some? && options.onError.value(message) == Threw(r.outcome.message)
    ensures options.onError.Some? && options.onError.value(message).Threw? ==>
              r.outcome == Threw(options.onError.value(message).message)
    ensures r.outcome.Returned? ==>
              r.outcome.value == WebhookResult(false, Some(if message == "" then ProcessingFailed else message))
  {
    var result := Returned(WebhookResult(false, Some(if message == "" then ProcessingFailed else message)));
    match options.onError
    case None => Processing(result, calls)
    case Some(onError) =>
      match onError(message)
      case Threw(m) => Processing(Threw(m), calls + [ErrorCall(message)])
      case Returned(_) => Processing(result, calls + [ErrorCall(message)])
  }

  /** The end of a dispatched handler: success, or the catch block with its error. */
  function Finish(options: ProcessorOptions, handled: Completion<()>, calls: seq<Call>): (r: Processing)
    ensures handled.Returned? ==> r == Processing(Returned(WebhookResult(true, None)), calls)
    ensures handled.Threw? ==> r == Recover(options, handled.message, calls)
  {
    match handled
    case Returned(_) => Processing(Returned(WebhookResult(true, None)), calls)
    case Threw(m) => Recover(options, m, calls)
  }

  /** What running one handler amounts to, given its outcome: a handler that returns
      leaves `{success: true}` with its one call; one that throws is followed by one
      `onError` notification (if any) and, unless that throws, the failure result. */
  predicate Handled(r: Processing, options: ProcessorOptions, outcome: Completion<()>, call: Call) {
    && (outcome.Returned? ==> r == Processing(Returned(WebhookResult(true, None)), [call]))
    && (outcome.Threw? ==>
          && r.calls == [call] + (if options.onError.Some? then [ErrorCall(outcome.message)] else [])
          && (r.outcome.Returned? ==>
                r.outcome.value == WebhookResult(false, Some(if outcome.message == "" then ProcessingFailed else outcome.message)))
          && (options.onError.Some? && options.onError.value(outcome.message).Threw? ==>
                r.outcome == Threw(options.onError.value(outcome.message).message)))
  }

  /** The body of `processBraidPayWebhook` after the signature check, as a function of
      that check's outcome (`verdict`). */
  function Dispatch(verdict: Completion<bool>, payload: WebhookPayload, options: ProcessorOptions)
    : (r: Processing)
    // A mismatching signature is reported and nothing is called.
    ensures verdict == Returned(false) ==> r == Rejected
    // A throwing check lands in the catch block: onError hears of it and the result
    // carries the thrown message.
    ensures verdict.Threw? ==>
              && r.calls == (if options.onError.Some? then [ErrorCall(verdict.message)] else [])
              && (r.outcome.Returned? ==>
                    r.outcome.value == WebhookResult(false, Some(if verdict.message == "" then ProcessingFailed else verdict.message)))
    // A verified payload with a matching handler runs that handler first, with the payload.
    ensures && verdict == Returned(true)
            && ((payload.status == Completed && options.onCompleted.Some?) || (payload.status == Pending && options.onPending.Some?))
            ==> |r.calls| >= 1 && r.calls[0] == (if payload.status == Completed then CompletedCall(payload) else PendingCall(payload))
    // A verified payload with no matching handler succeeds without calls.
    ensures && verdict == Returned(true)
            && !(payload.status == Completed && options.onCompleted.Some?)
            && !(payload.status == Pending && options.onPending.Some?)
            ==> r == Processing(Returned(WebhookResult(true, None)), [])
    // The matching handler's outcome decides the result.
    ensures verdict == Returned(true) && payload.status == Completed && options.onCompleted.Some? ==>
              Handled(r, options, options.onCompleted.value(payload), CompletedCall(payload))
    ensures verdict == Returned(true) && payload.status == Pending && options.onPending.Some? ==>
              Handled(r, options, options.onPending.value(payload), PendingCall(payload))
    // A thrown check goes to the catch block, which throws exactly when onError throws.
    ensures verdict.Threw? && options.onError.Some? && options.onError.value(verdict.message).Threw? ==>
              r.outcome == Threw(options.onError.value(verdict.message).message)
    // onError is only ever the last call, and the processor only throws what onError threw.
    ensures forall i :: 0 <= i < |r.calls| && r.calls[i].ErrorCall? ==> i == |r.calls| - 1 && options.onError.Some?
    ensures r.outcome.Threw? ==>
              && options.onError.Some? && |r.calls| >= 1 && r.calls[|r.calls| - 1].ErrorCall?
              && options.onError.value(r.calls[|r.calls| - 1].message) == Threw(r.outcome.message)
    // A failure always carries a non-empty error message.
    ensures r.outcome.Returned? && !r.outcome.value.success ==>
              r.outcome.value.error.Some? && r.outcome.value.error.value != ""
  {
    match verdict
    case Threw(m) => Recover(options, m, [])
    case Returned(valid) =>
      if !valid then Rejected
      else if payload.status == Completed && options.onCompleted.Some? then
        Finish(options, options.onCompleted.value(payload), [CompletedCall(payload)])
      else if payload.status == Pending && options.onPending.Some? then
        Finish(options, options.onPending.value(payload), [PendingCall(payload)])
      else Processing(Returned(WebhookResult(true, None)), [])
  }

  /** `processBraidPayWebhook`: verify, dispatch on the status, fold a handler's error
      into the result. */
  function ProcessWebhook(mac: Mac, payload: WebhookPayload, signature: string, options: ProcessorOptions)
    : (r: Processing)
    // A 64-byte signature other than the expected one is rejected without any call.
    ensures && |Encode(signature)| == 64
            && signature != ExpectedSignature(mac, options.webhookSecret, payload.toAddress, payload.amount)
            ==> r == Rejected
    // A signature of another byte length makes the comparison throw: onError hears of
    // it and the result carries Node's message, not "Invalid signature".
    ensures |Encode(signature)| != 64 ==>
              && r.calls == (if options.onError.Some? then [ErrorCall(LengthMismatch)] else [])
              && (r.outcome.Returned? ==> r.outcome.value == WebhookResult(false, Some(LengthMismatch)))
    // The expected signature dispatches to the handler matching the status, if any.
    ensures signature == ExpectedSignature(mac, options.webhookSecret, payload.toAddress, payload.amount) ==>
              if payload.status == Completed && options.onCompleted.Some? then
                |r.calls| >= 1 && r.calls[0] == CompletedCall(payload)
              else if payload.status == Pending && options.onPending.Some? then
                |r.calls| >= 1 && r.calls[0] == PendingCall(payload)
              else r == Processing(Returned(WebhookResult(true, None)), [])
    // And the handler's own outcome decides the result: success with that one call
    // when it returns, the catch block after that call when it throws.
    ensures signature == ExpectedSignature(mac, options.webhookSecret, payload.toAddress, payload.amount) ==>
              && (payload.status == Completed && options.onCompleted.Some? ==>
                    Handled(r, options, options.onCompleted.value(payload), CompletedCall(payload)))
              && (payload.status == Pending && options.onPending.Some? ==>
                    Handled(r, options, options.onPending.value(payload), PendingCall(payload)))
  {
    Dispatch(VerifyWebhookSignature(mac, options.webhookSecret, payload.toAddress, payload.amount, signature), payload, options)
  }

  /** In a dispatch, at most one handler runs, only on a passed check, with the
      payload itself, and only the one matching the payload's status. */
  lemma DispatchCallsGuarded(verdict: Completion<bool>, payload: WebhookPayload, options: ProcessorOptions)
    ensures var r := Dispatch(verdict, payload, options);
            && (forall i, j :: 0 <= i < j < |r.calls| ==> !(IsHandlerCall(r.calls[i]) && IsHandlerCall(r.calls[j])))
            && (forall i :: 0 <= i < |r.calls| && IsHandlerCall(r.calls[i]) ==>
                  && verdict == Returned(true)
                  && r.calls[i].payload == payload
                  && (r.calls[i].CompletedCall? <==> payload.status == Completed))
  {
    var r := Dispatch(verdict, payload, options);
    if verdict == Returned(true) && payload.status == Completed && options.onCompleted.Some? {
      HandledCalls(r, options, options.onCompleted.value(payload), CompletedCall(payload));
    } else if verdict == Returned(true) && payload.status == Pending && options.onPending.Some? {
      HandledCalls(r, options, options.onPending.value(payload), PendingCall(payload));
    } else {
      assert forall i :: 0 <= i < |r.calls| ==> r.calls[i].ErrorCall?;
    }
  }

  /** After one handler, only `onError` can be called. */
  lemma HandledCalls(r: Processing, options: ProcessorOptions, outcome: Completion<()>, call: Call)
    requires Handled(r, options, outcome, call)
    ensures |r.calls| >= 1 && r.calls[0] == call
    ensures forall i :: 1 <= i < |r.calls| ==> r.calls[i].ErrorCall?
  {
  }

  /** At most one of `onCompleted` and `onPending` is ever called, only when the
      signature is the expected one, with the payload itself, and only the one
      matching the payload's status. */
  lemma HandlersOnlyAfterVerification(mac: Mac, payload: WebhookPayload, signature: string, options: ProcessorOptions)
    ensures var r := ProcessWebhook(mac, payload, signature, options);
            && (forall i, j :: 0 <= i < j < |r.calls| ==> !(IsHandlerCall(r.calls[i]) && IsHandlerCall(r.calls[j])))
            && (forall i :: 0 <= i < |r.calls| && IsHandlerCall(r.calls[i]) ==>
                  && signature == ExpectedSignature(mac, options.webhookSecret, payload.toAddress, payload.amount)
                  && r.calls[i].payload == payload
                  && (r.calls[i].CompletedCall? <==> payload.status == Completed))
  {
    DispatchCallsGuarded(VerifyWebhookSignature(mac, options.webhookSecret, payload.toAddress, payload.amount, signature), payload, options);
  }

  /** A handler that throws: onError (if present) is told its message once, after
      the handler, and the result reports the message or the fallback text. */
  lemma HandlerFailureIsFolded(mac: Mac, payload: WebhookPayload, options: ProcessorOptions, message: string)
    requires || (payload.status == Completed && options.onCompleted.Some? && options.onCompleted.value(payload) == Threw(message))
             || (payload.status == Pending && options.onPending.Some? && options.onPending.value(payload) == Threw(message))
    requires options.onError.None? || options.onError.value(message).Returned?
    ensures var r := ProcessWebhook(mac, payload, ExpectedSignature(mac, options.webhookSecret, payload.toAddress, payload.amount), options);
            && r.outcome == Returned(WebhookResult(false, Some(if message == "" then ProcessingFailed else message)))
            && r.calls == [if payload.status == Completed then CompletedCall(payload) else PendingCall(payload)]
                          + (if options.onError.Some? then [ErrorCall(message)] else [])
  {
  }

  /** A payload with the expected signature whose matching handler returns is
      acknowledged with `{success: true}`, after exactly that one handler call. */
  lemma HandledDeliverySucceeds(mac: Mac, payload: WebhookPayload, options: ProcessorOptions)
    requires || (payload.status == Completed && options.onCompleted.Some? && options.onCompleted.value(payload).Returned?)
             || (payload.status == Pending && options.onPending.Some? && options.onPending.value(payload).Returned?)
    ensures ProcessWebhook(mac, payload, ExpectedSignature(mac, options.webhookSecret, payload.toAddress, payload.amount), options)
            == Processing(Returned(WebhookResult(true, None)),
                          [if payload.status == Completed then CompletedCall(payload) else PendingCall(payload)])
  {
  }

  /** With an `onError` that does not throw (or none), processing never throws. */
  lemma NeverThrowsWithQuietOnError(mac: Mac, payload: WebhookPayload, signature: string, options: ProcessorOptions)
    requires options.onError.None? || forall m :: options.onError.value(m).Returned?
    ensures ProcessWebhook(mac, payload, signature, options).outcome.Returned?
  {
  }

  /** Only the address and the amount are authenticated: two payloads that agree on
      them are accepted or rejected together, whatever their other fields say. */
  lemma OnlyAddressAndAmountAreSigned(mac: Mac, p: WebhookPayload, q: WebhookPayload, signature: string, options: ProcessorOptions)
    requires p.toAddress == q.toAddress && p.amount == q.amount
    ensures ProcessWebhook(mac, p, signature, options) == Rejected
        <==> ProcessWebhook(mac, q, signature, options) == Rejected
  {
  }
}
