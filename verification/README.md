# braidpay-components: webhook verification and payment polling in Dafny

This project models the server-side and client-side core of `braidpay-components`.

- **Webhook verifier and processor** (`utils/webhook.ts`).
  - `verifyWebhookSignature` computes `HMAC-SHA256(secret, "${toAddress}:${amount}")` as lower-case hex. It compares that with the `x-webhook-signature` header using Node's `crypto.timingSafeEqual` over the UTF-8 bytes of both strings.
  - `processBraidPayWebhook` verifies the payload, dispatches it to `onCompleted` or `onPending`, and folds a thrown error into `{success: false, error}` after telling `onError`.
- **Webhook route template** (`webhook-api-template.ts`). The `POST` handler is a ladder of early returns: missing signature 401, unparsable body 500, missing field 400, already processed 200, missing secret 500. Then comes the processor call. The module-level `processedPayments` set records a payment id only after the integrator's business logic in `onCompleted` has returned.
- **Exported polling hook** (`hooks/usePaymentVerification.ts`).
  - `registerPayment` checks the address against `isValidEmail`'s regular expression and starts polling.
  - An effect makes one check at once and sets an interval.
  - A reply that is successful and not pending calls `onPaymentComplete` and stops polling. Without a callback, polling does not stop.
  - Every failed check or throwing callback fails closed: the status carries the message and polling stops.
  - An invalid address passed to `registerPayment` shows `Invalid email format` but leaves any running poll for the previous address in place.
- **Legacy polling hook** (`usePaymentVerification.ts`).
  - `registerPayment` first stores the address, then posts a `register` request. Polling starts only on an `ok` response.
  - Requests send the address lower-cased.
  - The interval makes no immediate check.
  - Any `success` reply stops polling and calls back, whatever `isPending` says.
  - A failed check reports `Error checking payment status` but leaves polling on.
- **Data types** (`types.ts`): the webhook payload, the status record, the completion message and the processor options.

## How the model is built

- **HMAC-SHA256** is a parameter `mac` of type `Webhook.Mac`: any function from key bytes and message bytes to a 32-byte digest. The rest is concrete:
  - UTF-8 encoding (`Utf8.Encode`, section 3 of RFC 3629);
  - hex rendering;
  - the template-literal rendering of an integral amount (`Text.IntToDecimal`);
  - `timingSafeEqual`, which throws when the byte lengths differ.
- **Errors**: `Wrappers.Completion` records whether a JavaScript function returned or threw, with the thrown message.
- **Handler calls**: the processor returns a trace of the handler calls it made (`Webhook.Call`).
- **The route** threads `processedPayments` through explicitly. `WebhookRoute.Run` replays a sequence of deliveries.
- **The hooks** are state machines.
  - A state record holds the React state, whether the interval is set, how many requests are unanswered, and whether the component is mounted.
  - `Step` takes one event: a caller action, a timer tick, a reply, a failure, or unmount. It returns the new state and the effects it asks for: requests, and calls of `onPaymentComplete`.
  - The `useEffect` that starts and stops polling re-runs when `isPolling` or the address changed (`Settle`).
  - After unmount, state updates are dropped. Callbacks still fire.

### Behaviour of the code worth knowing

- **Signed message.** The code signs `${toAddress}:${amount}` (`utils/webhook.ts:10`).
  - `Webhook.SignedMessageInjective` shows that the colon makes the message unambiguous.
  - `Webhook.UnseparatedMessageIsAmbiguous` shows two address/amount pairs whose messages would collide without the colon.
- **Thrown errors.** Processing can end in the catch block in two ways besides a throwing handler.
  - A signature of the wrong byte length makes `timingSafeEqual` throw. The result then carries Node's message, not `Invalid signature`.
  - An `onError` that throws makes the processor throw that error (`Webhook.Recover`, `Webhook.Dispatch`). With a quiet `onError` the processor never throws (`Webhook.NeverThrowsWithQuietOnError`).
- **Poll failures.** The exported hook stops polling on a failure. The legacy hook keeps polling (`LegacyPolling.FailureKeepsPolling`).
- **Throwing callbacks.** An `onPaymentComplete` that throws is caught by the same catch block as a failed request, in both hooks. The exported hook then shows the callback's message and resolves to `null`. The legacy hook shows `Error checking payment status` and resolves to `{ success: false }`.
- **Late replies.** Neither hook guards against replies that arrive after teardown.
  - A late successful reply still calls `onPaymentComplete` (`PaymentPolling.LateReplyStillCompletes`).
  - Two requests in flight that both answer "paid" call it twice (`PaymentPolling.CallbackNotDeduplicated`).
- **Email validation.** The exported hook validates addresses with `isValidEmail`. Its behaviour depends on the result, so the model covers the regular expression.

## Model

| member | source | states |
|---|---|---|
| Types.ParseNetwork | types.ts:62 | exactly the four network names are accepted, and each parses to the network it names |
| Types.ParseToken | types.ts:63 | exactly `USDC`, `USDT`, `PYUSD` are accepted, and each parses to the token it names |
| Types.ParseStatus | types.ts:65 | exactly `PENDING` and `COMPLETED` are accepted, and each parses to the status it names |
| Types.ParseCompleteStatus | types.ts:49 | exactly `success` and `failed` are accepted, and each parses to the completion status it names |
| Text.IntToDecimalRoundTrip | utils/webhook.ts:10 | the rendering of an integral amount in the signed message reads back as that amount |
| Utf8.EncodeInjective | utils/webhook.ts:16-19 | equal `Buffer.from` byte strings come only from equal strings, so comparing buffers compares the signatures |
| Utf8.EncodeLength | utils/webhook.ts:16-19 | a string's UTF-8 byte length equals its character count exactly when it is all ASCII |
| Utf8.HexRoundTrip | utils/webhook.ts:11-14 | the hex rendering of a digest decodes back to the digest |
| Webhook.SignedMessage | utils/webhook.ts:10 | the `address:amount` message parses back to the address and the amount, splitting at the last colon |
| Webhook.SignedMessageInjective | utils/webhook.ts:10 | different address/amount pairs sign different messages |
| Webhook.UnseparatedMessageIsAmbiguous | utils/webhook.ts:10 | without the colon, two different address/amount pairs would sign the same string, and with it they do not |
| Webhook.ExpectedSignature | utils/webhook.ts:11-14 | the expected signature is 64 lower-case hex characters, 64 bytes once encoded, and decodes to the MAC of the secret and the message |
| Webhook.VerifyWebhookSignature | utils/webhook.ts:4-20 | it throws with Node's length-mismatch message exactly when the signature is not 64 bytes long; otherwise it is true exactly for the expected signature |
| Webhook.ExpectedSignatureVerifies | utils/webhook.ts:4-20 | the signature computed for an address and amount is accepted |
| Webhook.NonAsciiSignatureThrows | utils/webhook.ts:16-19 | a 64-character signature with a non-ASCII character makes the comparison throw instead of returning false |
| Webhook.Recover | utils/webhook.ts:46-54 | the catch block tells `onError` (if any) once, last, and reports the message, or the fallback text when the message is empty; it throws exactly when `onError` throws, and what `onError` threw |
| Webhook.Dispatch | utils/webhook.ts:35-54 | a mismatch is rejected with no call; a thrown check goes to the catch block; a verified payload runs the handler for its status first, or succeeds with no call; a handler that returns gives `{success: true}` after exactly that call; one that throws is folded into the catch block; `onError` is only ever the last call; a failure always carries a non-empty error |
| Webhook.ProcessWebhook | utils/webhook.ts:22-55 | a 64-byte wrong signature is rejected without calls; a wrong-length one ends in the catch block with Node's message; for the expected one, the handler matching the status runs once and a return gives `{success: true}`, a throw the folded failure |
| Webhook.DispatchCallsGuarded | utils/webhook.ts:35-43 | at most one handler runs, only after a passed check, with the payload itself, and only the one matching its status |
| Webhook.HandledDeliverySucceeds | utils/webhook.ts:35-45 | a correctly signed delivery whose handler returns succeeds with exactly that one handler call |
| Webhook.HandlersOnlyAfterVerification | utils/webhook.ts:28-43 | in processing, a handler runs only for the expected signature, at most once, with the payload, matching its status |
| Webhook.HandlerFailureIsFolded | utils/webhook.ts:35-54 | a throwing `onCompleted` or `onPending` is followed by one `onError` call and the result `{success: false, error: message or fallback}` |
| Webhook.NeverThrowsWithQuietOnError | utils/webhook.ts:46-54 | with no `onError`, or one that never throws, processing never throws |
| Webhook.OnlyAddressAndAmountAreSigned | utils/webhook.ts:10 | two payloads that agree on address and amount are rejected or accepted together, whatever else they carry |
| EmailFormat.DotAtomIffShape | hooks/usePaymentVerification.ts:7 | an unquoted local part matches exactly when it is non-empty, has no leading, trailing or doubled dots, and has only atom characters |
| EmailFormat.DomainShape | hooks/usePaymentVerification.ts:7 | an accepted domain is non-empty; one that is not bracketed has a dot, and the text after its last dot is at least two ASCII letters |
| EmailFormat.IsValidEmail | hooks/usePaymentVerification.ts:5-9 | an accepted address contains an `@` |
| EmailFormat.ValidEmailMatchesPattern | hooks/usePaymentVerification.ts:5-9 | splitting at the last `@` accepts exactly the strings that some split into local part and domain matches |
| EmailFormat.ValidEmailShape | hooks/usePaymentVerification.ts:7 | an accepted address has a non-empty local part and domain; an unquoted local part has the dot-atom shape; an unbracketed domain ends in a dot and two or more letters |
| EmailFormat.ValidEmailOfParts | hooks/usePaymentVerification.ts:7 | any local part and domain joined by `@` are accepted |
| EmailFormat.BracketedGroups | hooks/usePaymentVerification.ts:7 | any four groups of one to three digits in brackets form a domain |
| EmailFormat.BracketedAddressIsUnchecked | hooks/usePaymentVerification.ts:7 | group values above 255 (such as `[999.999.999.999]`) are accepted |
| WebhookRoute.TemplateOptions | webhook-api-template.ts:58-114 | the route passes its secret and all three handlers, and none of them throws |
| WebhookRoute.Post | webhook-api-template.ts:26-132 | the set grows by at most the request's own new id; the processor is reached only past every early return; every non-200 response carries a non-empty error |
| WebhookRoute.MissingSignatureComesFirst | webhook-api-template.ts:29-33 | a missing or empty signature header gets 401 before anything else |
| WebhookRoute.MalformedBodyIsServerError | webhook-api-template.ts:36 | a body that does not parse reaches the outer catch: 500 |
| WebhookRoute.MissingFieldIsInvalidPayload | webhook-api-template.ts:39-42 | an empty id, an empty address or a zero amount gets 400 |
| WebhookRoute.AlreadyProcessedSkipsVerification | webhook-api-template.ts:45-48 | a known id is acknowledged with 200 without checking the secret or the signature |
| WebhookRoute.MissingSecretIsConfigurationError | webhook-api-template.ts:51-55 | a missing secret gets 500 once the idempotency check has passed |
| WebhookRoute.ProcessorResultIsResponse | webhook-api-template.ts:58-122 | past the early returns, the processor never throws; the response is 400 with its error on failure and 200 on success |
| WebhookRoute.ServerErrorIff | webhook-api-template.ts:26-132 | for bodies that parse to null or to a payload of the declared field types, the route answers 500 exactly for an unparsable body or a missing secret |
| WebhookRoute.RecordedIff | webhook-api-template.ts:45-101 | an id is recorded exactly when the request passes the ladder, carries the expected signature, is `COMPLETED`, and the business logic returns |
| WebhookRoute.BusinessFailureIsAcknowledged | webhook-api-template.ts:62-101 | business logic that throws is swallowed: 200, the id is not recorded, and a redelivery runs it again |
| WebhookRoute.CompletionRecords | webhook-api-template.ts:93-94 | within one request, completed business logic is exactly what changes the set |
| WebhookRoute.RunGrows | webhook-api-template.ts:24 | over a sequence of deliveries the set never shrinks |
| WebhookRoute.RunSkipsKnown | webhook-api-template.ts:45-48 | a delivery never completes the business logic for an id recorded before the sequence began |
| WebhookRoute.BusinessCompletesOncePerPayment | webhook-api-template.ts:24-101 | over any sequence of deliveries, the business logic completes at most once per payment id |
| PaymentPolling.Mapped | hooks/usePaymentVerification.ts:53-59 | the status a reply maps to copies its `success`, `isPending` and error, has `shouldShowSuccess` derived from them, and keeps the reply as `data` |
| PaymentPolling.Init | hooks/usePaymentVerification.ts:18-24 | the hook starts with an all-false status, the given address, and polling off |
| PaymentPolling.Fail | hooks/usePaymentVerification.ts:69-78 | the catch block sets an all-false status with the message and turns polling off, unless unmounted |
| PaymentPolling.StartCheck | hooks/usePaymentVerification.ts:26-45 | an empty address fails with `Email is required`, an invalid one with `Invalid email format`, and a valid one sends one request for it |
| PaymentPolling.Settle | hooks/usePaymentVerification.ts:82-98 | the effect adds at most one request after the step's own effects and changes neither the address nor mounting |
| PaymentPolling.StepInv | hooks/usePaymentVerification.ts:26-120 | every event keeps the invariant: the interval is set exactly while mounted, polling and holding an address; polling implies a valid address; `shouldShowSuccess` is derived |
| PaymentPolling.RegisterInvalid | hooks/usePaymentVerification.ts:100-111 | a rejected address only sets the `Invalid email format` status; address, polling and requests are unchanged |
| PaymentPolling.RegisterValid | hooks/usePaymentVerification.ts:100-120 | a valid address starts polling with the awaiting status and, unless already polled, requests at once |
| PaymentPolling.ResponseMapsStatus | hooks/usePaymentVerification.ts:51-78 | a parsed reply becomes the status, mapped from it, and the call resolves to it; a callback that throws instead sets an all-false status with its message, stops polling and resolves to `null` |
| PaymentPolling.StopsExactlyOnCompletion | hooks/usePaymentVerification.ts:63-66 | polling stops on a reply exactly when it is successful, not pending, and a callback exists; the callback is then called once |
| PaymentPolling.PendingSuccessKeepsPolling | hooks/usePaymentVerification.ts:55-66 | a successful but pending reply keeps polling and calls nothing |
| PaymentPolling.FailuresStopPolling | hooks/usePaymentVerification.ts:28-78 | each failure (no address, bad address, non-ok response, thrown error) sets an all-false status with its message, stops polling, and resolves the call to `null` |
| PaymentPolling.TickFetchesOnlyWhileActive | hooks/usePaymentVerification.ts:85-90 | the interval requests only while polling is active, and for the current address |
| PaymentPolling.LateReplyStillCompletes | hooks/usePaymentVerification.ts:63-65 | after unmount, a successful reply leaves the state alone but still calls the callback |
| PaymentPolling.StoppedStaysQuiet | hooks/usePaymentVerification.ts:82-98 | once stopped, ticks, replies and unmount never restart polling or send a request |
| PaymentPolling.CallbackNotDeduplicated | hooks/usePaymentVerification.ts:63-66 | two requests in flight answered "paid" call the callback twice |
| PaymentPolling.RegisterFromIdle | hooks/usePaymentVerification.ts:82-120 | registering from the initial state requests at once and sets the interval |
| PaymentPolling.PendingThenTick | hooks/usePaymentVerification.ts:53-90 | a pending answer, successful or not, followed by a tick leaves one new request out |
| PaymentPolling.PaidStops | hooks/usePaymentVerification.ts:63-78 | a paid answer calls back once and stops polling; success is shown exactly when the callback returns |
| PaymentPolling.PendingPendingPaid | hooks/usePaymentVerification.ts:26-120 | register, pending, tick, pending, tick, paid: three requests, one callback, then stopped, showing success exactly when the callback returns |
| LegacyPolling.Init | usePaymentVerification.ts:33-35 | the hook starts unpaid, not polling, with the given address or the empty string |
| LegacyPolling.Settle | usePaymentVerification.ts:100-107 | the effect only sets or clears the interval and requests nothing |
| LegacyPolling.StartCheck | usePaymentVerification.ts:65-78 | without an address or a payment link nothing happens; otherwise one request for the lower-cased address |
| LegacyPolling.StepInv | usePaymentVerification.ts:38-107 | every event keeps the interval set exactly while mounted, polling and holding an address |
| LegacyPolling.RegisterNeedsEmailAndLink | usePaymentVerification.ts:39 | registration without an address or a payment link does nothing |
| LegacyPolling.RegisterStoresEmailFirst | usePaymentVerification.ts:41-54 | registration stores the address before the request, sends it lower-cased, and leaves `isPolling` as it was (an already-running poll switches to the new address at once) |
| LegacyPolling.RegisterSwitchesRunningPoll | usePaymentVerification.ts:41-107 | registering while a poll runs keeps the interval set, and the next tick requests for the new address, before any register response |
| LegacyPolling.PollingStartsOnlyOnOk | usePaymentVerification.ts:56-61 | polling turns on only for an `ok` registration, with no immediate check; any other outcome changes nothing |
| LegacyPolling.CheckNeedsEmailAndLink | usePaymentVerification.ts:66 | a check without an address or a payment link sends nothing, changes nothing and resolves to `undefined` |
| LegacyPolling.AnySuccessStops | usePaymentVerification.ts:80-97 | any successful reply stops polling and is passed to the callback, whatever `isPending` says; it becomes the status and the result, unless the callback throws, which sets the error status and resolves to `{ success: false }` |
| LegacyPolling.FailureKeepsPolling | usePaymentVerification.ts:93-97 | a failed check reports `Error checking payment status`, resolves to `{ success: false }` and leaves polling on |
| LegacyPolling.StepSendsLowerCase | usePaymentVerification.ts:51 | every address a step sends is lower-case |
| LegacyPolling.RunSendsLowerCase | usePaymentVerification.ts:51-75 | over any run, every address sent to the endpoint is lower-case |
| LegacyPolling.PendingSuccessDiverges | usePaymentVerification.ts:85-90 | on a successful but pending reply the legacy hook stops and calls back, while the exported hook keeps polling and calls nothing |

## Left out

- HMAC-SHA256 itself is a parameter. The model proves nothing about its cryptographic strength.
- Constant-time behaviour of `timingSafeEqual` is left out; only its result and its length-mismatch exception are modelled.
- `${amount}` is modelled for integral amounts of magnitude at most 2^53 only. Above 2^53 a JavaScript number no longer holds every integer, so the digits `${amount}` prints can differ from the integer's; such amounts, fractions, exponent notation, `NaN` and `Infinity` are not rendered.
- Strings are sequences of Unicode scalar values. Lone UTF-16 surrogates, which `Buffer.from` replaces, are not modelled.
- `toLowerCase` is modelled on ASCII letters only. Other scripts' case mappings are left out.
- Network, JSON parsing, timers and React scheduling are events and effects. Their timing, the `pollingInterval` value and the `verificationEndpoint` URL are not modelled.
- A JSON body with a missing field reads that field as the empty string or 0. A body whose fields have the wrong JSON type (an `amount` that is a string, say) is not represented: the code never checks types and would process such a body, so `WebhookRoute.ServerErrorIff` covers only unparsable bodies and payloads of the declared types.
- Deliveries are modelled one at a time. The route awaits the processor between `processedPayments.has` (`webhook-api-template.ts:45`) and `processedPayments.add` (line 94), so two overlapping deliveries of one payment can both run the business logic. `WebhookRoute.BusinessCompletesOncePerPayment` does not cover overlapping requests.
- A body that parses to a JSON value other than `null` or an object (`42`, `"x"`, `[]`, `true`) is not represented. The code reads `paymentID` as `undefined` for it and answers 400 `Invalid payload`.
- A payload whose `status`, `network` or `token` lies outside its union is not representable. For such a status the code would answer success without calling a handler.
- A thrown non-`Error` value is modelled only in the exported hook's catch block (`Unknown error occurred`). Elsewhere a thrown value is a message string.
- `onPaymentComplete` is taken to keep its identity across renders, so changing it never re-runs the effect. `PaymentForm.tsx:67` breaks this: it passes an inline arrow function, so every render of the form gives `checkPaymentStatus` a new identity, re-runs the effect and makes an immediate request. The request timing stated by `PaymentPolling.RegisterValid`, `PaymentPolling.PendingThenTick` and `PaymentPolling.PendingPendingPaid` holds only for a callback of stable identity.
- Calls of `registerPayment` or `checkPaymentStatus` after unmount are ignored. The code would still send their requests.
- Console logging is left out.
- The UI components (`BraidPayButton.tsx`, `PaymentForm.tsx`), `webhook-handler.ts`, `index.ts`, the polyfills and the build configuration are not part of this model.
- The `Payer_Email` branch of the template's `onCompleted` is commented-out example code. It is part of the `business` parameter.
- EmailFormat.IsValidEmail: its own contract states only that an accepted address holds an `@`. The full agreement with the regular expression is `EmailFormat.ValidEmailMatchesPattern`.
