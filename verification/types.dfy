/** The data contracts shared by the webhook processor and the polling hook:
    the webhook notification, the client-visible payment status, the iframe's
    completion message and the processor's options. */
module Types {
  import opened Wrappers

  datatype Network = Ethereum | Polygon | Base | Solana
  datatype Token = Usdc | Usdt | Pyusd
  datatype WebhookStatus = Pending | Completed

  /** JSON values, for the payload's open set of provider-specific fields.
      Numbers are restricted to integers. */
  datatype Json =
    | JNull
    | JBool(b: bool)
    | JNumber(n: int)
    | JString(s: string)
    | JArray(items: seq<Json>)
    | JObject(fields: map<string, Json>)

  /** A webhook notification. The named fields are the ones the processor and the
      route read; `extra` holds every other key of the JSON object. */
  datatype WebhookPayload = WebhookPayload(
    paymentLinkID: string,
    paymentID: string,
    fromAddress: string,
    toAddress: string,
    hash: string,
    network: Network,
    token: Token,
    amount: int,
    status: WebhookStatus,
    createdAt: string,
    updatedAt: string,
    payerEmail: Option<string>,
    extra: map<string, Json>)

  function NetworkName(n: Network): string {
    match n
    case Ethereum => "ETHEREUM"
    case Polygon => "POLYGON"
    case Base => "BASE"
    case Solana => "SOLANA"
  }

  function TokenName(t: Token): string {
    match t
    case Usdc => "USDC"
    case Usdt => "USDT"
    case Pyusd => "PYUSD"
  }

  function StatusName(s: WebhookStatus): string {
    match s
    case Pending => "PENDING"
    case Completed => "COMPLETED"
  }

  /** The `network` string union: exactly the four names are accepted. The parsers
      characterise the unions; the route receives an already typed payload. */
  function ParseNetwork(s: string): (r: Option<Network>)
    ensures r.Some? <==> s in {"ETHEREUM", "POLYGON", "BASE", "SOLANA"}
    ensures forall n :: NetworkName(n) == s <==> r == Some(n)
  {
    if s == "ETHEREUM" then Some(Ethereum)
    else if s == "POLYGON" then Some(Polygon)
    else if s == "BASE" then Some(Base)
    else if s == "SOLANA" then Some(Solana)
    else None
  }

  /** The `token` string union: exactly the three names are accepted (it only
      characterises the union). */
  function ParseToken(s: string): (r: Option<Token>)
    ensures r.Some? <==> s in {"USDC", "USDT", "PYUSD"}
    ensures forall t :: TokenName(t) == s <==> r == Some(t)
  {
    if s == "USDC" then Some(Usdc)
    else if s == "USDT" then Some(Usdt)
    else if s == "PYUSD" then Some(Pyusd)
    else None
  }

  /** The `status` string union: exactly `PENDING` and `COMPLETED` are accepted (it
      only characterises the union). */
  function ParseStatus(s: string): (r: Option<WebhookStatus>)
    ensures r.Some? <==> s in {"PENDING", "COMPLETED"}
    ensures forall st :: StatusName(st) == s <==> r == Some(st)
  {
    if s == "PENDING" then Some(Pending)
    else if s == "COMPLETED" then Some(Completed)
    else None
  }

  /** The reply of the verification endpoint the polling hook reads:
      `{success, isPending?, error?}`. An absent `isPending` reads as false. */
  datatype StatusReply = StatusReply(success: bool, isPending: bool, error: Option<string>)

  /** The client-visible payment status. `data` holds the raw endpoint reply. */
  datatype PaymentStatus = PaymentStatus(
    success: bool,
    isPending: bool,
    shouldShowSuccess: bool,
    error: Option<string>,
    data: Option<StatusReply>)

  /** `shouldShowSuccess` is derived from the other two flags. */
  predicate Derived(st: PaymentStatus) {
    st.shouldShowSuccess == (st.success && !st.isPending)
  }

  datatype CompleteStatus = Success | Failed

  /** The message the checkout frame posts when a payment ends. Its `type` tag is
      fixed, so it is a constant member rather than a field. */
  datatype PaymentCompleteData = PaymentCompleteData(
    paymentID: string,
    status: CompleteStatus,
    amount: Option<int>,
    currency: Option<string>,
    extra: map<string, Json>)
  {
    function Type(): string { "payment_complete" }
  }

  function CompleteStatusName(s: CompleteStatus): string {
    match s
    case Success => "success"
    case Failed => "failed"
  }

  /** The completion `status` union: exactly `success` and `failed` are accepted (it
      only characterises the union). */
  function ParseCompleteStatus(s: string): (r: Option<CompleteStatus>)
    ensures r.Some? <==> s in {"success", "failed"}
    ensures forall st :: CompleteStatusName(st) == s <==> r == Some(st)
  {
    if s == "success" then Some(Success) else if s == "failed" then Some(Failed) else None
  }

  /** A webhook handler: runs to completion or throws. */
  type Handler = WebhookPayload -> Completion<()>

  /** The processor's options. The secret is always present; each handler is optional.
      `onError` receives the thrown error's message. */
  datatype ProcessorOptions = ProcessorOptions(
    webhookSecret: string,
    onCompleted: Option<Handler>,
    onPending: Option<Handler>,
    onError: Option<string -> Completion<()>>)
}
