/** The legacy `usePaymentVerification` hook (`usePaymentVerification.ts` at the
    package root) as a state machine, in the same style as `PaymentPolling`.

    It differs from the exported hook: it registers the payment with the endpoint
    before polling, it lower-cases the address it sends, it sets no immediate check,
    it stops on any successful reply, and a failed check leaves polling on. */
module LegacyPolling {
  import opened Wrappers
  import opened Text
  import Types
  import PaymentPolling

  /** The legacy status record: the endpoint's reply is stored as it comes, so its
      optional fields stay optional. */
  datatype LegacyStatus = LegacyStatus(
    success: bool,
    isPending: Option<bool>,
    shouldShowSuccess: Option<bool>,
    message: Option<string>)

  /** `paymentLinkID`, the `email` option, and `onPaymentComplete` if given, as what
      each call of it does. */
  datatype Config = Config(
    paymentLinkID: string,
    initialEmail: Option<string>,
    callback: Option<LegacyStatus -> Completion<()>>)

  /** `status`, `isPolling`, `userEmail`; whether the interval is set; unanswered
      register and status requests; whether the component is mounted. */
  datatype Hook = Hook(
    status: LegacyStatus,
    isPolling: bool,
    userEmail: string,
    timerArmed: bool,
    registerInFlight: nat,
    pollInFlight: nat,
    mounted: bool)

  datatype Event =
    | Register(email: string)            // `registerPayment(email)`
    | RegisterResponse(ok: bool)         // the register request completes; false also for a throw
    | CheckNow                           // the caller invokes `checkPaymentStatus()`
    | Tick                               // the interval fires
    | PollResponse(result: LegacyStatus) // a status request completes with a parsed body
    | PollFailure                        // it throws
    | Teardown                           // the component unmounts

  datatype Effect =
    | RegisterFetch(paymentLinkID: string, email: string)
    | Fetch(paymentLinkID: string, email: string)
    | Complete(status: LegacyStatus)

  /** `resolved` holds what each `checkPaymentStatus` call that finished in the step
      resolved to; `None` is `undefined`. */
  datatype Output = Output(hook: Hook, effects: seq<Effect>, resolved: seq<Option<LegacyStatus>>)

  const CheckError := "Error checking payment status"
  const Unpaid := LegacyStatus(false, None, None, None)
  const CheckFailed := LegacyStatus(false, None, None, Some(CheckError))

  function Init(cfg: Config): (h: Hook)
    ensures h.status == Unpaid && !h.isPolling && h.userEmail == cfg.initialEmail.GetOr("")
    ensures !h.timerArmed && h.registerInFlight == 0 && h.pollInFlight == 0 && h.mounted
  {
    Hook(Unpaid, false, cfg.initialEmail.GetOr(""), false, 0, 0, true)
  }

  function Update(h: Hook, h': Hook): Hook {
    if h.mounted then h' else h
  }

  /** The polling effect, re-run when `isPolling` or `userEmail` changed: the old
      interval is cleared and a new one set while both are set. No check is made at
      once. */
  function Settle(before: Hook, o: Output): (r: Output)
    ensures r.effects == o.effects && r.resolved == o.resolved
    ensures r.hook == o.hook.(timerArmed := r.hook.timerArmed)
  {
    var h := o.hook;
    if !h.mounted || (h.isPolling == before.isPolling && h.userEmail == before.userEmail) then o
    else Output(h.(timerArmed := h.isPolling && h.userEmail != ""), o.effects, o.resolved)
  }

  /** `checkPaymentStatus` up to its request. */
  function StartCheck(cfg: Config, h: Hook): (o: Output)
    ensures h.userEmail == "" || cfg.paymentLinkID == "" ==> o == Output(h, [], [None])
    ensures h.userEmail != "" && cfg.paymentLinkID != "" ==>
              o == Output(h.(pollInFlight := h.pollInFlight + 1), [Fetch(cfg.paymentLinkID, Lower(h.userEmail))], [])
  {
    if h.userEmail == "" || cfg.paymentLinkID == "" then Output(h, [], [None])
    else Output(h.(pollInFlight := h.pollInFlight + 1), [Fetch(cfg.paymentLinkID, Lower(h.userEmail))], [])
  }

  /** One event. */
  function Step(cfg: Config, h: Hook, ev: Event): Output {
    match ev
    case Register(e) =>
      if e == "" || cfg.paymentLinkID == "" || !h.mounted then Output(h, [], [])
      else
        var h' := h.(userEmail := e, registerInFlight := h.registerInFlight + 1);
        Settle(h, Output(h', [RegisterFetch(cfg.paymentLinkID, Lower(e))], []))
    case RegisterResponse(ok) =>
      if h.registerInFlight == 0 then Output(h, [], [])
      else
        var h0 := h.(registerInFlight := h.registerInFlight - 1);
        Settle(h, Output(if ok then Update(h0, h0.(isPolling := true)) else h0, [], []))
    case CheckNow =>
      if !h.mounted then Output(h, [], []) else StartCheck(cfg, h)
    case Tick =>
      if !h.timerArmed then Output(h, [], []) else StartCheck(cfg, h)
    case PollResponse(result) =>
      if h.pollInFlight == 0 then Output(h, [], [])
      else
        var h0 := h.(pollInFlight := h.pollInFlight - 1);
        if !result.success then Output(Update(h0, h0.(status := result)), [], [Some(result)])
        else if cfg.callback.None? then
          Settle(h, Output(Update(h0, h0.(status := result, isPolling := false)), [], [Some(result)]))
        else if cfg.callback.value(result).Returned? then
          Settle(h, Output(Update(h0, h0.(status := result, isPolling := false)), [Complete(result)], [Some(result)]))
        else
          // the catch block overwrites the status and resolves to `{ success: false }`
          Settle(h, Output(Update(h0, h0.(status := CheckFailed, isPolling := false)), [Complete(result)], [Some(Unpaid)]))
    case PollFailure =>
      if h.pollInFlight == 0 then Output(h, [], [])
      else
        var h0 := h.(pollInFlight := h.pollInFlight - 1);
        Output(Update(h0, h0.(status := CheckFailed)), [], [Some(Unpaid)])
    case Teardown =>
      Output(h.(mounted := false, timerArmed := false), [], [])
  }

  /** The interval is set exactly while mounted, polling, and holding an address. */
  predicate Inv(h: Hook) {
    h.timerArmed <==> h.mounted && h.isPolling && h.userEmail != ""
  }

  lemma InitInv(cfg: Config)
    ensures Inv(Init(cfg))
  {
  }

  lemma StepInv(cfg: Config, h: Hook, ev: Event)
    requires Inv(h)
    ensures Inv(Step(cfg, h, ev).hook)
  {
  }

  /** `registerPayment` with an empty address or without a payment link does nothing. */
  lemma RegisterNeedsEmailAndLink(cfg: Config, h: Hook, e: string)
    requires e == "" || cfg.paymentLinkID == ""
    ensures Step(cfg, h, Register(e)) == Output(h, [], [])
  {
  }

  /** `registerPayment` stores the address before its request and sends it
      lower-cased; polling is not yet on. */
  lemma RegisterStoresEmailFirst(cfg: Config, h: Hook, e: string)
    requires Inv(h) && h.mounted && e != "" && cfg.paymentLinkID != ""
    ensures var o := Step(cfg, h, Register(e));
            && o.hook.userEmail == e
            && o.hook.isPolling == h.isPolling
            && o.hook.status == h.status
            && o.effects == [RegisterFetch(cfg.paymentLinkID, Lower(e))]
  {
  }

  /** Registering while a poll runs switches it to the new address at once: the next
      tick requests for it, before the register response arrives. */
  lemma RegisterSwitchesRunningPoll(cfg: Config, h: Hook, e: string)
    requires Inv(h) && h.mounted && h.isPolling && e != "" && cfg.paymentLinkID != ""
    ensures var o := Step(cfg, h, Register(e));
            && o.hook.isPolling && o.hook.timerArmed && o.hook.userEmail == e
            && Step(cfg, o.hook, Tick).effects == [Fetch(cfg.paymentLinkID, Lower(e))]
  {
  }

  /** Polling turns on only on an `ok` register response; anything else leaves the
      state as it was. Turning on sets the interval but requests nothing at once. */
  lemma PollingStartsOnlyOnOk(cfg: Config, h: Hook, ok: bool)
    requires Inv(h) && h.mounted && h.registerInFlight > 0
    ensures var o := Step(cfg, h, RegisterResponse(ok));
            && o.effects == []
            && (ok ==> o.hook.isPolling && (o.hook.timerArmed <==> h.userEmail != ""))
            && (!ok ==> o.hook == h.(registerInFlight := h.registerInFlight - 1))
  {
  }

  /** `checkPaymentStatus` without an address or a payment link requests nothing,
      changes nothing, and resolves to `undefined`. */
  lemma CheckNeedsEmailAndLink(cfg: Config, h: Hook)
    requires h.userEmail == "" || cfg.paymentLinkID == ""
    ensures Step(cfg, h, CheckNow) == Output(h, [], if h.mounted then [None] else [])
    ensures Step(cfg, h, Tick) == Output(h, [], if h.timerArmed then [None] else [])
  {
  }

  /** Any successful reply stops polling and is passed to the callback, whatever its
      `isPending` says; the reply becomes the status as it is and the call resolves
      to it. A callback that throws leaves polling off but turns the status into the
      error and the result into `{ success: false }`. */
  lemma AnySuccessStops(cfg: Config, h: Hook, result: LegacyStatus)
    requires Inv(h) && h.mounted && h.pollInFlight > 0 && result.success
    ensures var o := Step(cfg, h, PollResponse(result));
            var threw := cfg.callback.Some? && cfg.callback.value(result).Threw?;
            && !o.hook.isPolling && !o.hook.timerArmed
            && o.effects == (if cfg.callback.Some? then [Complete(result)] else [])
            && (!threw ==> o.hook.status == result && o.resolved == [Some(result)])
            && (threw ==> o.hook.status == CheckFailed && o.resolved == [Some(Unpaid)])
  {
  }

  /** A failed check reports the error, resolves to `{ success: false }`, and leaves
      polling and the interval as they were. */
  lemma FailureKeepsPolling(cfg: Config, h: Hook)
    requires Inv(h) && h.mounted && h.pollInFlight > 0
    ensures var o := Step(cfg, h, PollFailure);
            && o.hook.status == CheckFailed
            && o.hook.isPolling == h.isPolling && o.hook.timerArmed == h.timerArmed
            && o.effects == [] && o.resolved == [Some(Unpaid)]
  {
  }

  /** The addresses the hook sends, in register and status requests alike. */
  predicate SendsLowerCase(effects: seq<Effect>) {
    forall i :: 0 <= i < |effects| && !effects[i].Complete? ==> NoUpper(effects[i].email)
  }

  lemma StepSendsLowerCase(cfg: Config, h: Hook, ev: Event)
    ensures SendsLowerCase(Step(cfg, h, ev).effects)
  {
    match ev
    case Register(e) => LowerIsNormal(e);
    case CheckNow => LowerIsNormal(h.userEmail);
    case Tick => LowerIsNormal(h.userEmail);
    case _ =>
  }

  function Run(cfg: Config, h: Hook, evs: seq<Event>): (o: Output)
    decreases |evs|
  {
    if |evs| == 0 then Output(h, [], [])
    else
      var first := Step(cfg, h, evs[0]);
      var rest := Run(cfg, first.hook, evs[1..]);
      Output(rest.hook, first.effects + rest.effects, first.resolved + rest.resolved)
  }

  /** Over any run, every address sent to the endpoint is lower-case, whatever case
      the caller registered it in. */
  lemma {:induction false} RunSendsLowerCase(cfg: Config, h: Hook, evs: seq<Event>)
    ensures SendsLowerCase(Run(cfg, h, evs).effects)
    decreases |evs|
  {
    if |evs| > 0 {
      var first := Step(cfg, h, evs[0]);
      StepSendsLowerCase(cfg, h, evs[0]);
      RunSendsLowerCase(cfg, first.hook, evs[1..]);
      var rest := Run(cfg, first.hook, evs[1..]);
      var all := first.effects + rest.effects;
      assert Run(cfg, h, evs).effects == all;
      forall i | 0 <= i < |all| && !all[i].Complete? ensures NoUpper(all[i].email) {
        if i >= |first.effects| { assert all[i] == rest.effects[i - |first.effects|]; }
      }
    }
  }

  /** On a reply that is successful but still pending, the two hooks part ways: the
      exported hook keeps polling and calls nothing, the legacy hook stops and calls
      back. */
  lemma PendingSuccessDiverges(
    cfg: Config, h: Hook, newCfg: PaymentPolling.Config, newH: PaymentPolling.Hook)
    requires Inv(h) && h.mounted && h.pollInFlight > 0 && cfg.callback.Some?
    requires PaymentPolling.Inv(newH) && newH.mounted && newH.inFlight > 0 && newH.isPolling && newCfg.callback.Some?
    ensures var legacy := Step(cfg, h, PollResponse(LegacyStatus(true, Some(true), None, None)));
            var exported := PaymentPolling.Step(newCfg, newH, PaymentPolling.PollResponse(PaymentPolling.Body(Types.StatusReply(true, true, None))));
            && !legacy.hook.isPolling && |legacy.effects| == 1
            && exported.hook.isPolling && exported.effects == []
  {
    PaymentPolling.PendingSuccessKeepsPolling(newCfg, newH, Types.StatusReply(true, true, None));
  }
}
